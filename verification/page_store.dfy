/** The Confluence pages the weekly reports are written to, as a map from
    page title to page (one space). A title lookup that finds nothing is Go's
    empty Content with an empty Id; here it is a missing key. Page ids are
    not modelled: a page's parent is recorded by the parent's title, and a
    parent that does not exist is None (the empty ancestor id the source
    would send). */
module PageStore {

  import opened Types
  import opened Markup

  /** A page: its parent page, its storage-format body and its version. */
  datatype Page = Page(parent: Option<string>, body: seq<Html>, version: nat)

  type Store = map<string, Page>

  /** The page all personal weekly date pages are created under. */
  const PersonalRoot: string := "Personal Weekly Report 2019"

  /** The parent reference a new page gets: the parent's title when that
      page exists, None otherwise. */
  function ParentRef(store: Store, parentTitle: string): (r: Option<string>)
    ensures r.Some? <==> parentTitle in store
    ensures r.Some? ==> r.value == parentTitle
  {
    if parentTitle in store then Some(parentTitle) else None
  }

  /** createContent: a new page under the parent, at version 1. Nothing
      else changes. */
  function Create(store: Store, parentTitle: string, title: string, body: seq<Html>): (r: Store)
    ensures r.Keys == store.Keys + {title}
    ensures r[title] == Page(ParentRef(store, parentTitle), body, 1)
    ensures forall t :: t in store && t != title ==> r[t] == store[t]
  {
    store[title := Page(ParentRef(store, parentTitle), body, 1)]
  }

  /** updateContent: the body is replaced and the version goes up by one;
      the page keeps its parent. Nothing else changes. */
  function Update(store: Store, title: string, body: seq<Html>): (r: Store)
    requires title in store
    ensures r.Keys == store.Keys
    ensures r[title] == Page(store[title].parent, body, store[title].version + 1)
    ensures forall t :: t in store && t != title ==> r[t] == store[t]
  {
    store[title := store[title].(body := body, version := store[title].version + 1)]
  }

  /** createConfluencePath: the date page is created, empty and under the
      personal-report root, only when it does not already exist. */
  function EnsurePath(store: Store, date: string): (r: Store)
    ensures date in store ==> r == store
    ensures date !in store ==> r == Create(store, PersonalRoot, date, [])
    ensures date in r && r.Keys == store.Keys + {date}
  {
    if date in store then store else Create(store, PersonalRoot, date, [])
  }

  /** The title of a member's weekly page. */
  function PersonalTitle(date: string, name: string): (r: string)
    ensures |r| == |date| + 1 + |name|
    ensures r[..|date|] == date && r[|date|] == ' '
  {
    date + " " + name
  }

  /** createPersonalWeeklyReportToConfluence. An existing page is updated in
      place. Otherwise the date page is made sure of and the member's page is
      created under it at version 1. Either way the page then holds `body`,
      and no page other than the member's page and a new date page is
      touched. */
  function UpsertPersonal(store: Store, date: string, name: string, body: seq<Html>): (r: Store)
    ensures PersonalTitle(date, name) in r && r[PersonalTitle(date, name)].body == body
    ensures PersonalTitle(date, name) in store ==>
      r[PersonalTitle(date, name)] == Page(store[PersonalTitle(date, name)].parent, body, store[PersonalTitle(date, name)].version + 1)
    ensures PersonalTitle(date, name) !in store ==> r[PersonalTitle(date, name)] == Page(Some(date), body, 1)
    ensures PersonalTitle(date, name) in store ==> r.Keys == store.Keys
    ensures PersonalTitle(date, name) !in store ==> r.Keys == store.Keys + {date, PersonalTitle(date, name)}
    ensures PersonalTitle(date, name) !in store && date !in store ==> r[date] == Page(ParentRef(store, PersonalRoot), [], 1)
    ensures forall t :: t in store && t != PersonalTitle(date, name) ==> r[t] == store[t]
  {
    var title := PersonalTitle(date, name);
    if title in store then Update(store, title, body)
    else
      var withPath := EnsurePath(store, date);
      assert title != date;
      Create(withPath, date, title, body)
  }

  /** createWeeklyReport: the same decision for the team page, whose parent
      is the configured weekly path, and with no date page. */
  function UpsertWeekly(store: Store, weeklyPath: string, title: string, body: seq<Html>): (r: Store)
    ensures title in r && r[title].body == body
    ensures title in store ==> r[title] == Page(store[title].parent, body, store[title].version + 1)
    ensures title !in store ==> r[title] == Page(ParentRef(store, weeklyPath), body, 1)
    ensures r.Keys == store.Keys + {title}
    ensures forall t :: t in store && t != title ==> r[t] == store[t]
  {
    if title in store then Update(store, title, body)
    else Create(store, weeklyPath, title, body)
  }

  /** Making sure of the date page twice is the same as once. */
  lemma EnsurePathIdempotent(store: Store, date: string)
    ensures EnsurePath(EnsurePath(store, date), date) == EnsurePath(store, date)
  {
  }

  /** Writing a member's page a second time finds it and updates it: the
      pages are the same set, the body is the second one, the version is one
      higher than after the first write, and every other page is as the
      first write left it. */
  lemma UpsertPersonalTwice(store: Store, date: string, name: string, body1: seq<Html>, body2: seq<Html>)
    ensures UpsertPersonal(UpsertPersonal(store, date, name, body1), date, name, body2).Keys
              == UpsertPersonal(store, date, name, body1).Keys
    ensures UpsertPersonal(UpsertPersonal(store, date, name, body1), date, name, body2)[PersonalTitle(date, name)]
              == UpsertPersonal(store, date, name, body1)[PersonalTitle(date, name)].(body := body2,
                   version := UpsertPersonal(store, date, name, body1)[PersonalTitle(date, name)].version + 1)
    ensures forall t :: t in UpsertPersonal(store, date, name, body1) && t != PersonalTitle(date, name) ==>
              UpsertPersonal(UpsertPersonal(store, date, name, body1), date, name, body2)[t]
                == UpsertPersonal(store, date, name, body1)[t]
  {
  }

  /** A page written for the first time hangs under its date page, and that
      date page exists afterwards. */
  lemma NewPageUnderDate(store: Store, date: string, name: string, body: seq<Html>)
    requires PersonalTitle(date, name) !in store
    ensures date in UpsertPersonal(store, date, name, body)
    ensures UpsertPersonal(store, date, name, body)[PersonalTitle(date, name)].parent == Some(date)
    ensures date in store ==> UpsertPersonal(store, date, name, body)[date] == store[date]
  {
  }

  /** Different members' names give different titles on the same date, and
      no member's title is the date page's title. */
  lemma PersonalTitleInjective(date: string, a: string, b: string)
    ensures PersonalTitle(date, a) == PersonalTitle(date, b) ==> a == b
    ensures PersonalTitle(date, a) != date
  {
    if PersonalTitle(date, a) == PersonalTitle(date, b) {
      assert PersonalTitle(date, a)[|date| + 1..] == a;
      assert PersonalTitle(date, b)[|date| + 1..] == b;
    }
  }
}
