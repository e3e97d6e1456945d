/** A member's personal weekly page (weekly.go, createPersonalWeeklyReport)
    and the loop over all members that writes those pages
    (runWeeklyReportCommandFunc). */
module Weekly {

  import opened Types
  import opened Markup
  import opened Classifier
  import opened Render
  import opened PageStore

  /** The bucket of epics. */
  const EpicType: string := "epic"

  /** An order to visit the buckets in: each bucket exactly once. Go leaves
      the iteration order of a map unspecified, so the page is defined for
      every such order. */
  predicate IsBucketOrder(buckets: Buckets, order: seq<string>)
  {
    Distinct(order) && Elements(order) == buckets.Keys
  }

  /** Every bucket's keys lie in the universe. */
  predicate BucketsWithin(buckets: Buckets, universe: set<string>)
  {
    forall t :: t in buckets ==> KeysWithin(buckets[t], universe)
  }

  lemma ClassifyWithin(issues: seq<Issue>, universe: set<string>)
    requires KeysWithin(issues, universe)
    ensures BucketsWithin(Classify(issues), universe)
  {
    var b := Classify(issues);
    forall t | t in b ensures KeysWithin(b[t], universe) {
      OfTypeMembers(issues, t);
      forall j | 0 <= j < |b[t]| ensures b[t][j].key in universe {
        assert b[t][j] in multiset(b[t]);
        assert b[t][j] in multiset(issues);
      }
    }
  }

  /** The epic section: a heading and the list of epics, rendered from an
      empty visited set; nothing when there are no epics. */
  function EpicPart(env: Env, buckets: Buckets): (r: Rendered)
    requires Valid(env) && BucketsWithin(buckets, env.universe)
    ensures r.visited <= env.universe
    ensures ShowsNewlyVisited(r.out, {}, r.visited)
    ensures EpicType in buckets ==> forall i :: 0 <= i < |buckets[EpicType]| ==> buckets[EpicType][i].key in r.visited
    ensures EpicType !in buckets ==> r == Rendered([], {})
  {
    if EpicType in buckets then
      var list := RenderList(env, None, buckets[EpicType], {});
      WrapShownHead(Heading("h3", "Epic"), list.out);
      Rendered([Heading("h3", "Epic")] + list.out, list.visited)
    else Rendered([], {})
  }

  /** A token that shows no issue in front of a fragment changes nothing. */
  lemma WrapShownHead(head: Html, body: seq<Html>)
    requires !head.IssueMacro?
    ensures ShownKeys([head] + body) == ShownKeys(body)
  {
    ShownKeysAppend([head], body);
  }

  /** The loop over the other buckets, in `order`: the epic bucket and empty
      buckets are skipped; every other bucket gets a heading with the type
      name of its first issue, its list, and a line break, all with the one
      visited set. */
  function Sections(env: Env, buckets: Buckets, order: seq<string>, visited: set<string>): (r: Rendered)
    requires Valid(env) && BucketsWithin(buckets, env.universe)
    requires forall i :: 0 <= i < |order| ==> order[i] in buckets
    ensures visited <= r.visited <= visited + env.universe
    ensures ShowsNewlyVisited(r.out, visited, r.visited)
    ensures forall i, j :: 0 <= i < |order| && order[i] != EpicType && 0 <= j < |buckets[order[i]]| ==>
      buckets[order[i]][j].key in r.visited
    decreases |order|
  {
    if |order| == 0 then Rendered([], visited)
    else
      var t := order[0];
      var bucket := buckets[t];
      if t == EpicType || |bucket| == 0 then
        Sections(env, buckets, order[1..], visited)
      else
        var list := RenderList(env, None, bucket, visited);
        var rest := Sections(env, buckets, order[1..], list.visited);
        var section := [Heading("h3", bucket[0].typeName)] + list.out + [LineBreak];
        WrapShown(Heading("h3", bucket[0].typeName), list.out, LineBreak);
        ComposeShown(section, rest.out, visited, list.visited, rest.visited);
        Rendered(section + rest.out, rest.visited)
  }

  /** The epic bucket is never given a section of its own here: the loop
      goes on past it with the same set. */
  lemma {:induction false} SectionsSkipEpic(env: Env, buckets: Buckets, order: seq<string>, visited: set<string>)
    requires Valid(env) && BucketsWithin(buckets, env.universe)
    requires forall i :: 0 <= i < |order| ==> order[i] in buckets
    requires |order| > 0 && order[0] == EpicType
    ensures Sections(env, buckets, order, visited) == Sections(env, buckets, order[1..], visited)
  {
  }

  /** createPersonalWeeklyReport: the page title line, the epic section,
      a line break, then the other sections. The keys shown on the page are
      distinct, and every one of the member's issues is shown. */
  function PersonalReport(env: Env, issues: seq<Issue>, order: seq<string>): (r: Rendered)
    requires Valid(env) && KeysWithin(issues, env.universe)
    requires IsBucketOrder(Classify(issues), order)
    ensures |r.out| > 0 && r.out[0] == Heading("h2", " Works of this week")
    ensures Distinct(ShownKeys(r.out))
    ensures Elements(ShownKeys(r.out)) == r.visited
    ensures forall i :: 0 <= i < |issues| ==> issues[i].key in ShownKeys(r.out)
  {
    var buckets := Classify(issues);
    ClassifyWithin(issues, env.universe);
    var epics := EpicPart(env, buckets);
    assert forall i :: 0 <= i < |order| ==> order[i] in buckets by {
      assert forall i :: 0 <= i < |order| ==> order[i] in Elements(order);
    }
    var others := Sections(env, buckets, order, epics.visited);
    var out := [Heading("h2", " Works of this week")] + epics.out + [LineBreak] + others.out;
    ReportShows(epics.out, others.out, epics.visited, others.visited);
    IssuesCovered(issues, order, epics.visited, others.visited);
    Rendered(out, others.visited)
  }

  lemma ReportShows(epics: seq<Html>, others: seq<Html>, v1: set<string>, v2: set<string>)
    requires v1 <= v2
    requires ShowsNewlyVisited(epics, {}, v1) && ShowsNewlyVisited(others, v1, v2)
    ensures ShowsNewlyVisited([Heading("h2", " Works of this week")] + epics + [LineBreak] + others, {}, v2)
  {
    WrapShown(Heading("h2", " Works of this week"), epics, LineBreak);
    ComposeShown([Heading("h2", " Works of this week")] + epics + [LineBreak], others, {}, v1, v2);
  }

  /** An issue of any bucket is visited: an epic by the epic section, any
      other by the section of its bucket. */
  lemma BucketCovered(buckets: Buckets, order: seq<string>, v1: set<string>, v2: set<string>, t: string, x: Issue)
    requires t in buckets && x in buckets[t] && t in Elements(order)
    requires forall i :: 0 <= i < |order| ==> order[i] in buckets
    requires v1 <= v2
    requires EpicType in buckets ==> forall i :: 0 <= i < |buckets[EpicType]| ==> buckets[EpicType][i].key in v1
    requires forall i, j :: 0 <= i < |order| && order[i] != EpicType && 0 <= j < |buckets[order[i]]| ==>
      buckets[order[i]][j].key in v2
    ensures x.key in v2
  {
    var j :| 0 <= j < |buckets[t]| && buckets[t][j] == x;
    if t != EpicType {
      var k :| 0 <= k < |order| && order[k] == t;
      assert buckets[order[k]][j].key in v2;
    }
  }

  /** Every issue lands in a bucket that one of the two parts lists. */
  lemma IssuesCovered(issues: seq<Issue>, order: seq<string>, v1: set<string>, v2: set<string>)
    requires IsBucketOrder(Classify(issues), order)
    requires v1 <= v2
    requires EpicType in Classify(issues) ==>
      forall i :: 0 <= i < |Classify(issues)[EpicType]| ==> Classify(issues)[EpicType][i].key in v1
    requires forall i, j :: 0 <= i < |order| && order[i] != EpicType && 0 <= j < |Classify(issues)[order[i]]| ==>
      Classify(issues)[order[i]][j].key in v2
    ensures forall i :: 0 <= i < |issues| ==> issues[i].key in v2
  {
    var buckets := Classify(issues);
    ClassifyPlacesEachIssue(issues);
    assert forall i :: 0 <= i < |order| ==> order[i] in buckets by {
      assert forall i :: 0 <= i < |order| ==> order[i] in Elements(order);
    }
    forall i | 0 <= i < |issues| ensures issues[i].key in v2 {
      BucketCovered(buckets, order, v1, v2, TypeKey(issues[i]), issues[i]);
    }
  }

  /** Every epic of the member is in the epic bucket, so shown when that
      bucket's keys are. */
  lemma EpicsShown(issues: seq<Issue>, v1: set<string>, shown: seq<string>)
    requires Elements(shown) == v1
    requires EpicType in Classify(issues) ==>
      forall i :: 0 <= i < |Classify(issues)[EpicType]| ==> Classify(issues)[EpicType][i].key in v1
    ensures forall i :: 0 <= i < |issues| && TypeKey(issues[i]) == EpicType ==> issues[i].key in shown
  {
    var buckets := Classify(issues);
    ClassifyPlacesEachIssue(issues);
    forall i | 0 <= i < |issues| && TypeKey(issues[i]) == EpicType ensures issues[i].key in shown {
      var j :| 0 <= j < |buckets[EpicType]| && buckets[EpicType][j] == issues[i];
      assert issues[i].key in Elements(shown);
    }
  }

  /** Epics first, with the same visited set afterwards: every epic of the
      member is shown in the epic section, and no key the epic section
      visited (an epic or anything listed under one) is shown again in a
      later section. */
  lemma EpicSectionFirst(env: Env, issues: seq<Issue>, order: seq<string>)
    requires Valid(env) && KeysWithin(issues, env.universe)
    requires IsBucketOrder(Classify(issues), order)
    ensures BucketsWithin(Classify(issues), env.universe)
    ensures forall i :: 0 <= i < |order| ==> order[i] in Classify(issues)
    ensures PersonalReport(env, issues, order).out ==
              [Heading("h2", " Works of this week")] + EpicPart(env, Classify(issues)).out + [LineBreak]
              + Sections(env, Classify(issues), order, EpicPart(env, Classify(issues)).visited).out
    ensures forall i :: 0 <= i < |issues| && TypeKey(issues[i]) == EpicType ==>
              issues[i].key in ShownKeys(EpicPart(env, Classify(issues)).out)
    ensures forall k :: k in ShownKeys(Sections(env, Classify(issues), order, EpicPart(env, Classify(issues)).visited).out) ==>
              k !in EpicPart(env, Classify(issues)).visited
  {
    var buckets := Classify(issues);
    ClassifyWithin(issues, env.universe);
    assert forall i :: 0 <= i < |order| ==> order[i] in buckets by {
      assert forall i :: 0 <= i < |order| ==> order[i] in Elements(order);
    }
    var epics := EpicPart(env, buckets);
    var others := Sections(env, buckets, order, epics.visited);
    EpicsShown(issues, epics.visited, ShownKeys(epics.out));
    forall k | k in ShownKeys(others.out) ensures k !in epics.visited {
      assert k in Elements(ShownKeys(others.out));
    }
  }

  // ---------------------------------------------------------------------
  // All members.

  /** The distinct type keys of `issues` in order of first occurrence: one
      admissible order to visit the buckets in. */
  function FirstSeen(issues: seq<Issue>): (r: seq<string>)
    ensures IsBucketOrder(Classify(issues), r)
    decreases |issues|
  {
    if |issues| == 0 then []
    else
      var init := issues[..|issues| - 1];
      var x := issues[|issues| - 1];
      assert issues == init + [x];
      assert TypeKeys(issues) == TypeKeys(init) + {TypeKey(x)};
      var p := FirstSeen(init);
      if TypeKey(x) in p then p
      else
        assert Elements(p + [TypeKey(x)]) == Elements(p) + {TypeKey(x)};
        p + [TypeKey(x)]
  }

  /** The teams' members, team after team. */
  function AllMembers(teams: seq<seq<Member>>): (r: seq<Member>)
    ensures forall t, j :: 0 <= t < |teams| && 0 <= j < |teams[t]| ==> teams[t][j] in r
    ensures forall k :: 0 <= k < |r| ==> exists t :: 0 <= t < |teams| && r[k] in teams[t]
    decreases |teams|
  {
    if |teams| == 0 then []
    else
      var rest := AllMembers(teams[1..]);
      var r := teams[0] + rest;
      forall t, j | 0 <= t < |teams| && 0 <= j < |teams[t]| ensures teams[t][j] in r {
        if t > 0 {
          assert teams[t] == teams[1..][t - 1];
        }
      }
      forall k | 0 <= k < |r| ensures exists t :: 0 <= t < |teams| && r[k] in teams[t] {
        if k >= |teams[0]| {
          assert r[k] == rest[k - |teams[0]|];
          var t :| 0 <= t < |teams[1..]| && rest[k - |teams[0]|] in teams[1..][t];
          assert r[k] in teams[t + 1];
        } else {
          assert r[k] in teams[0];
        }
      }
      r
  }

  /** Every member's issues, as the tracker returns them for the member's
      email, lie in the universe. */
  ghost predicate AssignedWithin(env: Env, issuesOf: string -> seq<Issue>)
  {
    forall email :: KeysWithin(issuesOf(email), env.universe)
  }

  /** One member's page body, rendered with a fresh visited set. */
  function MemberReport(env: Env, issuesOf: string -> seq<Issue>, m: Member): (r: seq<Html>)
    requires Valid(env) && AssignedWithin(env, issuesOf)
    ensures Distinct(ShownKeys(r))
    ensures forall i :: 0 <= i < |issuesOf(m.email)| ==> issuesOf(m.email)[i].key in ShownKeys(r)
  {
    var issues := issuesOf(m.email);
    PersonalReport(env, issues, FirstSeen(issues)).out
  }

  /** The member loop: each member's page is written in turn. Every
      member's page exists afterwards and no page is lost (what happens to
      the other pages is WriteAllKeeps). */
  function WriteAll(store: Store, env: Env, issuesOf: string -> seq<Issue>, date: string, members: seq<Member>): (r: Store)
    requires Valid(env) && AssignedWithin(env, issuesOf)
    ensures store.Keys <= r.Keys
    ensures forall i :: 0 <= i < |members| ==> PersonalTitle(date, members[i].name) in r
    decreases |members|
  {
    if |members| == 0 then store
    else
      var m := members[0];
      var next := UpsertPersonal(store, date, m.name, MemberReport(env, issuesOf, m));
      var title := PersonalTitle(date, m.name);
      assert title in next && store.Keys <= next.Keys;
      var r := WriteAll(next, env, issuesOf, date, members[1..]);
      assert forall i :: 1 <= i < |members| ==> members[i] == members[1..][i - 1];
      r
  }

  /** A page no later member writes to keeps what it had; this includes
      an existing date page, which the upsert only ever creates. */
  lemma {:induction false} WriteAllKeeps(store: Store, env: Env, issuesOf: string -> seq<Issue>, date: string, members: seq<Member>, title: string)
    requires Valid(env) && AssignedWithin(env, issuesOf)
    requires title in store
    requires forall i :: 0 <= i < |members| ==> title != PersonalTitle(date, members[i].name)
    ensures title in WriteAll(store, env, issuesOf, date, members)
    ensures WriteAll(store, env, issuesOf, date, members)[title] == store[title]
    decreases |members|
  {
    if |members| > 0 {
      var next := UpsertPersonal(store, date, members[0].name, MemberReport(env, issuesOf, members[0]));
      assert forall i :: 0 <= i < |members[1..]| ==> members[1..][i] == members[i + 1];
      WriteAllKeeps(next, env, issuesOf, date, members[1..], title);
    }
  }

  /** runWeeklyReportCommandFunc: every member of every team, in order. */
  function RunWeekly(store: Store, env: Env, issuesOf: string -> seq<Issue>, date: string, teams: seq<seq<Member>>): (r: Store)
    requires Valid(env) && AssignedWithin(env, issuesOf)
    ensures forall t, j :: 0 <= t < |teams| && 0 <= j < |teams[t]| ==> PersonalTitle(date, teams[t][j].name) in r
  {
    WriteAll(store, env, issuesOf, date, AllMembers(teams))
  }

  /** Every member gets a fresh visited set: when member names are
      distinct, each member's page holds exactly that member's report, which
      shows every one of the member's issues, even those already shown on
      an earlier member's page. */
  lemma {:induction false} EachMemberFresh(store: Store, env: Env, issuesOf: string -> seq<Issue>, date: string, members: seq<Member>)
    requires Valid(env) && AssignedWithin(env, issuesOf)
    requires forall i, j :: 0 <= i < j < |members| ==> members[i].name != members[j].name
    ensures forall i :: 0 <= i < |members| ==>
      WriteAll(store, env, issuesOf, date, members)[PersonalTitle(date, members[i].name)].body ==
        MemberReport(env, issuesOf, members[i])
    decreases |members|
  {
    if |members| > 0 {
      var m := members[0];
      var title := PersonalTitle(date, m.name);
      var next := UpsertPersonal(store, date, m.name, MemberReport(env, issuesOf, m));
      var r := WriteAll(store, env, issuesOf, date, members);
      assert r == WriteAll(next, env, issuesOf, date, members[1..]);
      forall i | 0 <= i < |members[1..]| ensures title != PersonalTitle(date, members[1..][i].name) {
        PersonalTitleInjective(date, m.name, members[1..][i].name);
        assert members[1..][i] == members[i + 1];
      }
      PersonalTitleInjective(date, m.name, m.name);
      WriteAllKeeps(next, env, issuesOf, date, members[1..], title);
      EachMemberFresh(next, env, issuesOf, date, members[1..]);
      forall i | 1 <= i < |members|
        ensures r[PersonalTitle(date, members[i].name)].body == MemberReport(env, issuesOf, members[i])
      {
        assert members[i] == members[1..][i - 1];
      }
    }
  }
}
