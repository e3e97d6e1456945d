/** Merging "this pull request mentions me" signals of many members into one
    record per pull request (daily.go, collectMentionsPR and the member loop
    of runDailyCommandFunc). The collector is a map from PR URL to record;
    the first snapshot of a PR is kept and mentioning members are appended. */
module Mentions {

  import opened Types

  /** One collected pull request and the members it mentions, in order. */
  datatype MentionRecord = MentionRecord(item: PullRequest, mentions: seq<string>)

  /** The collector, keyed by PR URL. */
  type Collector = map<string, MentionRecord>

  /** One sighting: `member` was mentioned by `pr`. */
  datatype Sighting = Sighting(member: string, pr: PullRequest)

  // ---------------------------------------------------------------------
  // Reference definitions over a flat sequence of sightings.

  /** The sightings of one member's search result, in result order. */
  function SightingsOf(member: string, prs: seq<PullRequest>): (r: seq<Sighting>)
    ensures |r| == |prs|
    ensures forall i :: 0 <= i < |prs| ==> r[i] == Sighting(member, prs[i])
  {
    seq(|prs|, i requires 0 <= i < |prs| => Sighting(member, prs[i]))
  }

  /** The sightings of all members, member by member. */
  function AllSightings(members: seq<string>, lookup: string -> seq<PullRequest>): seq<Sighting>
    decreases |members|
  {
    if |members| == 0 then []
    else AllSightings(members[..|members| - 1], lookup)
         + SightingsOf(members[|members| - 1], lookup(members[|members| - 1]))
  }

  /** The URLs sighted. */
  function Urls(ss: seq<Sighting>): set<string>
  {
    set s | s in ss :: s.pr.url
  }

  /** The members mentioned by the PR with URL `url`, in sighting order. */
  function MentionsOf(ss: seq<Sighting>, url: string): seq<string>
    decreases |ss|
  {
    if |ss| == 0 then []
    else (if ss[0].pr.url == url then [ss[0].member] else []) + MentionsOf(ss[1..], url)
  }

  /** The first snapshot of the PR with URL `url`. */
  function FirstSnapshot(ss: seq<Sighting>, url: string): Option<PullRequest>
    decreases |ss|
  {
    if |ss| == 0 then None
    else if ss[0].pr.url == url then Some(ss[0].pr)
    else FirstSnapshot(ss[1..], url)
  }

  lemma {:induction false} MentionsOfAppend(a: seq<Sighting>, b: seq<Sighting>, url: string)
    ensures MentionsOf(a + b, url) == MentionsOf(a, url) + MentionsOf(b, url)
    decreases |a|
  {
    if |a| == 0 {
      assert a + b == b;
    } else {
      assert (a + b)[1..] == a[1..] + b;
      MentionsOfAppend(a[1..], b, url);
    }
  }

  lemma {:induction false} FirstSnapshotAppend(a: seq<Sighting>, b: seq<Sighting>, url: string)
    ensures FirstSnapshot(a + b, url) ==
      (if FirstSnapshot(a, url).Some? then FirstSnapshot(a, url) else FirstSnapshot(b, url))
    decreases |a|
  {
    if |a| == 0 {
      assert a + b == b;
    } else {
      assert (a + b)[1..] == a[1..] + b;
      FirstSnapshotAppend(a[1..], b, url);
    }
  }

  lemma {:induction false} SightedIffFound(ss: seq<Sighting>, url: string)
    ensures url in Urls(ss) <==> FirstSnapshot(ss, url).Some?
    ensures url in Urls(ss) <==> MentionsOf(ss, url) != []
    ensures FirstSnapshot(ss, url).Some? ==> FirstSnapshot(ss, url).value.url == url
    decreases |ss|
  {
    if |ss| > 0 {
      SightedIffFound(ss[1..], url);
      assert ss == [ss[0]] + ss[1..];
      assert Urls(ss) == {ss[0].pr.url} + Urls(ss[1..]);
    }
  }

  // ---------------------------------------------------------------------
  // The collector.

  /** Records are keyed by their own PR's URL and never have an empty
      mention list. */
  predicate WellFormed(c: Collector)
  {
    forall u :: u in c ==> c[u].item.url == u && |c[u].mentions| > 0
  }

  /** One iteration of collectMentionsPR's loop. */
  function Merge(c: Collector, member: string, pr: PullRequest): Collector
  {
    if pr.url in c then c[pr.url := c[pr.url].(mentions := c[pr.url].mentions + [member])]
    else c[pr.url := MentionRecord(pr, [member])]
  }

  /** collectMentionsPR: after the call every URL of `prs` is a key; a record
      that existed keeps its snapshot and gains `member` once per sighting;
      a new record holds the first snapshot; keys not sighted are untouched. */
  function Collect(c: Collector, member: string, prs: seq<PullRequest>): (r: Collector)
    ensures r.Keys == c.Keys + Urls(SightingsOf(member, prs))
    ensures forall u :: u in r ==>
      r[u].mentions == (if u in c then c[u].mentions else []) + MentionsOf(SightingsOf(member, prs), u)
    ensures forall u :: u in r ==>
      Some(r[u].item) == (if u in c then Some(c[u].item) else FirstSnapshot(SightingsOf(member, prs), u))
    ensures forall u :: u in c && u !in Urls(SightingsOf(member, prs)) ==> r[u] == c[u]
    ensures WellFormed(c) ==> WellFormed(r)
    decreases |prs|
  {
    if |prs| == 0 then c
    else
      var c1 := Merge(c, member, prs[0]);
      var r := Collect(c1, member, prs[1..]);
      CollectStepKeys(c, member, prs, r);
      CollectStepMentions(c, member, prs, r);
      CollectStepItems(c, member, prs, r);
      CollectUntouched(c, member, prs, r);
      if WellFormed(c) then MergeKeepsWellFormed(c, member, prs[0]); r else r
  }

  /** Sightings of a non-empty PR list: the first PR's, then the rest. */
  lemma SightingsOfCons(member: string, prs: seq<PullRequest>)
    requires |prs| > 0
    ensures SightingsOf(member, prs) == [Sighting(member, prs[0])] + SightingsOf(member, prs[1..])
    ensures Urls(SightingsOf(member, prs)) == {prs[0].url} + Urls(SightingsOf(member, prs[1..]))
    ensures forall u ::
      MentionsOf(SightingsOf(member, prs), u) ==
      (if prs[0].url == u then [member] else []) + MentionsOf(SightingsOf(member, prs[1..]), u)
    ensures forall u ::
      FirstSnapshot(SightingsOf(member, prs), u) ==
      (if prs[0].url == u then Some(prs[0]) else FirstSnapshot(SightingsOf(member, prs[1..]), u))
  {
    var ss := SightingsOf(member, prs);
    assert ss == [Sighting(member, prs[0])] + SightingsOf(member, prs[1..]);
  }

  /** The inductive step of Collect's key set. */
  lemma CollectStepKeys(c: Collector, member: string, prs: seq<PullRequest>, r: Collector)
    requires |prs| > 0
    requires r.Keys == Merge(c, member, prs[0]).Keys + Urls(SightingsOf(member, prs[1..]))
    ensures r.Keys == c.Keys + Urls(SightingsOf(member, prs))
  {
    SightingsOfCons(member, prs);
  }

  /** The inductive step of Collect's mention lists: `r` is what the rest
      of the PRs make of the collector after merging the first. */
  lemma CollectStepMentions(c: Collector, member: string, prs: seq<PullRequest>, r: Collector)
    requires |prs| > 0
    requires var c1 := Merge(c, member, prs[0]);
      forall u :: u in r ==>
        r[u].mentions == (if u in c1 then c1[u].mentions else []) + MentionsOf(SightingsOf(member, prs[1..]), u)
    ensures forall u :: u in r ==>
      r[u].mentions == (if u in c then c[u].mentions else []) + MentionsOf(SightingsOf(member, prs), u)
  {
    var c1 := Merge(c, member, prs[0]);
    SightingsOfCons(member, prs);
    forall u | u in r
      ensures r[u].mentions == (if u in c then c[u].mentions else []) + MentionsOf(SightingsOf(member, prs), u)
    {
      if u == prs[0].url {
        assert c1[u].mentions == (if u in c then c[u].mentions else []) + [member];
      } else if u in c {
        assert c1[u] == c[u];
      } else {
        assert u !in c1;
      }
    }
  }

  /** The inductive step of Collect's snapshots. */
  lemma CollectStepItems(c: Collector, member: string, prs: seq<PullRequest>, r: Collector)
    requires |prs| > 0
    requires var c1 := Merge(c, member, prs[0]);
      forall u :: u in r ==>
        Some(r[u].item) == (if u in c1 then Some(c1[u].item) else FirstSnapshot(SightingsOf(member, prs[1..]), u))
    ensures forall u :: u in r ==>
      Some(r[u].item) == (if u in c then Some(c[u].item) else FirstSnapshot(SightingsOf(member, prs), u))
  {
    var c1 := Merge(c, member, prs[0]);
    SightingsOfCons(member, prs);
    forall u | u in r
      ensures Some(r[u].item) == (if u in c then Some(c[u].item) else FirstSnapshot(SightingsOf(member, prs), u))
    {
      if u == prs[0].url {
        assert c1[u].item == (if u in c then c[u].item else prs[0]);
      } else if u in c {
        assert c1[u] == c[u];
      } else {
        assert u !in c1;
      }
    }
  }

  /** Records whose URL is not among the PRs are left as they were. */
  lemma CollectUntouched(c: Collector, member: string, prs: seq<PullRequest>, r: Collector)
    requires r.Keys == c.Keys + Urls(SightingsOf(member, prs))
    requires forall u :: u in r ==>
      r[u].mentions == (if u in c then c[u].mentions else []) + MentionsOf(SightingsOf(member, prs), u)
    requires forall u :: u in r ==>
      Some(r[u].item) == (if u in c then Some(c[u].item) else FirstSnapshot(SightingsOf(member, prs), u))
    ensures forall u :: u in c && u !in Urls(SightingsOf(member, prs)) ==> r[u] == c[u]
  {
    forall u | u in c && u !in Urls(SightingsOf(member, prs)) ensures r[u] == c[u] {
      SightedIffFound(SightingsOf(member, prs), u);
    }
  }

  /** A merge keeps records keyed by their URL and non-empty. */
  lemma MergeKeepsWellFormed(c: Collector, member: string, pr: PullRequest)
    requires WellFormed(c)
    ensures WellFormed(Merge(c, member, pr))
  {
    var c1 := Merge(c, member, pr);
    forall u | u in c1 ensures c1[u].item.url == u && |c1[u].mentions| > 0 {
      if u != pr.url {
        assert c1[u] == c[u];
      }
    }
  }

  /** The member loop of the daily report: collect each member's mentions
      in member order, starting from an empty collector. */
  function CollectAll(members: seq<string>, lookup: string -> seq<PullRequest>): (r: Collector)
    ensures WellFormed(r)
    decreases |members|
  {
    if |members| == 0 then map[]
    else
      var last := members[|members| - 1];
      Collect(CollectAll(members[..|members| - 1], lookup), last, lookup(last))
  }

  /** Across the member loop there is one record per sighted URL; its
      mention list follows member order (a member twice if sighted twice)
      and its snapshot is the first one sighted. */
  lemma {:induction false} CollectAllMatchesSightings(members: seq<string>, lookup: string -> seq<PullRequest>)
    ensures CollectAll(members, lookup).Keys == Urls(AllSightings(members, lookup))
    ensures forall u :: u in CollectAll(members, lookup) ==>
      CollectAll(members, lookup)[u].mentions == MentionsOf(AllSightings(members, lookup), u)
    ensures forall u :: u in CollectAll(members, lookup) ==>
      Some(CollectAll(members, lookup)[u].item) == FirstSnapshot(AllSightings(members, lookup), u)
    decreases |members|
  {
    if |members| > 0 {
      var init := members[..|members| - 1];
      var last := members[|members| - 1];
      var c := CollectAll(init, lookup);
      var r := CollectAll(members, lookup);
      var a := AllSightings(init, lookup);
      var b := SightingsOf(last, lookup(last));
      CollectAllMatchesSightings(init, lookup);
      assert AllSightings(members, lookup) == a + b;
      assert Urls(a + b) == Urls(a) + Urls(b);
      forall u | u in r
        ensures r[u].mentions == MentionsOf(a + b, u)
        ensures Some(r[u].item) == FirstSnapshot(a + b, u)
      {
        MentionsOfAppend(a, b, u);
        FirstSnapshotAppend(a, b, u);
        SightedIffFound(a, u);
        SightedIffFound(b, u);
      }
    }
  }

  // ---------------------------------------------------------------------
  // Counting mentions.

  /** The total length of all mention lists. */
  ghost function TotalMentions(c: Collector): nat
    decreases |c|
  {
    if c == map[] then 0
    else
      var u :| u in c;
      |c[u].mentions| + TotalMentions(c - {u})
  }

  lemma {:induction false} TotalMentionsPick(c: Collector, u: string)
    requires u in c
    ensures TotalMentions(c) == |c[u].mentions| + TotalMentions(c - {u})
    decreases |c|
  {
    var w :| w in c && TotalMentions(c) == |c[w].mentions| + TotalMentions(c - {w});
    if w != u {
      var cw := c - {w};
      var cu := c - {u};
      assert |cw| < |c| by { assert cw.Keys == c.Keys - {w}; }
      TotalMentionsPick(cw, u);
      TotalMentionsPick(cu, w);
      assert cw - {u} == cu - {w};
    }
  }

  /** Each sighting adds exactly one mention. */
  lemma MergeAddsOne(c: Collector, member: string, pr: PullRequest)
    ensures TotalMentions(Merge(c, member, pr)) == TotalMentions(c) + 1
  {
    var r := Merge(c, member, pr);
    TotalMentionsPick(r, pr.url);
    if pr.url in c {
      TotalMentionsPick(c, pr.url);
      assert r - {pr.url} == c - {pr.url};
    } else {
      assert r - {pr.url} == c;
    }
  }

  /** collectMentionsPR grows the total length of the mention lists by
      exactly the number of PRs passed in, duplicates included. */
  lemma {:induction false} CollectAddsOnePerPR(c: Collector, member: string, prs: seq<PullRequest>)
    ensures TotalMentions(Collect(c, member, prs)) == TotalMentions(c) + |prs|
    decreases |prs|
  {
    if |prs| > 0 {
      MergeAddsOne(c, member, prs[0]);
      CollectAddsOnePerPR(Merge(c, member, prs[0]), member, prs[1..]);
    }
  }

  /** Two members mentioned by the same PR give one record, mentioning both
      in member order. */
  lemma TwoMembersOneRecord(pr: PullRequest, lookup: string -> seq<PullRequest>)
    requires lookup("a") == [pr] && lookup("b") == [pr]
    ensures CollectAll(["a", "b"], lookup).Keys == {pr.url}
    ensures CollectAll(["a", "b"], lookup)[pr.url] == MentionRecord(pr, ["a", "b"])
  {
    assert ["a", "b"][..1] == ["a"];
    assert ["a"][..0] == [];
    CollectSingle(map[], "a", pr);
    assert CollectAll(["a"], lookup) == map[pr.url := MentionRecord(pr, ["a"])];
    CollectSingle(CollectAll(["a"], lookup), "b", pr);
  }

  /** Collecting a one-element list is one merge. */
  lemma CollectSingle(c: Collector, member: string, pr: PullRequest)
    ensures Collect(c, member, [pr]) == Merge(c, member, pr)
  {
    assert [pr][1..] == [];
  }
}
