/** The linked-epic expansion of html.go (formatJiraIssueToExpandForHtmlOutput).
    An issue opens an expand macro, lists its linked non-epic issues in a
    table, then, for each epic linked to it, shows that epic and expands it in
    turn, passing itself as the next parent. The only guard against revisiting
    is the exclusion of the immediate parent's key from the linked-epic query.
    Nothing bounds the recursion, so the model carries fuel and yields None
    when the fuel runs out. */
module LinkedEpics {

  import opened Types
  import opened Markup

  /** The epics linked to a key, in the order the tracker returns them (the
      linked-epic query without its parent clause). */
  type Links = string -> seq<Issue>

  /** The issues of `epics` whose keys are not excluded, in order. */
  function Without(epics: seq<Issue>, excluded: set<string>): (r: seq<Issue>)
    ensures |r| <= |epics|
    ensures forall e :: e in r <==> e in epics && e.key !in excluded
    decreases |epics|
  {
    if |epics| == 0 then []
    else if epics[0].key in excluded then Without(epics[1..], excluded)
    else
      assert forall e :: e in epics <==> e == epics[0] || e in epics[1..];
      [epics[0]] + Without(epics[1..], excluded)
  }

  /** Nothing excluded leaves the list alone. */
  lemma {:induction false} WithoutNothing(epics: seq<Issue>)
    ensures Without(epics, {}) == epics
    decreases |epics|
  {
    if |epics| > 0 {
      WithoutNothing(epics[1..]);
      assert epics == [epics[0]] + epics[1..];
    }
  }

  /** The linked-epic query: the `key != parent` clause is present only when
      a parent is given. */
  function LinkedEpicsOf(links: Links, key: string, parent: Option<Issue>): (r: seq<Issue>)
    ensures parent.None? ==> r == links(key)
    ensures parent.Some? ==> forall e :: e in r <==> e in links(key) && e.key != parent.value.key
  {
    if parent.None? then
      WithoutNothing(links(key));
      Without(links(key), {})
    else Without(links(key), {parent.value.key})
  }

  // ---------------------------------------------------------------------
  // Nesting of expand macros.

  /** The depth after walking `out` from depth `d`, counting expand macros
      opened and closed; None when a close has no open to match. */
  function Reach(out: seq<Html>, d: nat): Option<nat>
    decreases |out|
  {
    if |out| == 0 then Some(d)
    else if out[0].ExpandOpen? then Reach(out[1..], d + 1)
    else if out[0].ExpandClose? then (if d == 0 then None else Reach(out[1..], d - 1))
    else Reach(out[1..], d)
  }

  /** Every expand macro opened in `out` is closed in `out`, after it. */
  predicate Balanced(out: seq<Html>)
  {
    Reach(out, 0) == Some(0)
  }

  lemma {:induction false} ReachAppend(a: seq<Html>, b: seq<Html>, d: nat)
    ensures Reach(a + b, d) == if Reach(a, d).None? then None else Reach(b, Reach(a, d).value)
    decreases |a|
  {
    if |a| == 0 {
      assert a + b == b;
    } else {
      assert (a + b)[1..] == a[1..] + b;
      assert (a + b)[0] == a[0];
      if a[0].ExpandOpen? {
        ReachAppend(a[1..], b, d + 1);
      } else if a[0].ExpandClose? {
        if d > 0 {
          ReachAppend(a[1..], b, d - 1);
        }
      } else {
        ReachAppend(a[1..], b, d);
      }
    }
  }

  lemma {:induction false} ReachShift(out: seq<Html>, d: nat, k: nat)
    requires Reach(out, d).Some?
    ensures Reach(out, d + k) == Some(Reach(out, d).value + k)
    decreases |out|
  {
    if |out| > 0 {
      if out[0].ExpandOpen? {
        ReachShift(out[1..], d + 1, k);
      } else if out[0].ExpandClose? {
        ReachShift(out[1..], d - 1, k);
      } else {
        ReachShift(out[1..], d, k);
      }
    }
  }

  lemma BalancedConcat(a: seq<Html>, b: seq<Html>)
    requires Balanced(a) && Balanced(b)
    ensures Balanced(a + b)
  {
    ReachAppend(a, b, 0);
  }

  /** The frame of one expansion: open, the linked-issues table, the body,
      close. */
  function Frame(key: string, body: seq<Html>): seq<Html>
  {
    [ExpandOpen(key), LinkedIssuesMacro(key)] + body + [ExpandClose]
  }

  lemma FrameBalanced(key: string, body: seq<Html>)
    requires Balanced(body)
    ensures Balanced(Frame(key, body))
  {
    var head := [ExpandOpen(key), LinkedIssuesMacro(key)];
    assert Reach(head, 0) == Some(1) by {
      assert head[1..] == [LinkedIssuesMacro(key)];
      assert head[1..][1..] == [];
      assert Reach(head[1..][1..], 1) == Some(1);
      assert Reach(head[1..], 1) == Some(1);
    }
    ReachShift(body, 0, 1);
    ReachAppend(head, body, 0);
    assert Reach([ExpandClose], 1) == Some(0) by {
      assert [ExpandClose][1..] == [];
    }
    ReachAppend(head + body, [ExpandClose], 0);
  }

  /** One epic of the loop: its paragraph, then its own expansion. */
  lemma EntryBalanced(key: string, sub: seq<Html>, rest: seq<Html>)
    requires Balanced(sub) && Balanced(rest)
    ensures Balanced([IssueParagraph(key)] + sub + rest)
  {
    assert Balanced([IssueParagraph(key)]) by {
      assert [IssueParagraph(key)][1..] == [];
    }
    BalancedConcat([IssueParagraph(key)], sub);
    BalancedConcat([IssueParagraph(key)] + sub, rest);
  }

  // ---------------------------------------------------------------------
  // The expansion as written.

  /** formatJiraIssueToExpandForHtmlOutput with `fuel` nested calls
      available; None when the recursion needs more. A result, when there is
      one, opens with the issue's expand macro and linked-issues table, closes
      that macro last, and is balanced. */
  function Expand(links: Links, issue: Issue, parent: Option<Issue>, fuel: nat): (r: Option<seq<Html>>)
    ensures fuel == 0 ==> r.None?
    ensures r.Some? ==>
      && |r.value| >= 3
      && r.value[0] == ExpandOpen(issue.key)
      && r.value[1] == LinkedIssuesMacro(issue.key)
      && r.value[|r.value| - 1] == ExpandClose
      && Balanced(r.value)
    decreases fuel, 0, 0
  {
    if fuel == 0 then None
    else
      var body := ExpandAll(links, LinkedEpicsOf(links, issue.key, parent), issue, fuel - 1);
      if body.None? then None
      else
        FrameBalanced(issue.key, body.value);
        Some(Frame(issue.key, body.value))
  }

  /** The loop over the linked epics: each is shown as a paragraph and then
      expanded with the current issue as its parent. */
  function ExpandAll(links: Links, epics: seq<Issue>, parent: Issue, fuel: nat): (r: Option<seq<Html>>)
    ensures |epics| == 0 ==> r == Some([])
    ensures r.Some? ==> Balanced(r.value)
    decreases fuel, 1, |epics|
  {
    if |epics| == 0 then
      assert Reach([], 0) == Some(0);
      Some([])
    else
      var sub := Expand(links, epics[0], Some(parent), fuel);
      var rest := ExpandAll(links, epics[1..], parent, fuel);
      if sub.None? || rest.None? then None
      else
        EntryBalanced(epics[0].key, sub.value, rest.value);
        Some([IssueParagraph(epics[0].key)] + sub.value + rest.value)
  }

  /** One unfolding of the expansion as written: the body is the loop over
      the issue's linked epics, with the issue itself passed down as the
      parent, and the frame is added only when the loop has a result. */
  lemma ExpandUnfold(links: Links, issue: Issue, parent: Option<Issue>, fuel: nat)
    requires fuel > 0
    ensures (Expand(links, issue, parent, fuel).Some?
             <==> ExpandAll(links, LinkedEpicsOf(links, issue.key, parent), issue, fuel - 1).Some?)
    ensures Expand(links, issue, parent, fuel).Some? ==>
      Expand(links, issue, parent, fuel).value
        == Frame(issue.key, ExpandAll(links, LinkedEpicsOf(links, issue.key, parent), issue, fuel - 1).value)
  {
  }

  /** One unfolding of the loop as written: the first epic's paragraph, then
      its expansion under the loop's issue as parent, then the rest; nothing
      when either part has no result. */
  lemma ExpandAllUnfold(links: Links, epics: seq<Issue>, parent: Issue, fuel: nat)
    requires |epics| > 0
    ensures (ExpandAll(links, epics, parent, fuel).Some?
             <==> Expand(links, epics[0], Some(parent), fuel).Some? && ExpandAll(links, epics[1..], parent, fuel).Some?)
    ensures ExpandAll(links, epics, parent, fuel).Some? ==>
      ExpandAll(links, epics, parent, fuel).value
        == [IssueParagraph(epics[0].key)] + Expand(links, epics[0], Some(parent), fuel).value
           + ExpandAll(links, epics[1..], parent, fuel).value
  {
  }

  /** More fuel never changes a result that was reached. */
  lemma {:induction false} ExpandFuelMonotone(links: Links, issue: Issue, parent: Option<Issue>, fuel: nat)
    requires Expand(links, issue, parent, fuel).Some?
    ensures Expand(links, issue, parent, fuel + 1) == Expand(links, issue, parent, fuel)
    decreases fuel, 0, 0
  {
    ExpandAllFuelMonotone(links, LinkedEpicsOf(links, issue.key, parent), issue, fuel - 1);
  }

  lemma {:induction false} ExpandAllFuelMonotone(links: Links, epics: seq<Issue>, parent: Issue, fuel: nat)
    requires ExpandAll(links, epics, parent, fuel).Some?
    ensures ExpandAll(links, epics, parent, fuel + 1) == ExpandAll(links, epics, parent, fuel)
    decreases fuel, 1, |epics|
  {
    if |epics| > 0 {
      ExpandFuelMonotone(links, epics[0], Some(parent), fuel);
      ExpandAllFuelMonotone(links, epics[1..], parent, fuel);
    }
  }

  // ---------------------------------------------------------------------
  // Two linked epics, and three.

  function Epic(key: string): Issue
  {
    Issue(key, "Epic", "", None, None, None, None, [], None, None)
  }

  /** X and Y are linked to each other. */
  function PairLinks(key: string): seq<Issue>
  {
    if key == "X" then [Epic("Y")] else if key == "Y" then [Epic("X")] else []
  }

  /** With a two-epic link the parent exclusion is enough: X expands Y, and
      Y (whose only linked epic is its parent X) expands nothing. */
  lemma PairTerminates()
    ensures Expand(PairLinks, Epic("X"), None, 2) ==
      Some([ExpandOpen("X"), LinkedIssuesMacro("X"), IssueParagraph("Y"),
            ExpandOpen("Y"), LinkedIssuesMacro("Y"), ExpandClose, ExpandClose])
  {
    var x := Epic("X");
    var y := Epic("Y");
    assert LinkedEpicsOf(PairLinks, "X", None) == [y];
    assert LinkedEpicsOf(PairLinks, "Y", Some(x)) == [] by {
      assert forall e :: e !in LinkedEpicsOf(PairLinks, "Y", Some(x));
    }
    assert ExpandAll(PairLinks, [], y, 0) == Some([]);
    var inner := Expand(PairLinks, y, Some(x), 1);
    assert inner == Some(Frame("Y", []));
    assert ExpandAll(PairLinks, [y][1..], x, 1) == Some([]);
    var body := [IssueParagraph("Y")] + Frame("Y", []) + [];
    assert ExpandAll(PairLinks, [y], x, 1) == Some(body);
    assert Expand(PairLinks, x, None, 2) == Some(Frame("X", body));
    assert Frame("X", body) == [ExpandOpen("X"), LinkedIssuesMacro("X"), IssueParagraph("Y"),
            ExpandOpen("Y"), LinkedIssuesMacro("Y"), ExpandClose, ExpandClose];
  }

  /** X, Y and Z are pairwise linked. Jira's issue links are symmetric, so
      each epic's linked epics are the other two. */
  function TriangleLinks(key: string): seq<Issue>
  {
    if key == "X" then [Epic("Y"), Epic("Z")]
    else if key == "Y" then [Epic("X"), Epic("Z")]
    else if key == "Z" then [Epic("X"), Epic("Y")]
    else []
  }

  lemma TriangleStep(from: string, parent: string, next: string)
    requires (from, parent, next) in {("Y", "X", "Z"), ("Z", "Y", "X"), ("X", "Z", "Y")}
    ensures LinkedEpicsOf(TriangleLinks, from, Some(Epic(parent))) == [Epic(next)]
  {
    var r := LinkedEpicsOf(TriangleLinks, from, Some(Epic(parent)));
    var l := TriangleLinks(from);
    assert |l| == 2;
    if l[0].key == parent {
      assert r == Without(l[1..], {parent});
      assert l[1..][1..] == [];
    } else {
      assert l[1].key == parent;
      assert l[1..][1..] == [];
    }
  }

  /** Around the triangle, every nested call excludes only the epic it came
      from, so it walks on to the third one: Y under X lists Z, Z under Y
      lists X, X under Z lists Y, and so on forever. No amount of fuel is
      enough. */
  lemma {:induction false} TriangleCycle(fuel: nat)
    ensures Expand(TriangleLinks, Epic("Y"), Some(Epic("X")), fuel).None?
    ensures Expand(TriangleLinks, Epic("Z"), Some(Epic("Y")), fuel).None?
    ensures Expand(TriangleLinks, Epic("X"), Some(Epic("Z")), fuel).None?
  {
    if fuel > 0 {
      TriangleCycle(fuel - 1);
      TriangleStep("Y", "X", "Z");
      CycleStep(TriangleLinks, "Y", "X", "Z", fuel);
      TriangleStep("Z", "Y", "X");
      CycleStep(TriangleLinks, "Z", "Y", "X", fuel);
      TriangleStep("X", "Z", "Y");
      CycleStep(TriangleLinks, "X", "Z", "Y", fuel);
    }
  }

  /** An epic whose nested query lists only `next`, where `next` under it
      does not finish, does not finish either. */
  lemma CycleStep(links: Links, from: string, parent: string, next: string, fuel: nat)
    requires fuel > 0
    requires LinkedEpicsOf(links, from, Some(Epic(parent))) == [Epic(next)]
    requires Expand(links, Epic(next), Some(Epic(from)), fuel - 1).None?
    ensures Expand(links, Epic(from), Some(Epic(parent)), fuel).None?
  {
    ExpandUnfold(links, Epic(from), Some(Epic(parent)), fuel);
    ExpandAllUnfold(links, [Epic(next)], Epic(from), fuel - 1);
  }

  /** The expansion of X from the top never finishes on the triangle. */
  lemma TriangleNeverFinishes(fuel: nat)
    ensures Expand(TriangleLinks, Epic("X"), None, fuel).None?
  {
    if fuel > 0 {
      TriangleCycle(fuel - 1);
      assert LinkedEpicsOf(TriangleLinks, "X", None)[0] == Epic("Y");
    }
  }

  // ---------------------------------------------------------------------
  // The expansion with every ancestor excluded.

  /** Every epic the links can return has its key in the universe. */
  ghost predicate LinksWithin(links: Links, universe: set<string>)
  {
    forall k: string, e :: e in links(k) ==> e.key in universe
  }

  /** The keys of the expand macros opened in `out`, in order. */
  function ExpandedKeys(out: seq<Html>): seq<string>
    decreases |out|
  {
    if |out| == 0 then []
    else (if out[0].ExpandOpen? then [out[0].key] else []) + ExpandedKeys(out[1..])
  }

  lemma {:induction false} ExpandedKeysAppend(a: seq<Html>, b: seq<Html>)
    ensures ExpandedKeys(a + b) == ExpandedKeys(a) + ExpandedKeys(b)
    decreases |a|
  {
    if |a| == 0 {
      assert a + b == b;
    } else {
      assert (a + b)[1..] == a[1..] + b;
      ExpandedKeysAppend(a[1..], b);
    }
  }

  lemma FrameKeys(key: string, body: seq<Html>)
    ensures ExpandedKeys(Frame(key, body)) == [key] + ExpandedKeys(body)
  {
    var head := [ExpandOpen(key), LinkedIssuesMacro(key)];
    ExpandedKeysAppend(head + body, [ExpandClose]);
    ExpandedKeysAppend(head, body);
    assert head[1..] == [LinkedIssuesMacro(key)];
    assert ExpandedKeys(head) == [key];
  }

  lemma EntryKeys(key: string, sub: seq<Html>, rest: seq<Html>)
    ensures ExpandedKeys([IssueParagraph(key)] + sub + rest) == ExpandedKeys(sub) + ExpandedKeys(rest)
  {
    var p := [IssueParagraph(key)];
    assert p[1..] == [];
    assert ExpandedKeys(p) == [];
    ExpandedKeysAppend(p, sub);
    ExpandedKeysAppend(p + sub, rest);
  }

  /** The expansion with the whole ancestor path excluded, not only the
      parent. `path` holds the issue and its ancestors; the linked epics
      whose keys are on it are skipped. The number of universe keys off the
      path shrinks at every level, so no fuel is needed. The output is
      balanced, opens with the issue's own frame, and no nested expansion
      is of an issue on the path. */
  function ExpandOnPath(links: Links, universe: set<string>, issue: Issue, path: set<string>): (r: seq<Html>)
    requires LinksWithin(links, universe) && issue.key in path
    ensures |r| >= 3 && r[0] == ExpandOpen(issue.key) && r[1] == LinkedIssuesMacro(issue.key)
    ensures r[|r| - 1] == ExpandClose
    ensures Balanced(r)
    ensures |ExpandedKeys(r)| > 0 && ExpandedKeys(r)[0] == issue.key
    ensures forall i :: 1 <= i < |ExpandedKeys(r)| ==> ExpandedKeys(r)[i] !in path
    decreases |universe - path|, 1, 0
  {
    var body := ExpandOnPathAll(links, universe, Without(links(issue.key), path), path);
    FrameBalanced(issue.key, body);
    FrameKeys(issue.key, body);
    Frame(issue.key, body)
  }

  function ExpandOnPathAll(links: Links, universe: set<string>, epics: seq<Issue>, path: set<string>): (r: seq<Html>)
    requires LinksWithin(links, universe)
    requires forall e :: e in epics ==> e.key in universe && e.key !in path
    ensures Balanced(r)
    ensures forall k :: k in ExpandedKeys(r) ==> k !in path
    decreases |universe - path|, 0, |epics|
  {
    if |epics| == 0 then
      assert Reach([], 0) == Some(0);
      []
    else
      var e := epics[0];
      assert e in epics;
      PathShrinks(universe, path, e.key);
      var sub := ExpandOnPath(links, universe, e, path + {e.key});
      assert forall x :: x in epics[1..] ==> x in epics;
      var rest := ExpandOnPathAll(links, universe, epics[1..], path);
      EntryBalanced(e.key, sub, rest);
      EntryKeys(e.key, sub, rest);
      [IssueParagraph(e.key)] + sub + rest
  }

  lemma PathShrinks(universe: set<string>, path: set<string>, key: string)
    requires key in universe && key !in path
    ensures |universe - (path + {key})| < |universe - path|
  {
    assert universe - path == (universe - (path + {key})) + {key};
  }

  /** The corrected expansion lists, at each level, a sub-list of what the
      query as written lists: the ancestors it skips include the parent. */
  lemma OnPathListsFewer(links: Links, issue: Issue, parent: Issue, path: set<string>)
    requires parent.key in path
    ensures forall e :: e in Without(links(issue.key), path) ==> e in LinkedEpicsOf(links, issue.key, Some(parent))
  {
  }

  lemma TriangleWithin()
    ensures LinksWithin(TriangleLinks, {"X", "Y", "Z"})
  {
  }

  /** One unfolding of the corrected expansion. */
  lemma OnPathUnfold(links: Links, universe: set<string>, issue: Issue, path: set<string>)
    requires LinksWithin(links, universe) && issue.key in path
    ensures ExpandOnPath(links, universe, issue, path) ==
      Frame(issue.key, ExpandOnPathAll(links, universe, Without(links(issue.key), path), path))
  {
  }

  /** One unfolding of the corrected loop. */
  lemma OnPathAllUnfold(links: Links, universe: set<string>, epics: seq<Issue>, path: set<string>)
    requires LinksWithin(links, universe)
    requires forall e :: e in epics ==> e.key in universe && e.key !in path
    requires |epics| > 0
    ensures ExpandOnPathAll(links, universe, epics, path) ==
      [IssueParagraph(epics[0].key)]
      + ExpandOnPath(links, universe, epics[0], path + {epics[0].key})
      + ExpandOnPathAll(links, universe, epics[1..], path)
  {
  }

  /** Both linked epics of `key` are on the full path: a leaf. */
  lemma TriangleLeaf(links: Links, key: string)
    requires links == TriangleLinks && key in {"X", "Y", "Z"}
    ensures LinksWithin(links, {"X", "Y", "Z"})
    ensures ExpandedKeys(ExpandOnPath(links, {"X", "Y", "Z"}, Epic(key), {"X", "Y", "Z"})) == [key]
  {
    TriangleWithin();
    assert Without(links(key), {"X", "Y", "Z"}) == [];
    OnPathUnfold(links, {"X", "Y", "Z"}, Epic(key), {"X", "Y", "Z"});
    FrameKeys(key, []);
  }

  /** An epic whose only linked epic off the path is `next`, itself a leaf
      there, shows its own key and then `next`. */
  lemma OneLeafBelow(links: Links, u: set<string>, key: string, next: string, path: set<string>)
    requires LinksWithin(links, u) && key in path && next in u && next !in path
    requires Without(links(key), path) == [Epic(next)]
    requires ExpandedKeys(ExpandOnPath(links, u, Epic(next), path + {next})) == [next]
    ensures ExpandedKeys(ExpandOnPath(links, u, Epic(key), path)) == [key, next]
  {
    OnPathUnfold(links, u, Epic(key), path);
    OnPathAllUnfold(links, u, [Epic(next)], path);
    var leaf := ExpandOnPath(links, u, Epic(next), path + {next});
    EntryKeys(next, leaf, []);
    FrameKeys(key, [IssueParagraph(next)] + leaf + []);
  }

  /** Under X, `key` expands only the third epic `next`, a leaf. */
  lemma TriangleMiddle(links: Links, key: string, next: string)
    requires links == TriangleLinks && (key, next) in {("Y", "Z"), ("Z", "Y")}
    ensures LinksWithin(links, {"X", "Y", "Z"})
    ensures ExpandedKeys(ExpandOnPath(links, {"X", "Y", "Z"}, Epic(key), {"X", key})) == [key, next]
  {
    TriangleWithin();
    TriangleLeaf(links, next);
    assert {"X", key} + {next} == {"X", "Y", "Z"};
    assert Without(links(key), {"X", key}) == [Epic(next)];
    OneLeafBelow(links, {"X", "Y", "Z"}, key, next, {"X", key});
  }

  /** Under X alone, the corrected loop expands Y (then Z below it) and Z
      (then Y below it). */
  lemma TriangleTopBody(links: Links)
    requires links == TriangleLinks
    ensures LinksWithin(links, {"X", "Y", "Z"})
    ensures ExpandedKeys(ExpandOnPathAll(links, {"X", "Y", "Z"}, [Epic("Y"), Epic("Z")], {"X"})) ==
      ["Y", "Z", "Z", "Y"]
  {
    var u := {"X", "Y", "Z"};
    TriangleWithin();
    TriangleMiddle(links, "Y", "Z");
    TriangleMiddle(links, "Z", "Y");
    assert {"X"} + {"Y"} == {"X", "Y"};
    assert {"X"} + {"Z"} == {"X", "Z"};
    OnPathAllUnfold(links, u, [Epic("Y"), Epic("Z")], {"X"});
    assert [Epic("Y"), Epic("Z")][1..] == [Epic("Z")];
    OnPathAllUnfold(links, u, [Epic("Z")], {"X"});
    var yIn := ExpandOnPath(links, u, Epic("Y"), {"X", "Y"});
    var zIn := ExpandOnPath(links, u, Epic("Z"), {"X", "Z"});
    var restZ := ExpandOnPathAll(links, u, [Epic("Z")], {"X"});
    EntryKeys("Z", zIn, []);
    EntryKeys("Y", yIn, restZ);
  }

  lemma TriangleTopLinks(links: Links)
    requires links == TriangleLinks
    ensures Without(links("X"), {"X"}) == [Epic("Y"), Epic("Z")]
  {
  }

  /** On the triangle the corrected expansion finishes: X expands Y, which
      expands Z (X is an ancestor), which expands nothing further; then X
      expands Z, which expands Y. */
  lemma TriangleOnPath(links: Links)
    requires links == TriangleLinks
    ensures LinksWithin(links, {"X", "Y", "Z"})
    ensures ExpandedKeys(ExpandOnPath(links, {"X", "Y", "Z"}, Epic("X"), {"X"})) ==
      ["X", "Y", "Z", "Z", "Y"]
  {
    TriangleWithin();
    TriangleTopLinks(links);
    OnPathUnfold(links, {"X", "Y", "Z"}, Epic("X"), {"X"});
    TriangleTopBody(links);
    FrameKeys("X", ExpandOnPathAll(links, {"X", "Y", "Z"}, [Epic("Y"), Epic("Z")], {"X"}));
  }
}
