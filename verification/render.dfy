/** The recursive rendering of issue lists of html.go:
    formatUnorderedListIssuesForHtmlOutput, formatJiraIssueWithProgressForHtmlOutput,
    formatEpicIssueWithProgressForHtmlOutput and
    formatNormalIssueWithProgressForHtmlOutput.

    The visited set is threaded through the recursion. The tracker query that
    lists an epic's children is a parameter, and every key it can return lies
    in a finite universe. Because a listed issue is checked (and so inserted)
    before an epic is descended into, the recursion terminates. The measure is
    the number of keys of the universe not yet visited. */
module Render {

  import opened Types
  import opened Text
  import opened RepeatChecker
  import opened Progress
  import opened Markup

  /** The query that lists an epic's children: the issues linked to the epic,
      or (when the epic has sub-tasks) those and the sub-tasks. The team
      filter both variants add is a fixed configuration string and is left
      implicit. */
  datatype ChildQuery =
    | EpicChildren(epic: string)
    | EpicChildrenOrSubtasks(epic: string, subtasks: seq<string>)

  /** The tracker: the issues a child query returns. */
  type Tracker = ChildQuery -> seq<Issue>

  /** What rendering needs from outside: the tracker, the finite universe of
      issue keys it can return, and the clock reading. */
  datatype Env = Env(tracker: Tracker, universe: set<string>, now: int)

  /** Every issue the tracker can return has its key in the universe. */
  ghost predicate Valid(env: Env)
  {
    forall q: ChildQuery, j :: 0 <= j < |env.tracker(q)| ==> env.tracker(q)[j].key in env.universe
  }

  /** Rendered fragments and the visited set afterwards. */
  datatype Rendered = Rendered(out: seq<Html>, visited: set<string>)

  /** Type dispatch is on the lower-cased type name. */
  predicate IsEpic(issue: Issue)
  {
    Lower(issue.typeName) == "epic"
  }

  /** formatNormalIssueWithProgressForHtmlOutput: the issue's macro followed
      by its progress suffix, computed against the enclosing epic. */
  function IssueLine(epic: Option<Issue>, issue: Issue, now: int): (r: Html)
    ensures r.IssueMacro? && r.key == issue.key
    ensures r.suffix == "" <==> ProgressText(epic, issue, now) == ""
  {
    IssueMacro(issue.key, ProgressSuffix(epic, issue, now))
  }

  /** The child query of an epic: the sub-task keys join the query only
      when the epic has sub-tasks. */
  function ChildQueryOf(epic: Issue): (q: ChildQuery)
    ensures q.epic == epic.key
    ensures q.EpicChildrenOrSubtasks? <==> |epic.subtasks| > 0
    ensures q.EpicChildrenOrSubtasks? ==> q.subtasks == epic.subtasks
  {
    if |epic.subtasks| > 0 then EpicChildrenOrSubtasks(epic.key, epic.subtasks)
    else EpicChildren(epic.key)
  }

  // ---------------------------------------------------------------------
  // The termination measure.

  lemma InsertShrinks(universe: set<string>, visited: set<string>, key: string)
    requires key in universe && key !in visited
    ensures |universe - (visited + {key})| + 1 == |universe - visited|
  {
    assert universe - visited == (universe - (visited + {key})) + {key};
  }

  lemma GrowthShrinks(universe: set<string>, visited: set<string>, more: set<string>)
    requires visited <= more
    ensures |universe - more| <= |universe - visited|
  {
    var a := universe - more;
    var b := universe - visited;
    assert b == a + (b - a);
    assert a !! (b - a);
  }

  // ---------------------------------------------------------------------
  // The mutually recursive renderers.

  /** formatUnorderedListIssuesForHtmlOutput. An empty list writes nothing
      and leaves the set alone; otherwise the items sit in one list. Every
      listed issue ends up visited, the set only grows and only by keys of
      the universe, and the keys shown are distinct and are exactly the keys
      newly visited: an issue already visited is neither shown nor expanded. */
  function RenderList(env: Env, epic: Option<Issue>, issues: seq<Issue>, visited: set<string>): (r: Rendered)
    requires Valid(env) && KeysWithin(issues, env.universe)
    ensures visited <= r.visited <= visited + env.universe
    ensures ShowsNewlyVisited(r.out, visited, r.visited)
    ensures forall i :: 0 <= i < |issues| ==> issues[i].key in r.visited
    ensures |issues| == 0 ==> r == Rendered([], visited)
    ensures |issues| > 0 ==> |r.out| >= 2 && r.out[0] == ListOpen && r.out[|r.out| - 1] == ListClose
    decreases |env.universe - visited|, 2, |issues|
  {
    if |issues| == 0 then Rendered([], visited)
    else
      var items := RenderItems(env, epic, issues, visited);
      WrapShown(ListOpen, items.out, ListClose);
      Rendered([ListOpen] + items.out + [ListClose], items.visited)
  }

  /** The loop of formatUnorderedListIssuesForHtmlOutput: each issue is
      checked; a first encounter is rendered inside an item. */
  function RenderItems(env: Env, epic: Option<Issue>, issues: seq<Issue>, visited: set<string>): (r: Rendered)
    requires Valid(env) && KeysWithin(issues, env.universe)
    ensures visited <= r.visited <= visited + env.universe
    ensures ShowsNewlyVisited(r.out, visited, r.visited)
    ensures forall i :: 0 <= i < |issues| ==> issues[i].key in r.visited
    decreases |env.universe - visited|, 1, |issues|
  {
    if |issues| == 0 then Rendered([], visited)
    else
      var issue := issues[0];
      var c := Check(visited, issue.key);
      if c.seen then
        RenderItems(env, epic, issues[1..], visited)
      else
        InsertShrinks(env.universe, visited, issue.key);
        var head := RenderIssue(env, epic, issue, c.visited);
        GrowthShrinks(env.universe, c.visited, head.visited);
        var rest := RenderItems(env, epic, issues[1..], head.visited);
        ItemStep(visited, issue.key, head, rest);
        Rendered([ItemOpen] + head.out + [ItemClose] + rest.out, rest.visited)
  }

  /** One rendered item followed by the rest of the list shows exactly the
      keys newly visited by both, each once. */
  lemma ItemStep(visited: set<string>, key: string, head: Rendered, rest: Rendered)
    requires key !in visited
    requires visited + {key} <= head.visited <= rest.visited
    requires |head.out| > 0 && head.out[0].IssueMacro? && head.out[0].key == key
    requires ShowsNewlyVisited(head.out[1..], visited + {key}, head.visited)
    requires ShowsNewlyVisited(rest.out, head.visited, rest.visited)
    ensures ShowsNewlyVisited([ItemOpen] + head.out + [ItemClose] + rest.out, visited, rest.visited)
  {
    var item := [ItemOpen] + head.out + [ItemClose];
    WrapShown(ItemOpen, head.out, ItemClose);
    assert head.out == [head.out[0]] + head.out[1..];
    ShownKeysAppend([head.out[0]], head.out[1..]);
    assert ShownKeys([head.out[0]]) == [key];
    assert ShowsNewlyVisited(item, visited, head.visited) by {
      assert ShownKeys(item) == [key] + ShownKeys(head.out[1..]);
      assert Elements([key] + ShownKeys(head.out[1..])) == {key} + Elements(ShownKeys(head.out[1..]));
      DistinctConcat([key], ShownKeys(head.out[1..]));
    }
    ComposeShown(item, rest.out, visited, head.visited, rest.visited);
  }

  /** formatJiraIssueWithProgressForHtmlOutput, called on an issue that has
      just been checked. An epic is expanded; any other type is one line
      rendered against the enclosing epic. The first fragment is the issue's
      own line, and the keys shown after it are exactly those newly visited. */
  function RenderIssue(env: Env, epic: Option<Issue>, issue: Issue, visited: set<string>): (r: Rendered)
    requires Valid(env) && issue.key in visited
    ensures visited <= r.visited <= visited + env.universe
    ensures |r.out| > 0 && r.out[0] == IssueLine(if IsEpic(issue) then None else epic, issue, env.now)
    ensures ShowsNewlyVisited(r.out[1..], visited, r.visited)
    ensures !IsEpic(issue) ==> r == Rendered([IssueLine(epic, issue, env.now)], visited)
    decreases |env.universe - visited| + 1, 0, 1
  {
    if IsEpic(issue) then RenderEpic(env, issue, visited)
    else Rendered([IssueLine(epic, issue, env.now)], visited)
  }

  /** formatEpicIssueWithProgressForHtmlOutput: the epic's own line, with no
      enclosing epic, then the list of its children rendered with the epic
      as their enclosing epic. Every child ends up visited. */
  function RenderEpic(env: Env, epic: Issue, visited: set<string>): (r: Rendered)
    requires Valid(env) && epic.key in visited
    ensures visited <= r.visited <= visited + env.universe
    ensures |r.out| > 0 && r.out[0] == IssueLine(None, epic, env.now)
    ensures ShowsNewlyVisited(r.out[1..], visited, r.visited)
    ensures forall j :: 0 <= j < |env.tracker(ChildQueryOf(epic))| ==>
      env.tracker(ChildQueryOf(epic))[j].key in r.visited
    ensures r.out[1..] == RenderList(env, Some(epic), env.tracker(ChildQueryOf(epic)), visited).out
    decreases |env.universe - visited| + 1, 0, 0
  {
    var children := env.tracker(ChildQueryOf(epic));
    var list := RenderList(env, Some(epic), children, visited);
    var out := [IssueLine(None, epic, env.now)] + list.out;
    assert out[1..] == list.out;
    Rendered(out, list.visited)
  }

  // ---------------------------------------------------------------------
  // Properties relating several renders.

  /** An issue already visited is skipped: it is neither shown nor
      expanded, and the loop goes on with the same set. */
  lemma {:induction false} ItemsUnfoldSeen(env: Env, epic: Option<Issue>, issues: seq<Issue>, visited: set<string>)
    requires Valid(env) && KeysWithin(issues, env.universe)
    requires |issues| > 0 && issues[0].key in visited
    ensures RenderItems(env, epic, issues, visited) == RenderItems(env, epic, issues[1..], visited)
  {
  }

  /** Items whose keys are all visited render to nothing and visit nothing. */
  lemma {:induction false} ItemsAllVisited(env: Env, epic: Option<Issue>, issues: seq<Issue>, visited: set<string>)
    requires Valid(env) && KeysWithin(issues, env.universe)
    requires forall i :: 0 <= i < |issues| ==> issues[i].key in visited
    ensures RenderItems(env, epic, issues, visited) == Rendered([], visited)
    decreases |issues|
  {
    if |issues| > 0 {
      ItemsAllVisited(env, epic, issues[1..], visited);
    }
  }

  /** A non-empty list whose keys are all visited renders as an empty list
      and visits nothing. */
  lemma ListAllVisited(env: Env, epic: Option<Issue>, issues: seq<Issue>, visited: set<string>)
    requires Valid(env) && KeysWithin(issues, env.universe) && |issues| > 0
    requires forall i :: 0 <= i < |issues| ==> issues[i].key in visited
    ensures RenderList(env, epic, issues, visited) == Rendered([ListOpen, ListClose], visited)
  {
    ItemsAllVisited(env, epic, issues, visited);
    assert [ListOpen] + [] + [ListClose] == [ListOpen, ListClose];
  }

  /** Rendering the same list again with the set the first render produced
      shows nothing new: an empty list (or none at all) and the same set. */
  lemma RerenderShowsNothing(env: Env, epic: Option<Issue>, issues: seq<Issue>, visited: set<string>)
    requires Valid(env) && KeysWithin(issues, env.universe)
    ensures ShownKeys(RenderList(env, epic, issues, RenderList(env, epic, issues, visited).visited).out) == []
    ensures RenderList(env, epic, issues, RenderList(env, epic, issues, visited).visited).visited
              == RenderList(env, epic, issues, visited).visited
  {
    var first := RenderList(env, epic, issues, visited);
    if |issues| > 0 {
      ListAllVisited(env, epic, issues, first.visited);
      assert ShownKeys([ListOpen, ListClose]) == [];
    }
  }

  /** Expanding an epic whose children have all been visited (as they are
      after a first expansion) writes only the epic's own line and an empty
      list, and visits nothing. */
  lemma ReexpandShowsOnlyEpic(env: Env, epic: Issue, visited: set<string>)
    requires Valid(env) && epic.key in visited
    requires |env.tracker(ChildQueryOf(epic))| > 0
    requires forall j :: 0 <= j < |env.tracker(ChildQueryOf(epic))| ==>
      env.tracker(ChildQueryOf(epic))[j].key in visited
    ensures RenderEpic(env, epic, visited) ==
      Rendered([IssueLine(None, epic, env.now), ListOpen, ListClose], visited)
  {
    var children := env.tracker(ChildQueryOf(epic));
    ListAllVisited(env, Some(epic), children, visited);
  }
}
