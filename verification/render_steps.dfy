/** One-step facts about the renderer of html.go, for any tracker: how one
    unfolding of the item loop on a fresh issue splits the shown keys, and
    what an epic with a single task, or an epic followed by a task, shows. */
module RenderSteps {

  import opened Types
  import opened Markup
  import opened Render

  /** One unfolding of RenderItems on an issue not yet visited. */
  lemma ItemsUnfoldFresh(env: Env, epic: Option<Issue>, issues: seq<Issue>, visited: set<string>)
    requires Valid(env) && KeysWithin(issues, env.universe)
    requires |issues| > 0 && issues[0].key !in visited
    ensures RenderItems(env, epic, issues, visited) ==
      Rendered([ItemOpen] + RenderIssue(env, epic, issues[0], visited + {issues[0].key}).out + [ItemClose]
                 + RenderItems(env, epic, issues[1..], RenderIssue(env, epic, issues[0], visited + {issues[0].key}).visited).out,
               RenderItems(env, epic, issues[1..], RenderIssue(env, epic, issues[0], visited + {issues[0].key}).visited).visited)
  {
  }

  /** An epic with children shows its own key, then the keys its children's
      items show, and visits what those items visit. */
  lemma EpicShown(env: Env, epic: Issue, visited: set<string>)
    requires Valid(env) && epic.key in visited
    requires |env.tracker(ChildQueryOf(epic))| > 0
    ensures RenderEpic(env, epic, visited).visited
              == RenderItems(env, Some(epic), env.tracker(ChildQueryOf(epic)), visited).visited
    ensures ShownKeys(RenderEpic(env, epic, visited).out)
              == [epic.key] + ShownKeys(RenderItems(env, Some(epic), env.tracker(ChildQueryOf(epic)), visited).out)
  {
    var r := RenderEpic(env, epic, visited);
    var items := RenderItems(env, Some(epic), env.tracker(ChildQueryOf(epic)), visited);
    assert r.out[1..] == [ListOpen] + items.out + [ListClose];
    WrapShown(ListOpen, items.out, ListClose);
    assert r.out == [r.out[0]] + r.out[1..];
    ShownKeysAppend([r.out[0]], r.out[1..]);
    assert ShownKeys([r.out[0]]) == [epic.key];
  }

  /** The shown keys and the visited set of one unfolding of RenderItems on
      an issue not yet visited: the item's, then the rest's. */
  lemma ItemsShownFresh(env: Env, epic: Option<Issue>, issues: seq<Issue>, visited: set<string>)
    requires Valid(env) && KeysWithin(issues, env.universe)
    requires |issues| > 0 && issues[0].key !in visited
    ensures RenderItems(env, epic, issues, visited).visited
              == RenderItems(env, epic, issues[1..], RenderIssue(env, epic, issues[0], visited + {issues[0].key}).visited).visited
    ensures ShownKeys(RenderItems(env, epic, issues, visited).out)
              == ShownKeys(RenderIssue(env, epic, issues[0], visited + {issues[0].key}).out)
                 + ShownKeys(RenderItems(env, epic, issues[1..], RenderIssue(env, epic, issues[0], visited + {issues[0].key}).visited).out)
  {
    ItemsUnfoldFresh(env, epic, issues, visited);
    var head := RenderIssue(env, epic, issues[0], visited + {issues[0].key});
    var rest := RenderItems(env, epic, issues[1..], head.visited);
    WrapShown(ItemOpen, head.out, ItemClose);
    ShownKeysAppend([ItemOpen] + head.out + [ItemClose], rest.out);
  }

  /** A task listed on its own, not yet visited, shows its key and visits
      it. */
  lemma TaskItem(env: Env, epic: Option<Issue>, x: Issue, visited: set<string>)
    requires Valid(env) && x.key in env.universe && x.key !in visited && !IsEpic(x)
    ensures RenderItems(env, epic, [x], visited).visited == visited + {x.key}
    ensures ShownKeys(RenderItems(env, epic, [x], visited).out) == [x.key]
  {
    ItemsShownFresh(env, epic, [x], visited);
    var v := visited + {x.key};
    var line := IssueLine(epic, x, env.now);
    assert RenderIssue(env, epic, x, v) == Rendered([line], v);
    assert [line][1..] == [];
    assert ShownKeys([line]) == [x.key];
    assert [x][1..] == [];
  }

  /** An epic whose only child is a task not yet visited shows its own key
      and the task's, and visits the task. */
  lemma EpicWithOneTask(env: Env, a: Issue, c: Issue, visited: set<string>)
    requires Valid(env) && a.key in visited
    requires c.key in env.universe && c.key !in visited && !IsEpic(c)
    requires env.tracker(ChildQueryOf(a)) == [c]
    ensures RenderEpic(env, a, visited).visited == visited + {c.key}
    ensures ShownKeys(RenderEpic(env, a, visited).out) == [a.key, c.key]
  {
    TaskItem(env, Some(a), c, visited);
    EpicShown(env, a, visited);
  }

  /** A list of two issues, the first not yet visited: the first's render,
      then the second's list. */
  lemma TwoItems(env: Env, parent: Option<Issue>, a: Issue, b: Issue, visited: set<string>)
    requires Valid(env) && a.key in env.universe && b.key in env.universe && a.key !in visited
    ensures RenderItems(env, parent, [a, b], visited).visited
              == RenderItems(env, parent, [b], RenderIssue(env, parent, a, visited + {a.key}).visited).visited
    ensures ShownKeys(RenderItems(env, parent, [a, b], visited).out)
              == ShownKeys(RenderIssue(env, parent, a, visited + {a.key}).out)
                 + ShownKeys(RenderItems(env, parent, [b], RenderIssue(env, parent, a, visited + {a.key}).visited).out)
  {
    ItemsShownFresh(env, parent, [a, b], visited);
    assert [a, b][1..] == [b];
  }

  /** An epic is rendered by its expansion, whatever the enclosing epic. */
  lemma EpicIssue(env: Env, parent: Option<Issue>, a: Issue, visited: set<string>)
    requires Valid(env) && a.key in visited && IsEpic(a)
    ensures RenderIssue(env, parent, a, visited) == RenderEpic(env, a, visited)
  {
  }

  /** A list of an issue not yet visited followed by a task that the issue's
      render does not reach: the issue's keys, then the task's. */
  lemma IssueThenTask(env: Env, parent: Option<Issue>, a: Issue, b: Issue, visited: set<string>)
    requires Valid(env) && a.key in env.universe && b.key in env.universe
    requires a.key !in visited && !IsEpic(b)
    requires b.key !in RenderIssue(env, parent, a, visited + {a.key}).visited
    ensures RenderItems(env, parent, [a, b], visited).visited
              == RenderIssue(env, parent, a, visited + {a.key}).visited + {b.key}
    ensures ShownKeys(RenderItems(env, parent, [a, b], visited).out)
              == ShownKeys(RenderIssue(env, parent, a, visited + {a.key}).out) + [b.key]
  {
    TaskItem(env, parent, b, RenderIssue(env, parent, a, visited + {a.key}).visited);
    TwoItems(env, parent, a, b, visited);
  }

  /** A list holding one epic not yet visited shows what the epic's
      expansion shows. */
  lemma EpicAloneList(env: Env, parent: Option<Issue>, e: Issue, visited: set<string>)
    requires Valid(env) && e.key in env.universe && e.key !in visited && IsEpic(e)
    ensures ShownKeys(RenderList(env, parent, [e], visited).out)
              == ShownKeys(RenderEpic(env, e, visited + {e.key}).out)
  {
    ItemsShownFresh(env, parent, [e], visited);
    EpicIssue(env, parent, e, visited + {e.key});
    assert [e][1..] == [];
    WrapShown(ListOpen, RenderItems(env, parent, [e], visited).out, ListClose);
  }
}
