/** The example of nested epics worked through the renderer of html.go:
    epic E lists A (an epic) and B (a task), and A lists C (a task). The
    one-step lemmas it is built from hold for any tracker. */
module RenderExample {

  import opened Types
  import opened Text
  import opened Markup
  import opened Render
  import opened RenderSteps

  /** An issue with only a key and a type. */
  function Bare(key: string, typeName: string): Issue
  {
    Issue(key, typeName, "", None, None, None, None, [], None, None)
  }

  /** The tracker of the example below: epic E has children A (an epic) and
      B (a task); epic A has child C (a task). */
  function ExampleTracker(q: ChildQuery): seq<Issue>
  {
    if q == EpicChildren("E") then [Bare("A", "Epic"), Bare("B", "Task")]
    else if q == EpicChildren("A") then [Bare("C", "Task")]
    else []
  }

  function ExampleEnv(now: int): Env
  {
    Env(ExampleTracker, {"E", "A", "B", "C"}, now)
  }

  lemma ExampleEnvValid(now: int)
    ensures Valid(ExampleEnv(now))
  {
  }

  lemma ExampleTypes()
    ensures IsEpic(Bare("E", "Epic")) && IsEpic(Bare("A", "Epic"))
    ensures !IsEpic(Bare("B", "Task")) && !IsEpic(Bare("C", "Task"))
    ensures ChildQueryOf(Bare("E", "Epic")) == EpicChildren("E")
    ensures ChildQueryOf(Bare("A", "Epic")) == EpicChildren("A")
  {
    assert Lower("Task")[0] == 't';
  }

  /** A, rendered in E's list with E and A visited, expands to A and C. */
  lemma ExampleItemA(env: Env, e: Issue, a: Issue, c: Issue)
    requires Valid(env) && IsEpic(a) && c.key in env.universe && !IsEpic(c)
    requires env.tracker(ChildQueryOf(a)) == [c] && c.key != e.key && c.key != a.key
    ensures RenderIssue(env, Some(e), a, {e.key} + {a.key}).visited == {e.key} + {a.key} + {c.key}
    ensures ShownKeys(RenderIssue(env, Some(e), a, {e.key} + {a.key}).out) == [a.key, c.key]
  {
    EpicWithOneTask(env, a, c, {e.key} + {a.key});
    EpicIssue(env, Some(e), a, {e.key} + {a.key});
  }

  /** Expanding E (visited on its own) shows E, then A's expansion, then
      B. */
  lemma ExampleExpandE(env: Env, e: Issue, a: Issue, b: Issue, c: Issue)
    requires Valid(env) && a.key in env.universe && b.key in env.universe && !IsEpic(b)
    requires env.tracker(ChildQueryOf(e)) == [a, b]
    requires a.key != e.key && b.key != e.key && b.key != a.key && b.key != c.key
    requires RenderIssue(env, Some(e), a, {e.key} + {a.key}).visited == {e.key} + {a.key} + {c.key}
    requires ShownKeys(RenderIssue(env, Some(e), a, {e.key} + {a.key}).out) == [a.key, c.key]
    ensures ShownKeys(RenderEpic(env, e, {e.key}).out) == [e.key] + ([a.key, c.key] + [b.key])
  {
    IssueThenTask(env, Some(e), a, b, {e.key});
    EpicShown(env, e, {e.key});
  }

  /** In the example, A inside E's list expands to A and C. */
  lemma ExampleA(now: int)
    ensures Valid(ExampleEnv(now))
    ensures RenderIssue(ExampleEnv(now), Some(Bare("E", "Epic")), Bare("A", "Epic"), {"E"} + {"A"}).visited
              == {"E"} + {"A"} + {"C"}
    ensures ShownKeys(RenderIssue(ExampleEnv(now), Some(Bare("E", "Epic")), Bare("A", "Epic"), {"E"} + {"A"}).out)
              == ["A", "C"]
  {
    ExampleEnvValid(now);
    ExampleTypes();
    ExampleItemA(ExampleEnv(now), Bare("E", "Epic"), Bare("A", "Epic"), Bare("C", "Task"));
  }

  /** In the example, expanding E shows E, A, C, B. */
  lemma ExampleE(now: int)
    ensures Valid(ExampleEnv(now))
    ensures ShownKeys(RenderEpic(ExampleEnv(now), Bare("E", "Epic"), {"E"}).out) == ["E"] + (["A", "C"] + ["B"])
  {
    ExampleA(now);
    ExampleTypes();
    ExampleExpandE(ExampleEnv(now), Bare("E", "Epic"), Bare("A", "Epic"), Bare("B", "Task"), Bare("C", "Task"));
  }

  /** The example with concrete issues: E with children A (an epic) and B
      (a task), where A has child C (a task), is shown as E, A, C, B. */
  lemma ExpansionOrderExample(now: int)
    ensures Valid(ExampleEnv(now))
    ensures ShownKeys(RenderList(ExampleEnv(now), None, [Bare("E", "Epic")], {}).out) == ["E", "A", "C", "B"]
  {
    ExampleE(now);
    ExampleTypes();
    EpicAloneList(ExampleEnv(now), None, Bare("E", "Epic"), {});
    assert {} + {"E"} == {"E"};
    assert ["E"] + (["A", "C"] + ["B"]) == ["E", "A", "C", "B"];
  }

  /** Listing E again with the visited set the first listing left shows
      nothing. */
  lemma ExampleRerender(now: int)
    ensures Valid(ExampleEnv(now))
    ensures ShownKeys(RenderList(ExampleEnv(now), None, [Bare("E", "Epic")],
                                 RenderList(ExampleEnv(now), None, [Bare("E", "Epic")], {}).visited).out) == []
  {
    ExampleEnvValid(now);
    RerenderShowsNothing(ExampleEnv(now), None, [Bare("E", "Epic")], {});
  }
}
