/** The visited set every list-rendering pass consults so that no issue is
    shown twice in one document (weekly.go, IssueRepeatChecker). The Go map
    is threaded here as a value: `Check` returns the answer together with
    the set as it is afterwards. */
module RepeatChecker {

  import opened Types

  /** The answer of one `Check` and the visited set after it. */
  datatype CheckResult = CheckResult(seen: bool, visited: set<string>)

  /** Check-and-insert: reports whether `key` was already visited and, on a
      first encounter, records it. */
  function Check(visited: set<string>, key: string): (r: CheckResult)
    ensures r.seen <==> key in visited
    ensures r.visited == visited + {key}
    ensures r.seen ==> r.visited == visited
    ensures !r.seen ==> |r.visited| == |visited| + 1
  {
    if key in visited then CheckResult(true, visited)
    else CheckResult(false, visited + {key})
  }

  /** The answers of a run of `Check` calls, one per key, and the final set. */
  datatype Replay = Replay(answers: seq<bool>, visited: set<string>)

  /** Calls `Check` on each key in turn, threading the set. */
  function ReplayChecks(visited: set<string>, keys: seq<string>): (r: Replay)
    ensures |r.answers| == |keys|
    decreases |keys|
  {
    if |keys| == 0 then Replay([], visited)
    else
      var c := Check(visited, keys[0]);
      var rest := ReplayChecks(c.visited, keys[1..]);
      Replay([c.seen] + rest.answers, rest.visited)
  }

  /** Whatever the interleaving of keys, `Check` answers false exactly at the
      first occurrence of a key not visited before, and true at every later
      one. */
  lemma {:induction false} ReplayFirstOccurrence(visited: set<string>, keys: seq<string>)
    ensures forall i :: 0 <= i < |keys| ==>
      (!ReplayChecks(visited, keys).answers[i] <==> keys[i] !in visited && keys[i] !in keys[..i])
    decreases |keys|
  {
    if |keys| > 0 {
      var c := Check(visited, keys[0]);
      var r := ReplayChecks(visited, keys);
      var rest := ReplayChecks(c.visited, keys[1..]);
      ReplayFirstOccurrence(c.visited, keys[1..]);
      assert r.answers == [c.seen] + rest.answers;
      forall i | 0 < i < |keys|
        ensures !r.answers[i] <==> keys[i] !in visited && keys[i] !in keys[..i]
      {
        assert r.answers[i] == rest.answers[i - 1];
        assert keys[1..][i - 1] == keys[i];
        assert keys[1..][..i - 1] == keys[1..i];
        assert keys[..i] == [keys[0]] + keys[1..i];
      }
    }
  }

  /** After a run of checks the set holds the old keys and every key checked. */
  lemma {:induction false} ReplayVisitsAll(visited: set<string>, keys: seq<string>)
    ensures ReplayChecks(visited, keys).visited == visited + Elements(keys)
    decreases |keys|
  {
    if |keys| > 0 {
      var c := Check(visited, keys[0]);
      ReplayVisitsAll(c.visited, keys[1..]);
      assert keys == [keys[0]] + keys[1..];
      assert Elements(keys) == {keys[0]} + Elements(keys[1..]);
    }
  }

  /** Once a key has been checked, every later check of it answers true. */
  lemma CheckThenSeen(visited: set<string>, key: string)
    ensures Check(Check(visited, key).visited, key).seen
    ensures Check(Check(visited, key).visited, key).visited == Check(visited, key).visited
  {
  }
}
