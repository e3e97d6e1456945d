/** Grouping a member's issues by type (weekly.go, collectEpicJiraIssue):
    a stable partition of the input into buckets keyed by the lower-cased
    type name. */
module Classifier {

  import opened Types
  import opened Text

  /** Buckets of issues, keyed by lower-cased type name. */
  type Buckets = map<string, seq<Issue>>

  /** The key of the bucket an issue belongs in. */
  function TypeKey(issue: Issue): string
  {
    Lower(issue.typeName)
  }

  /** Reference definition: the issues of type key `t`, in input order. */
  function OfType(issues: seq<Issue>, t: string): seq<Issue>
    decreases |issues|
  {
    if |issues| == 0 then []
    else (if TypeKey(issues[0]) == t then [issues[0]] else []) + OfType(issues[1..], t)
  }

  /** The type keys that occur in `issues`. */
  function TypeKeys(issues: seq<Issue>): set<string>
  {
    set i | i in issues :: TypeKey(i)
  }

  /** One iteration of the classifying loop: append `issue` to its bucket,
      creating the bucket on the first issue of that type. */
  function AddToBucket(buckets: Buckets, issue: Issue): Buckets
  {
    var t := TypeKey(issue);
    if t in buckets then buckets[t := buckets[t] + [issue]]
    else buckets[t := [issue]]
  }

  lemma {:induction false} OfTypeSnoc(issues: seq<Issue>, x: Issue, t: string)
    ensures OfType(issues + [x], t) == OfType(issues, t) + (if TypeKey(x) == t then [x] else [])
    decreases |issues|
  {
    if |issues| == 0 {
      assert issues + [x] == [x];
    } else {
      assert (issues + [x])[1..] == issues[1..] + [x];
      OfTypeSnoc(issues[1..], x, t);
    }
  }

  lemma {:induction false} OfTypeEmptyIffAbsent(issues: seq<Issue>, t: string)
    ensures OfType(issues, t) == [] <==> t !in TypeKeys(issues)
    decreases |issues|
  {
    if |issues| > 0 {
      OfTypeEmptyIffAbsent(issues[1..], t);
      assert TypeKeys(issues) == {TypeKey(issues[0])} + TypeKeys(issues[1..]) by {
        assert issues == [issues[0]] + issues[1..];
      }
    }
  }

  /** collectEpicJiraIssue. The buckets are exactly the type keys of the
      input, no bucket is empty, and each bucket holds the issues of its type
      in input order. */
  function Classify(issues: seq<Issue>): (r: Buckets)
    ensures r.Keys == TypeKeys(issues)
    ensures forall t :: t in r ==> r[t] == OfType(issues, t)
    ensures forall t :: t in r ==> |r[t]| > 0
    decreases |issues|
  {
    if |issues| == 0 then map[]
    else
      var init := issues[..|issues| - 1];
      var x := issues[|issues| - 1];
      assert issues == init + [x];
      var b := Classify(init);
      var r := AddToBucket(b, x);
      assert TypeKeys(issues) == TypeKeys(init) + {TypeKey(x)};
      forall t | t in r ensures r[t] == OfType(issues, t) {
        OfTypeSnoc(init, x, t);
        if t !in b {
          OfTypeEmptyIffAbsent(init, t);
        }
      }
      r
  }

  /** Every issue in a bucket has that bucket's type key, so no issue is in
      two buckets. */
  lemma {:induction false} OfTypeMembers(issues: seq<Issue>, t: string)
    ensures forall j :: 0 <= j < |OfType(issues, t)| ==> TypeKey(OfType(issues, t)[j]) == t
    ensures multiset(OfType(issues, t)) <= multiset(issues)
    decreases |issues|
  {
    if |issues| > 0 {
      OfTypeMembers(issues[1..], t);
      assert issues == [issues[0]] + issues[1..];
    }
  }

  /** Each issue lands in the bucket keyed by its lower-cased type and its
      bucket contains it; buckets keep input order because each is a filter
      of the input. */
  lemma ClassifyPlacesEachIssue(issues: seq<Issue>)
    ensures forall i :: 0 <= i < |issues| ==> TypeKey(issues[i]) in Classify(issues)
    ensures forall i :: 0 <= i < |issues| ==> issues[i] in Classify(issues)[TypeKey(issues[i])]
    ensures forall t, j :: t in Classify(issues) && 0 <= j < |Classify(issues)[t]| ==>
      TypeKey(Classify(issues)[t][j]) == t
  {
    var r := Classify(issues);
    forall i | 0 <= i < |issues| ensures issues[i] in r[TypeKey(issues[i])] {
      OfTypeContains(issues, i);
    }
    forall t | t in r
      ensures forall j :: 0 <= j < |r[t]| ==> TypeKey(r[t][j]) == t
    {
      OfTypeMembers(issues, t);
    }
  }

  lemma {:induction false} OfTypeContains(issues: seq<Issue>, i: int)
    requires 0 <= i < |issues|
    ensures issues[i] in OfType(issues, TypeKey(issues[i]))
    decreases |issues|
  {
    if i > 0 {
      OfTypeContains(issues[1..], i - 1);
    }
  }

  // ---------------------------------------------------------------------
  // Counting: bucket sizes add up to the number of issues.

  /** The sum of the sizes of the buckets named by `keys`. */
  function SumSizes(issues: seq<Issue>, keys: seq<string>): nat
    decreases |keys|
  {
    if |keys| == 0 then 0 else |OfType(issues, keys[0])| + SumSizes(issues, keys[1..])
  }

  /** How often `t` occurs in `keys`. */
  function Occurrences(keys: seq<string>, t: string): nat
    decreases |keys|
  {
    if |keys| == 0 then 0 else (if keys[0] == t then 1 else 0) + Occurrences(keys[1..], t)
  }

  lemma {:induction false} SumSizesCons(x: Issue, rest: seq<Issue>, keys: seq<string>)
    ensures SumSizes([x] + rest, keys) == Occurrences(keys, TypeKey(x)) + SumSizes(rest, keys)
    decreases |keys|
  {
    if |keys| > 0 {
      SumSizesCons(x, rest, keys[1..]);
      assert ([x] + rest)[1..] == rest;
    }
  }

  lemma {:induction false} OccursOnce(keys: seq<string>, t: string)
    requires Distinct(keys) && t in keys
    ensures Occurrences(keys, t) == 1
    decreases |keys|
  {
    if keys[0] == t {
      OccursNot(keys[1..], t);
    } else {
      OccursOnce(keys[1..], t);
    }
  }

  lemma {:induction false} OccursNot(keys: seq<string>, t: string)
    requires t !in keys
    ensures Occurrences(keys, t) == 0
    decreases |keys|
  {
    if |keys| > 0 {
      OccursNot(keys[1..], t);
    }
  }

  lemma {:induction false} SumSizesCountsAll(issues: seq<Issue>, keys: seq<string>)
    requires Distinct(keys) && TypeKeys(issues) <= Elements(keys)
    ensures SumSizes(issues, keys) == |issues|
    decreases |issues|
  {
    if |issues| == 0 {
      SumSizesOfNothing(keys);
    } else {
      var x := issues[0];
      assert issues == [x] + issues[1..];
      assert TypeKey(x) in TypeKeys(issues);
      assert TypeKeys(issues[1..]) <= TypeKeys(issues);
      SumSizesCons(x, issues[1..], keys);
      OccursOnce(keys, TypeKey(x));
      SumSizesCountsAll(issues[1..], keys);
    }
  }

  lemma {:induction false} SumSizesOfNothing(keys: seq<string>)
    ensures SumSizes([], keys) == 0
    decreases |keys|
  {
    if |keys| > 0 {
      SumSizesOfNothing(keys[1..]);
    }
  }

  /** Whatever order the buckets are visited in (Go leaves map order
      unspecified), their sizes add up to the number of issues: no issue is
      dropped or duplicated. */
  lemma ClassifyPreservesCount(issues: seq<Issue>, order: seq<string>)
    requires Distinct(order) && Elements(order) == Classify(issues).Keys
    ensures SumSizes(issues, order) == |issues|
  {
    SumSizesCountsAll(issues, order);
  }

  /** No input, no buckets: the result is the empty map, not a map of empty
      lists. */
  lemma ClassifyEmpty()
    ensures Classify([]) == map[]
  {
  }

  /** The example of a member with an epic and a task. */
  lemma ClassifyExample()
    ensures var t1 := Issue("T-1", "Epic", "", None, None, None, None, [], None, None);
            var t2 := Issue("T-2", "Task", "", None, None, None, None, [], None, None);
            Classify([t1, t2]) == map["epic" := [t1], "task" := [t2]]
  {
    var t1 := Issue("T-1", "Epic", "", None, None, None, None, [], None, None);
    var t2 := Issue("T-2", "Task", "", None, None, None, None, [], None, None);
    assert TypeKey(t1) == "epic";
    assert TypeKey(t2) == "task";
    assert [t1, t2][..1] == [t1];
  }
}
