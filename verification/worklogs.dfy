/** The seven-day worklog window of html.go (getThisWeekWorkLogs and
    lastestThisWeekWorkLogs). Timestamps are nanoseconds; the clock reading
    `now` is a parameter. */
module Worklogs {

  import opened Types

  /** Seven days in nanoseconds (7*24*time.Hour). */
  const Week: int := 7 * 24 * 60 * 60 * 1_000_000_000

  /** A worklog entry is outside the window when it was updated more than
      seven days before `now`. */
  predicate Stale(now: int, w: Worklog)
  {
    now - w.updated > Week
  }

  /** lastestThisWeekWorkLogs: the last entry of the log when the log is
      present, non-empty and its last entry is inside the window. */
  function LatestThisWeek(log: Option<seq<Worklog>>, now: int): (r: Option<Worklog>)
    ensures r.Some? <==> log.Some? && |log.value| > 0 && !Stale(now, log.value[|log.value| - 1])
    ensures r.Some? ==> r.value == log.value[|log.value| - 1]
  {
    if log.None? then None
    else if |log.value| == 0 then None
    else
      var latest := log.value[|log.value| - 1];
      if Stale(now, latest) then None else Some(latest)
  }

  /** getThisWeekWorkLogs: scans the log from the newest entry backwards and
      stops at the first stale one. The result is newest-first: it is the
      longest run of fresh entries at the end of the log, reversed. A missing
      or empty log gives None (Go's nil). The newest entry of a non-empty
      result is exactly what LatestThisWeek returns. */
  method ThisWeek(log: Option<seq<Worklog>>, now: int) returns (r: Option<seq<Worklog>>)
    ensures r.None? <==> log.None? || |log.value| == 0
    ensures r.Some? ==> |r.value| <= |log.value|
    ensures r.Some? ==> forall j :: 0 <= j < |r.value| ==>
      r.value[j] == log.value[|log.value| - 1 - j] && !Stale(now, r.value[j])
    ensures r.Some? && |r.value| < |log.value| ==> Stale(now, log.value[|log.value| - 1 - |r.value|])
    ensures LatestThisWeek(log, now) == (if r.Some? && |r.value| > 0 then Some(r.value[0]) else None)
  {
    if log.None? {
      return None;
    }
    var all := log.value;
    if |all| == 0 {
      return None;
    }
    var logs: seq<Worklog> := [];
    var i := |all| - 1;
    while i >= 0
      invariant -1 <= i < |all|
      invariant |logs| == |all| - 1 - i
      invariant forall j :: 0 <= j < |logs| ==> logs[j] == all[|all| - 1 - j] && !Stale(now, logs[j])
      decreases i
    {
      if Stale(now, all[i]) {
        break;
      }
      logs := logs + [all[i]];
      i := i - 1;
    }
    return Some(logs);
  }
}
