/** The progress text shown after an issue in the weekly report
    (html.go: getIssueProgressField and the suffix built by
    formatNormalIssueWithProgressForHtmlOutput). */
module Progress {

  import opened Types
  import opened Text
  import opened Worklogs

  /** getIssueProgressField: the progress custom field when it is present and
      holds a string, otherwise the empty string. */
  function ProgressField(issue: Issue): (r: string)
    ensures issue.progress.Some? && issue.progress.value.StringValue? ==> r == issue.progress.value.text
    ensures issue.progress.None? || issue.progress.value.OtherValue? ==> r == ""
  {
    match issue.progress
    case None => ""
    case Some(v) =>
      match v
      case StringValue(text) => text
      case OtherValue => ""
  }

  /** The issue's assignee is named when it is listed under an epic that has
      an assignee, the issue has one too, and the two users' keys differ. */
  predicate NamesAssignee(epic: Option<Issue>, issue: Issue)
  {
    && epic.Some?
    && epic.value.assignee.Some?
    && issue.assignee.Some?
    && epic.value.assignee.value.key != issue.assignee.value.key
  }

  /** The raw progress text: "@DisplayName " when the assignee is named,
      followed by the comment of this week's latest worklog, if any. */
  function ProgressText(epic: Option<Issue>, issue: Issue, now: int): (r: string)
    ensures NamesAssignee(epic, issue) ==>
      |r| > |issue.assignee.value.displayName| + 1
      && r[..|issue.assignee.value.displayName| + 2] == "@" + issue.assignee.value.displayName + " "
    ensures NamesAssignee(epic, issue) && LatestThisWeek(issue.worklog, now).None? ==>
      r == "@" + issue.assignee.value.displayName + " "
    ensures NamesAssignee(epic, issue) && LatestThisWeek(issue.worklog, now).Some? ==>
      r == "@" + issue.assignee.value.displayName + " " + LatestThisWeek(issue.worklog, now).value.comment
    ensures !NamesAssignee(epic, issue) && LatestThisWeek(issue.worklog, now).None? ==> r == ""
    ensures !NamesAssignee(epic, issue) && LatestThisWeek(issue.worklog, now).Some? ==>
      r == LatestThisWeek(issue.worklog, now).value.comment
    ensures LatestThisWeek(issue.worklog, now).Some? ==>
      |r| >= |LatestThisWeek(issue.worklog, now).value.comment|
      && r[|r| - |LatestThisWeek(issue.worklog, now).value.comment|..] == LatestThisWeek(issue.worklog, now).value.comment
  {
    var mention := if NamesAssignee(epic, issue) then "@" + issue.assignee.value.displayName + " " else "";
    var latest := LatestThisWeek(issue.worklog, now);
    var r := if latest.Some? then mention + latest.value.comment else mention;
    assert NamesAssignee(epic, issue) ==> r[..|mention|] == mention;
    r
  }

  /** The suffix written after the issue's macro: empty when there is no
      progress text, otherwise ": " and the HTML-escaped progress text. */
  function ProgressSuffix(epic: Option<Issue>, issue: Issue, now: int): (r: string)
    ensures r == "" <==> ProgressText(epic, issue, now) == ""
    ensures r != "" ==> |r| > 2 && r[..2] == ": " && HtmlUnescape(r[2..]) == ProgressText(epic, issue, now)
  {
    var p := ProgressText(epic, issue, now);
    if |p| != 0 then
      HtmlEscapeRoundTrip(p);
      var r := ": " + HtmlEscape(p);
      assert r[2..] == HtmlEscape(p);
      r
    else ""
  }
}
