/** The Slack side of the reporter (slack.go): the channel rule, the lookup
    of a member's Slack mention by email, the team and state tags, the
    selection of mentioned members, the one-line renderings of pull requests
    and tracker issues, the bullet lists, and the filter for issues without a
    due date. Slack's user list is a parameter; posting is not modelled. */
module Slack {

  import opened Types
  import opened Text
  import opened Mentions

  // ---------------------------------------------------------------------
  // The channel.

  /** sendToSlack's channel rule: nothing is sent to an empty channel name,
      and a name that does not start with '#' gets one. */
  function ChannelTarget(channel: string): (r: Option<string>)
    ensures r.None? <==> channel == ""
    ensures r.Some? ==> |r.value| > 0 && r.value[0] == '#'
    ensures r.Some? ==> (r.value == channel <==> channel[0] == '#')
    ensures r.Some? && r.value != channel ==> r.value[1..] == channel
  {
    if channel == "" then None
    else if channel[0] != '#' then Some("#" + channel)
    else Some(channel)
  }

  /** A target is its own target: the prefix is added at most once. */
  lemma ChannelTargetIdempotent(channel: string)
    requires channel != ""
    ensures ChannelTarget(ChannelTarget(channel).value) == ChannelTarget(channel)
  {
  }

  // ---------------------------------------------------------------------
  // Mentions by email.

  /** A Slack user as the user list reports it. */
  datatype SlackUser = SlackUser(id: string, email: string)

  /** The Slack id of the last user in `users` whose lower-cased email is
      `key`. */
  function LastIdFor(users: seq<SlackUser>, key: string): Option<string>
    decreases |users|
  {
    if |users| == 0 then None
    else if Lower(users[|users| - 1].email) == key then Some(users[|users| - 1].id)
    else LastIdFor(users[..|users| - 1], key)
  }

  /** initSlackMemberCache: lower-cased email to Slack id, users in list
      order, a later user overwriting an earlier one with the same email.
      The keys are exactly the lower-cased emails, and each maps to the id of
      the last user having it. */
  function BuildCache(users: seq<SlackUser>): (r: map<string, string>)
    ensures forall k :: k in r <==> LastIdFor(users, k).Some?
    ensures forall k :: k in r ==> r[k] == LastIdFor(users, k).value
    ensures forall i :: 0 <= i < |users| ==> Lower(users[i].email) in r
    decreases |users|
  {
    if |users| == 0 then map[]
    else
      var init := users[..|users| - 1];
      var u := users[|users| - 1];
      var r := BuildCache(init)[Lower(u.email) := u.id];
      assert forall i :: 0 <= i < |init| ==> init[i] == users[i];
      r
  }

  /** buildSlackMention: `<@ID>` when the lower-cased email is cached,
      otherwise the escaped email. */
  function BuildMention(cache: map<string, string>, email: string): (r: string)
    ensures Lower(email) in cache ==> r == "<@" + cache[Lower(email)] + ">"
    ensures Lower(email) !in cache ==> SlackUnescape(r) == email
  {
    if Lower(email) in cache then "<@" + cache[Lower(email)] + ">"
    else
      SlackEscapeRoundTrip(email);
      SlackEscape(email)
  }

  /** The lookup ignores case: two spellings of one email that the cache
      knows give the same mention. */
  lemma MentionIgnoresCase(cache: map<string, string>, a: string, b: string)
    requires EqualFold(a, b) && Lower(a) in cache
    ensures BuildMention(cache, a) == BuildMention(cache, b)
  {
  }

  /** A user on the list is found under any spelling of their email, and
      the mention names the last user with that email. */
  lemma ListedUserFound(users: seq<SlackUser>, i: int, email: string)
    requires 0 <= i < |users| && EqualFold(email, users[i].email)
    ensures BuildMention(BuildCache(users), email) == "<@" + LastIdFor(users, Lower(email)).value + ">"
  {
  }

  // ---------------------------------------------------------------------
  // Tags.

  const NotTeamTag: string := " _(NotDDLTeam)_"
  const ClosedTagText: string := " _(Closed)_"

  /** The tag of an author from outside the team; team membership is a
      case-insensitive match of the login. */
  function TeamTag(team: seq<string>, login: string): (r: string)
    ensures r == "" <==> ContainsFold(team, login)
    ensures r != "" ==> r == NotTeamTag
  {
    if ContainsFold(team, login) then "" else NotTeamTag
  }

  /** Team membership, and so the tag, does not depend on the login's case. */
  lemma TeamTagIgnoresCase(team: seq<string>, a: string, b: string)
    requires EqualFold(a, b)
    ensures TeamTag(team, a) == TeamTag(team, b)
  {
    assert forall i :: 0 <= i < |team| ==> (EqualFold(team[i], a) <==> EqualFold(team[i], b));
  }

  /** The tag of a closed pull request or issue. */
  function ClosedTag(state: string): (r: string)
    ensures r == "" <==> state != "closed"
    ensures r != "" ==> r == ClosedTagText
  {
    if state == "closed" then ClosedTagText else ""
  }

  /** Escaping leaves the tags as they are. */
  lemma TagsNeedNoEscape(team: seq<string>, pr: PullRequest)
    ensures SlackEscape(ClosedTag(pr.state)) == ClosedTag(pr.state)
    ensures SlackEscape(TeamTag(team, pr.author)) == TeamTag(team, pr.author)
  {
    TagTextsPlain();
  }

  lemma TagTextsPlain()
    ensures SlackEscape(NotTeamTag) == NotTeamTag
    ensures SlackEscape(ClosedTagText) == ClosedTagText
    ensures SlackEscape("") == ""
  {
    NotTeamTagPlain();
    ClosedTagPlain();
  }

  lemma NotTeamTagPlain()
    ensures SlackEscape(NotTeamTag) == NotTeamTag
  {
    var n := NotTeamTag;
    assert forall i :: 0 <= i < |n| ==> n[i] in " _(NotDLTeam)";
    PlainUnescaped(n);
  }

  lemma ClosedTagPlain()
    ensures SlackEscape(ClosedTagText) == ClosedTagText
  {
    var c := ClosedTagText;
    assert forall i :: 0 <= i < |c| ==> c[i] in " _(Closed)";
    PlainUnescaped(c);
  }

  /** A text without & < > is its own escape. */
  lemma {:induction false} PlainUnescaped(s: string)
    requires forall i :: 0 <= i < |s| ==> s[i] != '&' && s[i] != '<' && s[i] != '>'
    ensures SlackEscape(s) == s
  {
    if s != [] {
      PlainUnescaped(s[1..]);
      assert s == [s[0]] + s[1..];
    }
  }

  // ---------------------------------------------------------------------
  // One line per pull request.

  /** ", assigned to" followed by " @login" per assignee; nothing when
      there are none. */
  function AssigneesText(assignees: seq<string>): (r: string)
    ensures |assignees| == 0 <==> r == ""
  {
    if |assignees| == 0 then "" else ", assigned to" + AtLogins(assignees)
  }

  function AtLogins(logins: seq<string>): string
    decreases |logins|
  {
    if |logins| == 0 then "" else " @" + logins[0] + AtLogins(logins[1..])
  }

  /** The part of a pull request's line after its tags. */
  function LinkText(pr: PullRequest): string
  {
    " <" + pr.url + "|" + SlackEscape(pr.title) + "> by @" + SlackEscape(pr.author)
  }

  /** The tags that open a pull request's line: the closed tag, then the
      team tag. */
  function Tags(team: seq<string>, pr: PullRequest): string
  {
    ClosedTag(pr.state) + TeamTag(team, pr.author)
  }

  /** formatGitHubIssueForSlackOutput: the closed tag, the team tag, the
      link with the escaped title, the escaped author and the assignees. The
      line starts with exactly the tags the state and the author call for. */
  function GitHubIssueLine(team: seq<string>, pr: PullRequest): (r: string)
    ensures |r| > |Tags(team, pr)| && r[..|Tags(team, pr)|] == Tags(team, pr) && r[|Tags(team, pr)|] == ' '
  {
    LinkTextSpace(pr, AssigneesText(pr.assignees));
    TaggedLine(team, pr, LinkText(pr) + AssigneesText(pr.assignees));
    SlackEscape(ClosedTag(pr.state)) + SlackEscape(TeamTag(team, pr.author)) + (LinkText(pr) + AssigneesText(pr.assignees))
  }

  /** The escaped tags followed by text that starts with a space: the line
      starts with exactly the tags, the space follows them, and the line is
      not "_None_". */
  lemma TaggedLine(team: seq<string>, pr: PullRequest, tail: string)
    requires |tail| > 0 && tail[0] == ' '
    ensures SlackEscape(ClosedTag(pr.state)) + SlackEscape(TeamTag(team, pr.author)) + tail == Tags(team, pr) + tail
    ensures |Tags(team, pr) + tail| > |Tags(team, pr)|
    ensures (Tags(team, pr) + tail)[..|Tags(team, pr)|] == Tags(team, pr)
    ensures (Tags(team, pr) + tail)[|Tags(team, pr)|] == ' '
    ensures Tags(team, pr) + tail != "_None_"
  {
    TagsNeedNoEscape(team, pr);
    var tags := Tags(team, pr);
    assert (tags + tail)[..|tags|] == tags;
    assert tags == "" || tags[0] == ' ';
    assert (tags + tail)[0] == ' ';
    assert "_None_"[0] == '_';
  }

  /** The link of a pull request's line starts with a space. */
  lemma LinkTextSpace(pr: PullRequest, more: string)
    ensures |LinkText(pr) + more| > 0 && (LinkText(pr) + more)[0] == ' '
  {
  }

  // ---------------------------------------------------------------------
  // Mentioned members.

  /** The mentioned logins that have an email mapping, in order. */
  function Mapped(github2Email: map<string, string>, logins: seq<string>): (r: seq<string>)
    ensures |r| <= |logins|
    ensures forall x :: x in r <==> x in logins && x in github2Email
    decreases |logins|
  {
    if |logins| == 0 then []
    else
      assert forall x :: x in logins <==> x == logins[0] || x in logins[1..];
      (if logins[0] in github2Email then [logins[0]] else []) + Mapped(github2Email, logins[1..])
  }

  /** The loop of formatGithubMentionsPRForSlackOutput: a login without an
      email mapping is skipped; every other one becomes its Slack mention,
      in order. */
  function SelectMentions(github2Email: map<string, string>, cache: map<string, string>, logins: seq<string>): (r: seq<string>)
    ensures |r| <= |logins|
    ensures r == [] <==> forall i :: 0 <= i < |logins| ==> logins[i] !in github2Email
    decreases |logins|
  {
    if |logins| == 0 then []
    else
      var rest := SelectMentions(github2Email, cache, logins[1..]);
      assert forall i :: 1 <= i < |logins| ==> logins[i] == logins[1..][i - 1];
      if logins[0] in github2Email then [BuildMention(cache, github2Email[logins[0]])] + rest
      else rest
  }

  /** The selection is the mapped logins, filtered first, each turned into
      its mention: one mention per mapped login, in the same order. */
  lemma {:induction false} SelectIsFilterThenMap(github2Email: map<string, string>, cache: map<string, string>, logins: seq<string>)
    ensures |SelectMentions(github2Email, cache, logins)| == |Mapped(github2Email, logins)|
    ensures forall k :: 0 <= k < |SelectMentions(github2Email, cache, logins)| ==>
      && Mapped(github2Email, logins)[k] in github2Email
      && SelectMentions(github2Email, cache, logins)[k] == BuildMention(cache, github2Email[Mapped(github2Email, logins)[k]])
    decreases |logins|
  {
    if |logins| > 0 {
      SelectIsFilterThenMap(github2Email, cache, logins[1..]);
      var m := Mapped(github2Email, logins);
      var m1 := Mapped(github2Email, logins[1..]);
      var r := SelectMentions(github2Email, cache, logins);
      var r1 := SelectMentions(github2Email, cache, logins[1..]);
      if logins[0] in github2Email {
        assert m == [logins[0]] + m1;
        assert r == [BuildMention(cache, github2Email[logins[0]])] + r1;
        forall k | 0 <= k < |r|
          ensures m[k] in github2Email && r[k] == BuildMention(cache, github2Email[m[k]])
        {
          if k > 0 {
            assert m[k] == m1[k - 1] && r[k] == r1[k - 1];
          }
        }
      } else {
        assert m == m1;
        assert r == r1;
      }
    }
  }

  /** formatGithubMentionsPRForSlackOutput: "_None_" when no mentioned
      member has an email mapping, otherwise the pull request's line with
      the mentions joined by commas. The line is "_None_" exactly when no
      mapping exists. */
  function MentionLine(team: seq<string>, github2Email: map<string, string>, cache: map<string, string>, rec: MentionRecord): (r: string)
    ensures r == "_None_" <==> forall i :: 0 <= i < |rec.mentions| ==> rec.mentions[i] !in github2Email
    ensures r != "_None_" ==> |r| > |Tags(team, rec.item)| && r[..|Tags(team, rec.item)|] == Tags(team, rec.item)
  {
    var selected := SelectMentions(github2Email, cache, rec.mentions);
    if |selected| == 0 then "_None_"
    else
      var pr := rec.item;
      var tail := LinkText(pr) + (" mentioned: " + Join(selected, ",") + AssigneesText(pr.assignees));
      LinkTextSpace(pr, " mentioned: " + Join(selected, ",") + AssigneesText(pr.assignees));
      TaggedLine(team, pr, tail);
      SlackEscape(ClosedTag(pr.state)) + SlackEscape(TeamTag(team, pr.author)) + tail
  }

  // ---------------------------------------------------------------------
  // One line per tracker issue.

  /** The JSON form of the due date: the quoted date, or the quoted zero
      date when the issue has none. */
  function DueText(due: Option<string>): (r: string)
    ensures |r| >= 2 && r[0] == '"' && r[|r| - 1] == '"'
    ensures r[1..|r| - 1] == (if due.Some? then due.value else "0001-01-01")
  {
    var d := if due.Some? then due.value else "0001-01-01";
    var r := "\"" + d + "\"";
    assert r[1..|r| - 1] == d;
    r
  }

  /** A field that may be missing, with "Unknown" in its place. */
  function OrUnknown(v: Option<string>): (r: string)
    ensures v.Some? ==> r == v.value
    ensures v.None? ==> r == "Unknown"
  {
    if v.Some? then v.value else "Unknown"
  }

  /** The opening of an issue's line: its status (or "Unknown"), escaped. */
  function StatusHead(issue: Issue): string
  {
    "[ " + SlackEscape(OrUnknown(issue.status)) + " / "
  }

  /** The closing of an issue's line when it has an assignee. */
  function AssignedTo(cache: map<string, string>, email: string): string
  {
    "assigned to " + BuildMention(cache, email)
  }

  /** formatJiraIssueForSlackOutput: status and priority (or "Unknown"),
      the due date, the issue link with its escaped summary, and the
      assignee's mention when there is one. */
  function JiraIssueLine(endpoint: string, cache: map<string, string>, issue: Issue): (r: string)
    ensures |r| > |StatusHead(issue)| && r[..|StatusHead(issue)|] == StatusHead(issue)
    ensures issue.assignee.None? ==> r[|r| - 1] == ' '
    ensures issue.assignee.Some? ==>
      |r| > |AssignedTo(cache, issue.assignee.value.email)|
      && r[|r| - |AssignedTo(cache, issue.assignee.value.email)|..] == AssignedTo(cache, issue.assignee.value.email)
  {
    var assignment := if issue.assignee.Some? then AssignedTo(cache, issue.assignee.value.email) else "";
    ThreeParts(StatusHead(issue), JiraMiddle(endpoint, issue), assignment);
    StatusHead(issue) + JiraMiddle(endpoint, issue) + assignment
  }

  /** The middle of an issue's line: priority, due date and the link with
      the escaped summary, ending in a space. */
  function JiraMiddle(endpoint: string, issue: Issue): (r: string)
    ensures |r| > 0 && r[|r| - 1] == ' '
  {
    var link := SlackEscape(OrUnknown(issue.priority)) + " ] DueDate:" + SlackEscape(DueText(issue.due))
      + " <" + endpoint + "/browse/" + issue.key + "|" + SlackEscape(issue.summary);
    EndsWithSpace(link, "> ");
    link + "> "
  }

  lemma EndsWithSpace(a: string, b: string)
    requires |b| > 0 && b[|b| - 1] == ' '
    ensures |a + b| > 0 && (a + b)[|a + b| - 1] == ' '
  {
    assert (a + b)[|a + b| - 1] == b[|b| - 1];
  }

  /** Three parts joined: the first is a prefix and the last a suffix of
      the whole, and with an empty last part the whole ends as the middle
      does. */
  lemma ThreeParts(a: string, b: string, c: string)
    requires |b| > 0
    ensures |a + b + c| > |a| && |a + b + c| >= |c|
    ensures (a + b + c)[..|a|] == a
    ensures (a + b + c)[|a + b + c| - |c|..] == c
    ensures c == "" ==> (a + b + c)[|a + b + c| - 1] == b[|b| - 1]
  {
    assert (a + b + c)[..|a|] == a;
    assert (a + b + c)[|a + b + c| - |c|..] == c;
  }

  // ---------------------------------------------------------------------
  // Bullet lists.

  /** One bullet line. */
  function Bullet(line: string): string
  {
    "\U{2022} " + line + "\n"
  }

  function BulletLines(lines: seq<string>): string
    decreases |lines|
  {
    if |lines| == 0 then "" else Bullet(lines[0]) + BulletLines(lines[1..])
  }

  /** The list rule shared by the three Slack list formatters: "_None_" on
      a line of its own for no elements, otherwise one bullet line per
      element. */
  function Bullets(lines: seq<string>): (r: string)
    ensures |lines| == 0 <==> r == "_None_\n"
  {
    if |lines| == 0 then "_None_\n"
    else
      assert Bullet(lines[0])[0] == '\U{2022}';
      assert (Bullet(lines[0]) + BulletLines(lines[1..]))[0] == '\U{2022}';
      BulletLines(lines)
  }

  /** The index of the first line break in `s`, or |s| when there is none. */
  function NewlineAt(s: string): (r: nat)
    ensures r <= |s|
    ensures r < |s| ==> s[r] == '\n'
    ensures forall i :: 0 <= i < r ==> s[i] != '\n'
    decreases |s|
  {
    if |s| == 0 then 0
    else if s[0] == '\n' then 0
    else 1 + NewlineAt(s[1..])
  }

  /** The lines of `s`: the pieces between line breaks, a final piece
      without a line break counting as a line. */
  function SplitLines(s: string): seq<string>
    decreases |s|
  {
    if |s| == 0 then []
    else
      var k := NewlineAt(s);
      if k == |s| then [s] else [s[..k]] + SplitLines(s[k + 1..])
  }

  lemma SplitFirstLine(line: string, rest: string)
    requires '\n' !in line
    ensures SplitLines(line + "\n" + rest) == [line] + SplitLines(rest)
  {
    var s := line + "\n" + rest;
    var k := NewlineAt(s);
    assert forall i :: 0 <= i < |line| ==> s[i] == line[i] && line[i] != '\n';
    assert s[|line|] == '\n';
    assert k == |line|;
    assert s[..k] == line;
    assert s[k + 1..] == rest;
  }

  /** The printed list splits back into its lines: "_None_" alone, or one
      "• element" line per element, when no element holds a line break. */
  lemma {:induction false} BulletsSplit(lines: seq<string>)
    requires forall i :: 0 <= i < |lines| ==> '\n' !in lines[i]
    ensures SplitLines(Bullets(lines)) ==
      if |lines| == 0 then ["_None_"] else seq(|lines|, i requires 0 <= i < |lines| => "\U{2022} " + lines[i])
  {
    if |lines| == 0 {
      SplitFirstLine("_None_", "");
      assert "_None_" + "\n" + "" == "_None_\n";
      assert SplitLines("") == [];
    } else {
      BulletLinesSplit(lines);
    }
  }

  lemma {:induction false} BulletLinesSplit(lines: seq<string>)
    requires forall i :: 0 <= i < |lines| ==> '\n' !in lines[i]
    ensures SplitLines(BulletLines(lines)) == seq(|lines|, i requires 0 <= i < |lines| => "\U{2022} " + lines[i])
    decreases |lines|
  {
    if |lines| > 0 {
      var head := "\U{2022} " + lines[0];
      assert '\n' !in head by {
        assert forall i :: 0 <= i < |head| ==> head[i] == '\U{2022}' || head[i] == ' ' || head[i] in lines[0];
      }
      assert BulletLines(lines) == head + "\n" + BulletLines(lines[1..]);
      SplitFirstLine(head, BulletLines(lines[1..]));
      assert forall i :: 0 <= i < |lines[1..]| ==> lines[1..][i] == lines[i + 1];
      BulletLinesSplit(lines[1..]);
    }
  }

  /** formatGitHubIssuesForSlackOutput. */
  function GitHubIssuesText(team: seq<string>, prs: seq<PullRequest>): (r: string)
    ensures r == "_None_\n" <==> |prs| == 0
  {
    Bullets(seq(|prs|, i requires 0 <= i < |prs| => GitHubIssueLine(team, prs[i])))
  }

  /** formatJiraIssuesForSlackOutput. */
  function JiraIssuesText(endpoint: string, cache: map<string, string>, issues: seq<Issue>): (r: string)
    ensures r == "_None_\n" <==> |issues| == 0
  {
    Bullets(seq(|issues|, i requires 0 <= i < |issues| => JiraIssueLine(endpoint, cache, issues[i])))
  }

  /** formatCollectMentionsPRForSlackOutput over the collector's records in
      `order` (Go's map order is unspecified; any order that lists each URL
      once will do). An empty collector gives "_None_". */
  function MentionsText(team: seq<string>, github2Email: map<string, string>, cache: map<string, string>,
                        c: Collector, order: seq<string>): (r: string)
    requires Distinct(order) && Elements(order) == c.Keys
    ensures r == "_None_\n" <==> |c| == 0
  {
    assert forall i :: 0 <= i < |order| ==> order[i] in c by {
      assert forall i :: 0 <= i < |order| ==> order[i] in Elements(order);
    }
    assert |order| == 0 <==> c == map[] by {
      if |order| > 0 {
        assert order[0] in Elements(order);
      }
    }
    Bullets(seq(|order|, i requires 0 <= i < |order| => MentionLine(team, github2Email, cache, c[order[i]])))
  }

  // ---------------------------------------------------------------------
  // Issues without a due date.

  /** Reference definition: the issues without a due date, in input order. */
  function WithoutDue(issues: seq<Issue>): (r: seq<Issue>)
    ensures |r| <= |issues|
    ensures forall x :: x in r <==> x in issues && x.due.None?
    decreases |issues|
  {
    if |issues| == 0 then []
    else
      var init := issues[..|issues| - 1];
      var x := issues[|issues| - 1];
      assert issues == init + [x];
      WithoutDue(init) + (if x.due.None? then [x] else [])
  }

  /** findOutIssuesWithoutDueDate: an empty input is returned as it is;
      otherwise the issues whose due date is the zero date, in input order. */
  method NoDueDate(issues: seq<Issue>) returns (r: seq<Issue>)
    ensures |issues| == 0 ==> r == issues
    ensures r == WithoutDue(issues)
  {
    if |issues| == 0 {
      return issues;
    }
    var noDue: seq<Issue> := [];
    var i := 0;
    while i < |issues|
      invariant 0 <= i <= |issues|
      invariant noDue == WithoutDue(issues[..i])
    {
      assert issues[..i + 1][..i] == issues[..i];
      if issues[i].due.None? {
        noDue := noDue + [issues[i]];
      }
      i := i + 1;
    }
    assert issues[..|issues|] == issues;
    return noDue;
  }

  /** A list of issues without due dates passes the filter unchanged. */
  lemma {:induction false} WithoutDueFixes(issues: seq<Issue>)
    requires forall i :: 0 <= i < |issues| ==> issues[i].due.None?
    ensures WithoutDue(issues) == issues
    decreases |issues|
  {
    if |issues| > 0 {
      var init := issues[..|issues| - 1];
      assert forall i :: 0 <= i < |init| ==> init[i] == issues[i];
      WithoutDueFixes(init);
      assert issues == init + [issues[|issues| - 1]];
    }
  }

  /** Filtering twice is filtering once. */
  lemma WithoutDueIdempotent(issues: seq<Issue>)
    ensures WithoutDue(WithoutDue(issues)) == WithoutDue(issues)
  {
    var w := WithoutDue(issues);
    assert forall i :: 0 <= i < |w| ==> w[i] in w;
    WithoutDueFixes(w);
  }

  /** The result keeps the input's order: it is the input with the dated
      issues taken out, so an issue before another in the result was before
      it in the input. */
  lemma {:induction false} WithoutDueKeepsOrder(issues: seq<Issue>, i: int, j: int)
    requires 0 <= i < j < |WithoutDue(issues)|
    ensures exists a, b :: 0 <= a < b < |issues| && issues[a] == WithoutDue(issues)[i] && issues[b] == WithoutDue(issues)[j]
    decreases |issues|
  {
    var init := issues[..|issues| - 1];
    var x := issues[|issues| - 1];
    var w := WithoutDue(init);
    var r := WithoutDue(issues);
    assert forall k :: 0 <= k < |init| ==> init[k] == issues[k];
    if j < |w| {
      WithoutDueKeepsOrder(init, i, j);
      var a, b :| 0 <= a < b < |init| && init[a] == w[i] && init[b] == w[j];
      assert issues[a] == r[i] && issues[b] == r[j];
    } else {
      assert r[j] == x;
      assert r[i] == w[i];
      assert w[i] in init;
      var a :| 0 <= a < |init| && init[a] == w[i];
      assert issues[a] == r[i] && issues[|issues| - 1] == r[j];
    }
  }
}
