/** The Confluence page fragments the reporter writes, as abstract tokens.
    Each token stands for one fixed piece of storage-format markup of
    html.go; the exact XML text of the macros is not modelled. */
module Markup {

  import opened Types
  import opened Text

  /** One fragment of a Confluence page. */
  datatype Html =
    | Heading(tag: string, text: string)      // <tag>text</tag>
    | LineBreak                               // <br/>
    | ListOpen                                // <ul>
    | ListClose                               // </ul>
    | ItemOpen                                // <li>
    | ItemClose                               // </li>
    | IssueMacro(key: string, suffix: string) // jira macro for `key`, then the progress suffix
    | IssueParagraph(key: string)             // <p> jira macro for `key` </p>
    | ExpandOpen(key: string)                 // expand macro titled "<key> linked issues"
    | LinkedIssuesMacro(key: string)          // jira table of non-epic issues linked to `key`
    | ExpandClose                             // end of the expand macro
    | GitHubEntry(pr: PullRequest, closed: bool, community: bool)
    | NoneParagraph                           // <p><i>None</i></p>

  /** The keys of the issues rendered with their progress, in page order. */
  function ShownKeys(out: seq<Html>): seq<string>
    decreases |out|
  {
    if |out| == 0 then []
    else (if out[0].IssueMacro? then [out[0].key] else []) + ShownKeys(out[1..])
  }

  lemma {:induction false} ShownKeysAppend(a: seq<Html>, b: seq<Html>)
    ensures ShownKeys(a + b) == ShownKeys(a) + ShownKeys(b)
    decreases |a|
  {
    if |a| == 0 {
      assert a + b == b;
    } else {
      assert (a + b)[1..] == a[1..] + b;
      ShownKeysAppend(a[1..], b);
    }
  }

  /** The keys shown in `out` are distinct and are exactly the keys that
      entered the visited set between `before` and `after`. */
  predicate ShowsNewlyVisited(out: seq<Html>, before: set<string>, after: set<string>)
  {
    Distinct(ShownKeys(out)) && Elements(ShownKeys(out)) == after - before
  }

  lemma DistinctConcat<T>(a: seq<T>, b: seq<T>)
    requires Distinct(a) && Distinct(b) && Elements(a) !! Elements(b)
    ensures Distinct(a + b)
  {
    forall i, j | 0 <= i < j < |a + b| ensures (a + b)[i] != (a + b)[j] {
      if j < |a| {
      } else if i >= |a| {
        assert (a + b)[i] == b[i - |a|] && (a + b)[j] == b[j - |a|];
      } else {
        assert (a + b)[i] in Elements(a);
        assert (a + b)[j] == b[j - |a|];
        assert (a + b)[j] in Elements(b);
      }
    }
  }

  /** Two pieces rendered one after the other, each showing the keys it newly
      visited, together show the keys newly visited by both. */
  lemma ComposeShown(a: seq<Html>, b: seq<Html>, v0: set<string>, v1: set<string>, v2: set<string>)
    requires v0 <= v1 <= v2
    requires ShowsNewlyVisited(a, v0, v1) && ShowsNewlyVisited(b, v1, v2)
    ensures ShowsNewlyVisited(a + b, v0, v2)
  {
    ShownKeysAppend(a, b);
    DistinctConcat(ShownKeys(a), ShownKeys(b));
    assert Elements(ShownKeys(a) + ShownKeys(b)) == Elements(ShownKeys(a)) + Elements(ShownKeys(b));
  }

  /** Wrapping in tokens that show nothing changes nothing. */
  lemma WrapShown(open: Html, body: seq<Html>, close: Html)
    requires !open.IssueMacro? && !close.IssueMacro?
    ensures ShownKeys([open] + body + [close]) == ShownKeys(body)
  {
    ShownKeysAppend([open] + body, [close]);
    ShownKeysAppend([open], body);
  }

  // ---------------------------------------------------------------------
  // The GitHub list of the weekly page.

  /** The item of one pull request: its entry between item tags, marked
      closed by its state and community when its author is not on the team
      (a case-insensitive login match). */
  function GitHubItem(team: seq<string>, pr: PullRequest): (r: seq<Html>)
    ensures |r| == 3 && r[0] == ItemOpen && r[2] == ItemClose
    ensures r[1].GitHubEntry? && r[1].pr == pr
    ensures r[1].closed <==> pr.state == "closed"
    ensures r[1].community <==> !ContainsFold(team, pr.author)
  {
    [ItemOpen, GitHubEntry(pr, pr.state == "closed", !ContainsFold(team, pr.author)), ItemClose]
  }

  /** The items of the pull requests, in order: the `i`-th three tokens are
      the item of the `i`-th pull request. */
  function GitHubItems(team: seq<string>, prs: seq<PullRequest>): (r: seq<Html>)
    ensures |r| == 3 * |prs|
    ensures forall i :: 0 <= i < |prs| ==> r[3 * i..3 * i + 3] == GitHubItem(team, prs[i])
    decreases |prs|
  {
    if |prs| == 0 then []
    else
      var rest := GitHubItems(team, prs[1..]);
      var r := GitHubItem(team, prs[0]) + rest;
      forall i | 0 < i < |prs| ensures r[3 * i..3 * i + 3] == GitHubItem(team, prs[i]) {
        assert prs[i] == prs[1..][i - 1];
        assert r[3 * i..3 * i + 3] == rest[3 * (i - 1)..3 * (i - 1) + 3];
      }
      assert r[0..3] == GitHubItem(team, prs[0]);
      r
  }

  /** formatGitHubIssuesForHtmlOutput: the "None" paragraph for no pull
      requests, otherwise a list with one item per pull request. */
  function GitHubList(team: seq<string>, prs: seq<PullRequest>): (r: seq<Html>)
    ensures r == [NoneParagraph] <==> |prs| == 0
    ensures |prs| > 0 ==> |r| == 3 * |prs| + 2 && r[0] == ListOpen && r[|r| - 1] == ListClose
    ensures |prs| > 0 ==> forall i :: 0 <= i < |prs| ==> r[1 + 3 * i..4 + 3 * i] == GitHubItem(team, prs[i])
  {
    if |prs| == 0 then [NoneParagraph]
    else
      var items := GitHubItems(team, prs);
      var r := [ListOpen] + items + [ListClose];
      forall i | 0 <= i < |prs| ensures r[1 + 3 * i..4 + 3 * i] == GitHubItem(team, prs[i]) {
        assert r[1 + 3 * i..4 + 3 * i] == items[3 * i..3 * i + 3];
      }
      r
  }

  /** The pull requests a page fragment lists, in order. */
  function EntriesOf(out: seq<Html>): seq<PullRequest>
    decreases |out|
  {
    if |out| == 0 then []
    else (if out[0].GitHubEntry? then [out[0].pr] else []) + EntriesOf(out[1..])
  }

  lemma {:induction false} EntriesOfAppend(a: seq<Html>, b: seq<Html>)
    ensures EntriesOf(a + b) == EntriesOf(a) + EntriesOf(b)
    ensures ShownKeys(a + b) == ShownKeys(a) + ShownKeys(b)
    decreases |a|
  {
    ShownKeysAppend(a, b);
    if |a| == 0 {
      assert a + b == b;
    } else {
      assert (a + b)[1..] == a[1..] + b;
      EntriesOfAppend(a[1..], b);
    }
  }

  lemma {:induction false} GitHubItemsRoundTrip(team: seq<string>, prs: seq<PullRequest>)
    ensures EntriesOf(GitHubItems(team, prs)) == prs
    ensures ShownKeys(GitHubItems(team, prs)) == []
    decreases |prs|
  {
    if |prs| > 0 {
      var item := GitHubItem(team, prs[0]);
      EntriesOfAppend(item, GitHubItems(team, prs[1..]));
      GitHubItemsRoundTrip(team, prs[1..]);
      var tail := item[1..];
      assert tail[1..][1..] == [];
      assert EntriesOf(tail[1..]) == [] && ShownKeys(tail[1..]) == [];
      assert EntriesOf(tail) == [prs[0]] && ShownKeys(tail) == [];
      assert EntriesOf(item) == [prs[0]];
      assert ShownKeys(item) == [];
      assert prs == [prs[0]] + prs[1..];
    }
  }

  /** The list lists exactly the given pull requests, in the given order,
      and shows no tracker issue. */
  lemma GitHubListRoundTrip(team: seq<string>, prs: seq<PullRequest>)
    ensures EntriesOf(GitHubList(team, prs)) == prs
    ensures ShownKeys(GitHubList(team, prs)) == []
  {
    if |prs| > 0 {
      GitHubItemsRoundTrip(team, prs);
      EntriesOfAppend([ListOpen], GitHubItems(team, prs));
      EntriesOfAppend([ListOpen] + GitHubItems(team, prs), [ListClose]);
    }
  }
}
