# work-reporter, modelled in Dafny

work-reporter writes a team's reports from the Jira tracker and from GitHub.
It has three kinds of output:

- a personal weekly page per member in Confluence;
- the linked-epic expansion used by release pages;
- a daily Slack message listing the pull requests that mention team members.

This project models the core of that program as pure functions over
immutable data. It covers these parts:

- **The visited set** (`IssueRepeatChecker`). It is a set of issue keys that
  each call threads through and returns, instead of a shared Go map.
- **Grouping by type** (`collectEpicJiraIssue`). Issues are grouped into
  buckets keyed by the lower-cased type name, each bucket in input order.
- **The recursive list rendering of a weekly page** (`html.go`). Each issue
  is checked against the visited set. An epic is shown and its children are
  listed under it. Any other issue is one line with a progress suffix. The
  tracker query that returns an epic's children is a function parameter, and
  every key it returns lies in a finite universe. Termination is proved on
  the number of universe keys not yet visited.
- **The progress suffix, the seven-day worklog window and the progress
  field.** The clock reading `now` is a parameter.
- **The linked-epic expansion.** As written, its only cycle guard is the
  exclusion of the immediate parent. The model gives it fuel and proves that
  a triangle of linked epics never finishes, whatever the fuel. The corrected
  expansion excludes the whole ancestor path and terminates without fuel.
- **The personal weekly page** (`createPersonalWeeklyReport`), the loop over
  all members, and the create-or-update of Confluence pages. The pages are a
  map from title to page.
- **The Slack rules.** These are:
  - the channel prefix;
  - the email-to-mention cache;
  - the team and closed tags;
  - the one-line renderings of pull requests and Jira issues;
  - the mention selection;
  - the bullet lists;
  - the filter for issues without a due date.
- **The GitHub list of the weekly page** and the collection of mentioned pull
  requests over the daily member loop.

Pages are sequences of abstract `Html` tokens. Each token stands for one
fixed piece of storage-format markup, such as a list tag, a Jira macro or an
expand macro. Slack messages are real strings, built with the escaping of
`slackutilsx.EscapeMessage` (`&`, `<`, `>`). The progress text uses the
escaping of `html.EscapeString` (`&`, `'`, `<`, `>`, `"`).

The code renders depth-first, so the epic example (E with children A, an epic,
and B, a task, where A has child C) is shown E, A, C, B;
`RenderExample.ExpansionOrderExample` proves it.

## Model

| member | source | states |
|---|---|---|
| RepeatChecker.Check | weekly.go:77-87 | The answer is "already seen" exactly when the key was in the set. Afterwards the key is in the set. A first encounter grows the set by exactly one key, and a repeat leaves it unchanged. |
| RepeatChecker.ReplayFirstOccurrence | weekly.go:80-87 | Over any run of checks, a check answers false exactly at the first occurrence of a key that was not visited before, and true at every later occurrence. |
| RepeatChecker.ReplayVisitsAll | weekly.go:80-87 | After a run of checks, the set is the old set plus every key checked. |
| RepeatChecker.CheckThenSeen | weekly.go:80-87 | Checking a key a second time answers true and changes nothing. |
| Classifier.Classify | weekly.go:61-75 | The bucket keys are exactly the lower-cased type names that occur. Each bucket is the reference filter of the input by that type, in input order, and is never empty. |
| Classifier.OfTypeMembers | weekly.go:63-71 | Every issue in a type's bucket has that type, and the bucket is a sub-multiset of the input. |
| Classifier.OfTypeEmptyIffAbsent | weekly.go:65-69 | The filter for a type is empty exactly when no issue has that type. This is why a bucket is created only on its first issue. |
| Classifier.ClassifyPlacesEachIssue | weekly.go:63-72 | Every input issue is in the bucket of its own lower-cased type, and every bucket holds only issues of that type. |
| Classifier.ClassifyPreservesCount | weekly.go:61-75 | For every order that visits each bucket once, the bucket sizes add up to the number of input issues. No issue is dropped or duplicated. |
| Classifier.ClassifyEmpty | weekly.go:61-75 | No issues give an empty map, not a map of empty buckets. |
| Classifier.ClassifyExample | weekly.go:61-75 | An Epic and a Task land in the buckets "epic" and "task". |
| Mentions.Collect | daily.go:33-48 | The keys afterwards are the old keys plus every URL in the pull-request list. An existing record keeps its snapshot and gains the member once per sighting. A new record holds the first snapshot. Records whose URL is not in the list are untouched, and well-formedness is kept. |
| Mentions.MergeKeepsWellFormed | daily.go:36-46 | One loop step keeps every record keyed by its own URL and its mention list non-empty. |
| Mentions.CollectAddsOnePerPR | daily.go:33-48 | The mention lists grow in total by exactly the number of pull requests passed in, duplicates included. |
| Mentions.CollectAll | daily.go:62-66 | The member loop produces a well-formed collector. |
| Mentions.CollectAllMatchesSightings | daily.go:62-66 | After the member loop there is one record per URL sighted. Its mentions are the sighting members in member order, and its snapshot is the first one sighted. |
| Mentions.TwoMembersOneRecord | daily.go:62-66 | Two members mentioned by one pull request give one record that mentions both, in member order. |
| Worklogs.LatestThisWeek | html.go:103-119 | There is a result exactly when the log is present and non-empty and its last entry is at most seven days old. The result is that last entry. |
| Worklogs.ThisWeek | html.go:83-101 | A missing or empty log gives nil. Otherwise the result is the longest run of entries at most seven days old at the end of the log, newest first, and the scan stopped at a stale entry when it stopped early. Its first entry is what LatestThisWeek returns. |
| Progress.ProgressField | html.go:60-71 | The progress custom field when it is present and holds a string, otherwise the empty string. |
| Progress.ProgressText | html.go:144-152 | "@DisplayName " is added exactly when the issue is under an epic with an assignee whose key differs from the issue's assignee. The comment of this week's latest worklog follows when there is one. The text is exactly these two parts, so with neither it is empty. |
| Progress.ProgressSuffix | html.go:154-157 | The suffix is empty exactly when the progress text is. Otherwise it is ": " followed by text that unescapes back to the progress text. |
| Text.HtmlEscapeRoundTrip | html.go:155 | Unescaping the HTML-escaped text gives the text back. |
| Text.SlackEscapeRoundTrip | slack.go:49 | Unescaping the Slack-escaped text gives the text back. |
| Render.IssueLine | html.go:136-158 | An issue's line is its own macro, and the suffix is empty exactly when there is no progress text. |
| Render.ChildQueryOf | html.go:206-216 | The epic's children query adds the sub-task keys exactly when the epic has sub-tasks. |
| Render.RenderList | html.go:160-178 | An empty list writes nothing and leaves the set alone. Otherwise the output is one list. Every listed issue is visited afterwards, and the set grows only by universe keys. The keys shown are distinct and are exactly the keys newly visited. |
| Render.RenderItems | html.go:167-175 | The loop visits every listed issue and shows exactly the newly visited keys, each once. An already-visited issue is neither shown nor expanded. |
| Render.RenderIssue | html.go:73-81 | The first fragment is the issue's line. An epic's line is computed without an enclosing epic, and any other issue's line against the enclosing epic. A non-epic issue is that one line and changes nothing. |
| Render.RenderEpic | html.go:199-219 | The epic's own line comes first, then the list of its children, each of which ends up visited. |
| Render.ItemsUnfoldSeen | html.go:167-171 | An issue already visited is skipped: the loop over the list is the loop over the rest with the same set, so the issue is neither shown nor expanded. |
| Render.ItemsAllVisited | html.go:167-171 | Items whose keys are all visited render to nothing and visit nothing. |
| Render.ListAllVisited | html.go:160-178 | A non-empty list whose keys are all visited renders as an empty list and changes nothing. |
| Render.RerenderShowsNothing | html.go:160-178 | Rendering a list again with the set the first render produced shows no issue and changes nothing. |
| Render.ReexpandShowsOnlyEpic | html.go:199-219 | Expanding an epic whose children are all visited writes only the epic's line and an empty list. |
| RenderSteps.ItemsShownFresh | html.go:167-175 | For a first issue not yet visited, the loop shows that issue's keys and then the rest's keys, the rest rendered with the set the first issue left. |
| RenderSteps.EpicShown | html.go:199-219 | An epic with children shows its own key and then exactly the keys of its children's items, and leaves the set those items leave. |
| RenderSteps.TaskItem | html.go:167-175 | A lone task not yet visited shows only its own key and adds only that key to the set. |
| RenderSteps.EpicWithOneTask | html.go:199-219 | An epic whose only child is an unvisited task shows the epic's key and the task's key, and adds only the task's key. |
| RenderSteps.IssueThenTask | html.go:167-175 | An issue followed by a task that the issue's expansion does not reach shows the issue's keys and then the task's key. |
| RenderSteps.EpicAloneList | html.go:160-178 | A list holding one unvisited epic shows exactly what the epic's expansion shows. |
| RenderExample.ExpansionOrderExample | html.go:160-219 | E with children A (an epic) and B, where A has child C, is shown in the order E, A, C, B. |
| RenderExample.ExampleRerender | html.go:160-178 | Listing E again with the set the first listing left shows no issue. |
| LinkedEpics.Without | html.go:242 | An epic is kept exactly when it was listed and its key is not excluded. |
| LinkedEpics.LinkedEpicsOf | html.go:240-245 | At the top the query is the bare linked-epic list. Under a parent it lists exactly the linked epics whose key differs from the parent's. |
| LinkedEpics.Expand | html.go:221-258 | As written, with fuel: no fuel gives no result. A result opens with the issue's expand macro and its linked-issues table, closes that macro last, and is balanced. |
| LinkedEpics.ExpandAll | html.go:247-251 | The loop over linked epics gives a balanced sequence, and nothing for no epics. |
| LinkedEpics.ExpandUnfold | html.go:221-258 | The expansion as written is the frame around the loop over the issue's linked epics, with the issue itself as the next parent; it has a result exactly when the loop has one. |
| LinkedEpics.ExpandAllUnfold | html.go:247-251 | The loop shows the first epic's paragraph, then that epic's expansion under the loop's issue, then the rest; it has a result exactly when both parts have one. |
| LinkedEpics.ExpandFuelMonotone | html.go:221-258 | More fuel never changes a result that was reached. |
| LinkedEpics.PairTerminates | html.go:221-258 | Two epics linked to each other expand in two levels to the expected seven tokens. The parent exclusion stops the back-edge. |
| LinkedEpics.CycleStep | html.go:241-251 | An epic whose nested query lists only one epic, which under it does not finish, does not finish either: the loop has no result, so neither has the frame. |
| LinkedEpics.TriangleCycle | html.go:241-251 | On three epics all linked to each other, the nested expansions of Y under X, Z under Y and X under Z never finish, for any fuel. |
| LinkedEpics.TriangleNeverFinishes | html.go:241-251 | On the triangle, the expansion of X never finishes, whatever the fuel. |
| LinkedEpics.ExpandOnPath | html.go:221-258 | Corrected expansion: it always finishes. Its output is balanced and opens with the issue's frame, and no nested expansion is of an issue on the ancestor path. |
| LinkedEpics.ExpandOnPathAll | html.go:247-251 | The corrected loop is balanced and expands no epic on the ancestor path. |
| LinkedEpics.OnPathListsFewer | html.go:241-242 | At each level the corrected expansion lists a sub-list of what the query as written lists. |
| LinkedEpics.TriangleOnPath | html.go:221-258 | On the triangle, the corrected expansion of X expands X, Y, Z, Z, Y and finishes. |
| Markup.GitHubItem | html.go:260-296 | A pull request's entry is marked closed exactly when its state is "closed". It is marked community exactly when its author is not on the team, matching logins case-insensitively. |
| Markup.GitHubItems | html.go:303-307 | One item of three tokens per pull request, in order: the i-th item is the one `Markup.GitHubItem` builds for the i-th pull request. |
| Markup.GitHubList | html.go:298-308 | No pull requests give the "None" paragraph, and only then. Otherwise the output is one list whose i-th item is the item of the i-th pull request, marked closed and community as that pull request calls for. |
| Markup.GitHubListRoundTrip | html.go:298-308 | The list lists exactly the given pull requests, in order, and shows no tracker issue. |
| PageStore.ParentRef | weekly.go:264-265 | A new page's parent is the parent page when it exists, and none otherwise. |
| PageStore.Create | confluence.go:123-145 | A page is added under its parent with the given body at version 1, and no other page changes. |
| PageStore.Update | confluence.go:147-169 | The body is replaced and the version goes up by one. The page keeps its parent, and no other page changes. |
| PageStore.EnsurePath | weekly.go:271-279 | An existing date page is left alone. A missing one is created empty under "Personal Weekly Report 2019". |
| PageStore.PersonalTitle | weekly.go:283 | The title is the date, a space, then the name. |
| PageStore.UpsertPersonal | weekly.go:281-292 | An existing page is updated in place. Otherwise the date page is made sure of and the page is created under it at version 1. The page then holds the body, and no other page except a new date page is touched. |
| PageStore.UpsertWeekly | weekly.go:257-269 | The same create-or-update for the team page, created under the configured weekly path. |
| PageStore.EnsurePathIdempotent | weekly.go:271-279 | Making sure of the date page twice is the same as once. |
| PageStore.UpsertPersonalTwice | weekly.go:281-292 | A second write updates the page the first write created: same pages, the second body, one version higher, and other pages unchanged. |
| PageStore.NewPageUnderDate | weekly.go:287-291 | A newly written page hangs under its date page, which exists afterwards and is unchanged if it existed before. |
| PageStore.PersonalTitleInjective | weekly.go:283 | Different names give different titles on one date, and no title is the date page's own title. |
| Weekly.EpicPart | weekly.go:97-102 | The epic section shows each key once, and every epic of the member is visited by it. With no epic bucket it writes nothing. |
| Weekly.Sections | weekly.go:105-113 | The other sections skip the epic bucket. Every issue of every other bucket is visited, and the keys shown are exactly those newly visited. |
| Weekly.SectionsSkipEpic | weekly.go:104-108 | The epic bucket gets no section of its own among the other sections: the loop goes on past it with the same set. |
| Weekly.PersonalReport | weekly.go:89-114 | For every bucket order, the page starts with the " Works of this week" heading. Its shown keys are distinct, and every issue of the member is shown. |
| Weekly.EpicSectionFirst | weekly.go:96-113 | Epics come first: every epic is shown in the epic section, and nothing the epic section visited is shown again in a later section. |
| Weekly.FirstSeen | weekly.go:105 | The type keys in order of first occurrence visit every bucket exactly once, so they form one admissible map order. |
| Weekly.AllMembers | weekly.go:124-128 | Every member of every team is in the combined list, and nothing else is. |
| Weekly.MemberReport | weekly.go:89-114 | A member's page shows every one of the member's issues, each once. |
| Weekly.WriteAll | weekly.go:124-128 | Every member's page exists afterwards, and no page is lost. |
| Weekly.WriteAllKeeps | weekly.go:124-128 | A page that no later member writes keeps what it had. |
| Weekly.RunWeekly | weekly.go:121-129 | After the run, every member of every team has a page for the date. |
| Weekly.EachMemberFresh | weekly.go:89-129 | Each member gets a fresh visited set. With distinct names, each member's page holds exactly that member's report, even when an issue was shown on an earlier member's page. |
| Slack.ChannelTarget | slack.go:58-65 | An empty channel sends nothing. Otherwise the target starts with '#'. It equals the name exactly when the name already starts with '#', and is '#' plus the name otherwise. |
| Slack.ChannelTargetIdempotent | slack.go:63-65 | The '#' is added at most once. |
| Slack.BuildCache | slack.go:39-41 | The cache keys are exactly the lower-cased emails. Each key maps to the id of the last user with that email. |
| Slack.BuildMention | slack.go:45-52 | A cached email gives "<@id>". An uncached one gives text that unescapes to the email. |
| Slack.MentionIgnoresCase | slack.go:47 | Two spellings of a cached email that differ only in case give the same mention. |
| Slack.ListedUserFound | slack.go:39-52 | A listed user is found under any case of their email, as the last user with that email. |
| Slack.TeamTag | slack.go:84-93 | The tag is " _(NotDDLTeam)_" exactly when the author is not on the team, and empty otherwise. |
| Slack.TeamTagIgnoresCase | slack.go:84-89 | Team membership does not depend on the login's case. |
| Slack.ClosedTag | slack.go:94-97 | The tag is " _(Closed)_" exactly when the state is "closed", and empty otherwise. |
| Slack.TagsNeedNoEscape | slack.go:102-103 | Escaping leaves both tags as they are. |
| Slack.AssigneesText | slack.go:109-114 | The assignee text is empty exactly when there are no assignees. |
| Slack.GitHubIssueLine | slack.go:80-117 | The line starts with exactly the closed tag and the team tag that the state and author call for, followed by the link. |
| Slack.TaggedLine | slack.go:99-107 | Escaped tags followed by text that starts with a space give a line that starts with exactly the tags and a space, and that is never "_None_". |
| Slack.SelectMentions | slack.go:120-127 | The selection is empty exactly when no mentioned login has an email mapping. |
| Slack.SelectIsFilterThenMap | slack.go:120-127 | The selection has one mention per mapped login, in order. It is the mapped logins filtered first, then each turned into its Slack mention. |
| Slack.MentionLine | slack.go:119-171 | The line is "_None_" exactly when no mentioned login has an email mapping. Otherwise it starts with the tags. |
| Slack.DueText | slack.go:188 | The due date in quotes, or the quoted zero date "0001-01-01" when there is none. |
| Slack.OrUnknown | slack.go:175-182 | A missing status or priority reads "Unknown". |
| Slack.JiraIssueLine | slack.go:173-198 | The line opens with "[ status / ", using "Unknown" for no status. It ends with "assigned to " and the assignee's mention, or with a space when there is no assignee. |
| Slack.Bullets | slack.go:200-208 | No elements give "_None_" on its own line, and only then. |
| Slack.BulletsSplit | slack.go:200-208 | When no element holds a line break, the printed list splits back into "_None_" or one "• element" line per element. |
| Slack.GitHubIssuesText | slack.go:200-208 | The list is "_None_" exactly when there are no pull requests. |
| Slack.MentionsText | slack.go:210-219 | For every order that visits each record once, the list is "_None_" exactly when the collector is empty. |
| Slack.JiraIssuesText | slack.go:221-229 | The list is "_None_" exactly when there are no issues. |
| Slack.WithoutDue | slack.go:236-241 | Reference filter: an issue is kept exactly when it has no due date. |
| Slack.NoDueDate | slack.go:231-244 | Empty input is returned as it is. Otherwise the loop returns the reference filter. |
| Slack.WithoutDueIdempotent | slack.go:231-244 | Filtering twice is the same as filtering once. |
| Slack.WithoutDueKeepsOrder | slack.go:237-241 | Two issues in the result appear in the same order in the input. |

## Left out

- I/O is outside the model. This covers the Jira, GitHub, Slack and Confluence HTTP clients, the JQL strings, configuration loading, the Cobra commands and `perror`. Queries are function parameters: the tracker, the linked-epic lists, the Slack user list and the per-member issue lists. Error exits are not modelled, including the one for an empty Slack user list. Nil-pointer panics are not modelled either: an issue always has its fields (slack.go:188, 195 and 237 dereference `issue.Fields` without the guard of lines 176-186), and a worklog always has its update time (html.go:95, 115 dereference `*Updated`).
- Time is outside the model. The clock is the parameter `now` in nanoseconds, and one reading is used for a whole render. The Go code reads `time.Now()` on each call. Durations do not saturate.
- The date string of a weekly page (weekly.go:117) is a parameter, because it is formatted from the clock.
- Go's map iteration order is unspecified. `Weekly.PersonalReport` and `Slack.MentionsText` hold for every order that visits each key once. `Weekly.FirstSeen` supplies one such order.
- Weekly.MemberReport: the page written for a member is the rendering in the `FirstSeen` bucket order, so `Weekly.WriteAll`, `Weekly.RunWeekly` and `Weekly.EachMemberFresh` describe that one order, while the `range` at weekly.go:105 may take any order on each run; the properties of `Weekly.PersonalReport` hold for all of them.
- `strings.ToLower` and `strings.EqualFold` are modelled for ASCII letters only.
- Markup is abstract tokens, not the XML text of the macros. The repository label (`regexRepo`) is not modelled, and neither is the panic its `FindStringSubmatch(url)[1]` raises on a URL it does not match (html.go:278): every pull request is given its entry. The colour names of the HTML pull-request labels are abstract: the `closed` flag of `Markup.GitHubItem` stands for the Green/Grey choice. Configuration values such as server ids are not modelled either.
- The weekly page calls `formatUnorderedListIssuesForHtmlOutput` with three arguments (weekly.go:101, 111), while html.go:160 takes four. The model passes no enclosing epic at the top level.
- The daily message assembly (daily.go:50-96), `formatSectionForSlackOutput` and the posting itself are not modelled. Only the pieces listed in the table are.
- Page ids are not modelled; pages are keyed by title in one space. A parent page that does not exist gives a page with no parent, which stands for the empty ancestor id the source sends. The version number 1 of a new page is Confluence's numbering, not something the source sets.
- The weekly deadline report, the rotate-sprint command, `genWeeklyUserPage` and version-release.go are outside this model.
- A due date is absent (`None`) exactly when Go's `IsZero` holds. A due date explicitly set to the zero date is not distinguished.
- Slack.GitHubIssueLine: the contract states the tag prefix only. It does not state the link, title and assignee text that follow.
- Slack.MentionLine: the contract states the "_None_" condition and the tag prefix only. It does not state the joined mention text.
- Slack.JiraIssueLine: the contract states the opening status field and the closing assignment only. It does not state the priority, due date and link in between.
- LinkedEpics.Expand: the unbounded recursion is modelled with fuel. A `None` result means "needs more nesting than the fuel allows", and `LinkedEpics.TriangleNeverFinishes` shows that no fuel suffices on a cycle of three.

## Findings

| source | as written | input that shows it | evidently intended | confidence | as-written member | corrected member |
|---|---|---|---|---|---|---|
| html.go:241-251 | A nested linked-epic expansion excludes only its immediate parent's key, so a longer cycle of linked epics is walked forever. | Epics X, Y, Z each linked to the other two. Expanding X expands Y under X, which lists Z; Z under Y lists X; X under Z lists Y; and so on. | The expansion terminates on any link graph, for example by excluding every ancestor on the path. | not executed | LinkedEpics.TriangleNeverFinishes | LinkedEpics.TriangleOnPath |
