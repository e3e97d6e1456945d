/** The records the reporter reads from the issue tracker and the code host.
    They are read-only snapshots: nothing in the model ever changes one. */
module Types {

  /** An optional value; `None` stands for Go's nil pointer or absent field. */
  datatype Option<T> = None | Some(value: T)

  /** A tracker user as it appears in an issue's assignee field. */
  datatype User = User(key: string, displayName: string, email: string)

  /** One worklog entry; `updated` is a timestamp in nanoseconds. */
  datatype Worklog = Worklog(updated: int, comment: string)

  /** A decoded custom-field value: only string values are meaningful here. */
  datatype FieldValue = StringValue(text: string) | OtherValue

  /** A tracker issue.
      - `typeName` is the type as the tracker spells it ("Epic", "Task", ...);
      - `due` is None when the due date is the zero time, otherwise the date text;
      - `subtasks` holds the keys of the issue's sub-tasks;
      - `worklog` is None when the worklog field is absent;
      - `progress` is the raw progress custom field, when present. */
  datatype Issue = Issue(
    key: string,
    typeName: string,
    summary: string,
    status: Option<string>,
    priority: Option<string>,
    assignee: Option<User>,
    due: Option<string>,
    subtasks: seq<string>,
    worklog: Option<seq<Worklog>>,
    progress: Option<FieldValue>
  )

  /** A pull request or issue of the code host; its web URL identifies it. */
  datatype PullRequest = PullRequest(
    url: string,
    title: string,
    author: string,
    state: string,
    assignees: seq<string>
  )

  /** A configured team member. */
  datatype Member = Member(name: string, email: string, github: string)

  /** Every key of `issues` lies in `universe`. */
  predicate KeysWithin(issues: seq<Issue>, universe: set<string>)
  {
    forall i :: 0 <= i < |issues| ==> issues[i].key in universe
  }

  /** No element occurs twice. */
  predicate Distinct<T(==)>(s: seq<T>)
  {
    forall i, j :: 0 <= i < j < |s| ==> s[i] != s[j]
  }

  /** The set of elements of a sequence. */
  function Elements<T>(s: seq<T>): set<T>
  {
    set x | x in s
  }
}
