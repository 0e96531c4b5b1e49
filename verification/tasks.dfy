/**
 * The task record shared by the dashboard, the editor dialog and the task
 * card, with the two enumerations and their wire names, the draft a save
 * submits, the reply of a remote call and the toast a handler raises.
 */
module Tasks {
  import opened Wrappers

  datatype Status = Pending | InProgress | Completed
  datatype Priority = Low | Medium | High

  /** The string the store and the UI use for a status. */
  function StatusName(s: Status): string {
    match s
    case Pending => "pending"
    case InProgress => "in-progress"
    case Completed => "completed"
  }

  /** The string the store and the UI use for a priority. */
  function PriorityName(p: Priority): string {
    match p
    case Low => "low"
    case Medium => "medium"
    case High => "high"
  }

  /** Reads a status back from its name; any other string is not a status. */
  function ParseStatus(s: string): (r: Option<Status>)
    ensures r.Some? ==> StatusName(r.value) == s
  {
    if s == "pending" then Some(Pending)
    else if s == "in-progress" then Some(InProgress)
    else if s == "completed" then Some(Completed)
    else None
  }

  /** Reads a priority back from its name; any other string is not a priority. */
  function ParsePriority(s: string): (r: Option<Priority>)
    ensures r.Some? ==> PriorityName(r.value) == s
  {
    if s == "low" then Some(Low)
    else if s == "medium" then Some(Medium)
    else if s == "high" then Some(High)
    else None
  }

  /** The status name as displayed (`status.replace('-', ' ')`): the dash becomes a space. */
  function StatusLabel(s: Status): (r: string)
    ensures |r| == |StatusName(s)|
    ensures forall i :: 0 <= i < |r| ==> r[i] == (if StatusName(s)[i] == '-' then ' ' else StatusName(s)[i])
  {
    var name := StatusName(s);
    assert forall i, j :: 0 <= i < j < |name| && name[i] == '-' ==> name[j] != '-';
    ReplaceFirst(name, '-', ' ')
  }

  /** JavaScript's `s.replace(a, b)` with a one-character pattern: only the first occurrence changes. */
  function ReplaceFirst(s: string, a: char, b: char): (r: string)
    ensures |r| == |s|
    ensures forall i :: 0 <= i < |s| ==> r[i] == (if s[i] == a && a !in s[..i] then b else s[i])
  {
    if s == [] then []
    else if s[0] == a then [b] + s[1..]
    else [s[0]] + ReplaceFirst(s[1..], a, b)
  }

  /** Every status name parses back to its status, so names are distinct. */
  lemma StatusNameRoundTrip(s: Status)
    ensures ParseStatus(StatusName(s)) == Some(s)
  {
  }

  /** Every priority name parses back to its priority, so names are distinct. */
  lemma PriorityNameRoundTrip(p: Priority)
    ensures ParsePriority(PriorityName(p)) == Some(p)
  {
  }

  /**
   * A task row as the store returns it. `id`, `createdAt` and `updatedAt`
   * are assigned by the store; `userId` is the owner.
   */
  datatype Task = Task(
    id: string,
    title: string,
    description: Option<string>,
    status: Status,
    priority: Priority,
    dueDate: Option<string>,
    createdAt: string,
    updatedAt: string,
    userId: string)

  /**
   * The partial task a save hands to the dashboard: a title, and the other
   * editable fields, any of which may be missing or null.
   */
  datatype Draft = Draft(
    title: string,
    description: Option<string>,
    status: Option<Status>,
    priority: Option<Priority>,
    dueDate: Option<string>)

  /**
   * The outcome of one remote call: data, a response that carries an
   * error, or a thrown exception.
   */
  datatype Reply<T> = Ok(value: T) | Err | Threw

  /** A transient notification (title, description, destructive styling). */
  datatype Toast = Toast(title: string, description: string, destructive: bool)
}
