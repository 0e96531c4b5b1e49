/**
 * The pure side of the task editor: the form record, the schema rules the
 * form is checked against before a save, the error map those rules produce,
 * and the payload a valid form is saved as.
 */
module TaskForm {
  import opened Wrappers
  import opened Tasks

  datatype Field = TitleField | DescriptionField | StatusField | PriorityField | DueDateField

  /** The editor's fields, all held as the strings the inputs produce. */
  datatype Form = Form(title: string, description: string, status: string, priority: string, dueDate: string)

  /** The value of one field. */
  function Get(f: Form, k: Field): string {
    match k
    case TitleField => f.title
    case DescriptionField => f.description
    case StatusField => f.status
    case PriorityField => f.priority
    case DueDateField => f.dueDate
  }

  /** `{ ...prev, [field]: value }`: field `k` becomes `v`, the others keep their value. */
  function With(f: Form, k: Field, v: string): (r: Form)
    ensures Get(r, k) == v
    ensures forall k' :: k' != k ==> Get(r, k') == Get(f, k')
  {
    match k
    case TitleField => f.(title := v)
    case DescriptionField => f.(description := v)
    case StatusField => f.(status := v)
    case PriorityField => f.(priority := v)
    case DueDateField => f.(dueDate := v)
  }

  /** The form of create mode. */
  const DefaultForm := Form("", "", "pending", "medium", "")

  /** The form of edit mode: the task's fields, a null description or due date shown as "". */
  function FromTask(t: Task): (r: Form)
    ensures ParseStatus(r.status) == Some(t.status) && ParsePriority(r.priority) == Some(t.priority)
    ensures r.title == t.title
    ensures r.description == "" <==> t.description.None? || t.description == Some("")
    ensures r.dueDate == "" <==> t.dueDate.None? || t.dueDate == Some("")
    ensures t.description.Some? ==> r.description == t.description.value
    ensures t.dueDate.Some? ==> r.dueDate == t.dueDate.value
  {
    StatusNameRoundTrip(t.status);
    PriorityNameRoundTrip(t.priority);
    Form(t.title, t.description.GetOr(""), StatusName(t.status), PriorityName(t.priority), t.dueDate.GetOr(""))
  }

  const TitleMax := 100
  const DescriptionMax := 500
  const TitleRequired := "Title is required"
  const TitleTooLong := "Title must be less than 100 characters"
  const DescriptionTooLong := "Description must be less than 500 characters"

  /** The message an enumeration check gives for a value outside its options. */
  function EnumMessage(options: string, received: string): string {
    "Invalid enum value. Expected " + options + ", received '" + received + "'"
  }

  /**
   * The schema's verdict on one field, `None` when the field passes. An empty
   * description or due date is checked as absent; a due date is never refused.
   */
  function FieldIssue(f: Form, k: Field): (r: Option<string>)
    ensures k == TitleField ==> (r.None? <==> 1 <= |f.title| <= TitleMax)
    ensures k == TitleField && f.title == "" ==> r == Some(TitleRequired)
    ensures k == DescriptionField ==> (r.None? <==> f.description == "" || |f.description| <= DescriptionMax)
    ensures k == StatusField ==> (r.None? <==> ParseStatus(f.status).Some?)
    ensures k == PriorityField ==> (r.None? <==> ParsePriority(f.priority).Some?)
    ensures k == DueDateField ==> r.None?
  {
    match k
    case TitleField =>
      if |f.title| < 1 then Some(TitleRequired)
      else if |f.title| > TitleMax then Some(TitleTooLong)
      else None
    case DescriptionField =>
      if f.description != "" && |f.description| > DescriptionMax then Some(DescriptionTooLong) else None
    case StatusField =>
      if ParseStatus(f.status).None?
      then Some(EnumMessage("'pending' | 'in-progress' | 'completed'", f.status))
      else None
    case PriorityField =>
      if ParsePriority(f.priority).None?
      then Some(EnumMessage("'low' | 'medium' | 'high'", f.priority))
      else None
    case DueDateField => None
  }

  /** One failed check: the field it concerns and its message. */
  datatype Issue = Issue(field: Field, message: string)

  /** The order in which the schema declares its fields. */
  const FieldOrder := [TitleField, DescriptionField, StatusField, PriorityField, DueDateField]

  predicate DistinctFields(ks: seq<Field>) {
    forall i, j :: 0 <= i < j < |ks| ==> ks[i] != ks[j]
  }

  predicate DistinctIssues(iss: seq<Issue>) {
    forall i, j :: 0 <= i < j < |iss| ==> iss[i].field != iss[j].field
  }

  /** The issues the fields `ks` raise, in the order of `ks`. */
  function IssuesFor(f: Form, ks: seq<Field>): (r: seq<Issue>)
    ensures |r| <= |ks|
    ensures r == [] <==> forall k :: k in ks ==> FieldIssue(f, k).None?
  {
    if ks == [] then []
    else
      var rest := IssuesFor(f, ks[1..]);
      match FieldIssue(f, ks[0])
      case Some(m) => [Issue(ks[0], m)] + rest
      case None => rest
  }

  /** Every issue reported concerns a listed field and carries that field's own message. */
  lemma {:induction false} IssuesForSound(f: Form, ks: seq<Field>)
    ensures forall j :: 0 <= j < |IssuesFor(f, ks)| ==>
              IssuesFor(f, ks)[j].field in ks && FieldIssue(f, IssuesFor(f, ks)[j].field) == Some(IssuesFor(f, ks)[j].message)
  {
    if ks != [] {
      IssuesForSound(f, ks[1..]);
      var rest := IssuesFor(f, ks[1..]);
      var r := IssuesFor(f, ks);
      if FieldIssue(f, ks[0]).Some? {
        assert forall j :: 1 <= j < |r| ==> r[j] == rest[j - 1];
      }
    }
  }

  /** Every listed field that fails its rule is reported. */
  lemma {:induction false} IssuesForComplete(f: Form, ks: seq<Field>, k: Field)
    requires k in ks && FieldIssue(f, k).Some?
    ensures exists j :: 0 <= j < |IssuesFor(f, ks)| && IssuesFor(f, ks)[j].field == k
  {
    var r := IssuesFor(f, ks);
    var rest := IssuesFor(f, ks[1..]);
    if k == ks[0] {
      assert r[0].field == k;
    } else {
      IssuesForComplete(f, ks[1..], k);
      var j :| 0 <= j < |rest| && rest[j].field == k;
      if FieldIssue(f, ks[0]).Some? {
        assert r[j + 1] == rest[j];
      } else {
        assert r[j] == rest[j];
      }
    }
  }

  /** Listing each field once reports each field at most once. */
  lemma {:induction false} IssuesForDistinct(f: Form, ks: seq<Field>)
    requires DistinctFields(ks)
    ensures DistinctIssues(IssuesFor(f, ks))
  {
    if ks != [] {
      assert DistinctFields(ks[1..]);
      IssuesForDistinct(f, ks[1..]);
      IssuesForSound(f, ks[1..]);
      var rest := IssuesFor(f, ks[1..]);
      var r := IssuesFor(f, ks);
      if FieldIssue(f, ks[0]).Some? {
        assert ks[0] !in ks[1..];
        assert forall j :: 1 <= j < |r| ==> r[j] == rest[j - 1];
      }
    }
  }

  /**
   * The issues `taskSchema.parse` reports for the form: at most one per
   * field, each carrying its field's own message.
   */
  function Issues(f: Form): (r: seq<Issue>)
    ensures |r| <= |FieldOrder|
    ensures DistinctIssues(r)
    ensures forall j :: 0 <= j < |r| ==> FieldIssue(f, r[j].field) == Some(r[j].message)
  {
    IssuesForSound(f, FieldOrder);
    IssuesForDistinct(f, FieldOrder);
    IssuesFor(f, FieldOrder)
  }

  /** The form passes the schema: no field breaks its rule. */
  predicate FormValid(f: Form)
    ensures FormValid(f) <==> forall k :: FieldIssue(f, k).None?
  {
    AllFieldsListed();
    Issues(f) == []
  }

  /** The form passes exactly when each field passes its own rule. */
  lemma FormValidIff(f: Form)
    ensures FormValid(f) <==>
              1 <= |f.title| <= TitleMax
              && (f.description == "" || |f.description| <= DescriptionMax)
              && ParseStatus(f.status).Some?
              && ParsePriority(f.priority).Some?
  {
    if FormValid(f) {
      assert FieldIssue(f, TitleField).None? && FieldIssue(f, DescriptionField).None?;
      assert FieldIssue(f, StatusField).None? && FieldIssue(f, PriorityField).None?;
    } else {
      var k :| FieldIssue(f, k).Some?;
    }
  }

  /** The error map the issues produce: each issue writes its field, a later one overwriting. */
  function ErrorsOf(iss: seq<Issue>): (r: map<Field, string>)
    ensures forall j :: 0 <= j < |iss| ==> iss[j].field in r
    ensures |iss| > 0 ==> r[iss[|iss| - 1].field] == iss[|iss| - 1].message
  {
    if iss == [] then map[]
    else
      var init := iss[..|iss| - 1];
      var rest := ErrorsOf(init);
      assert forall j :: 0 <= j < |init| ==> init[j] == iss[j];
      rest[iss[|iss| - 1].field := iss[|iss| - 1].message]
  }

  /** The error map is keyed by exactly the issues' fields. */
  lemma {:induction false} ErrorsOfKeys(iss: seq<Issue>)
    ensures forall k :: k in ErrorsOf(iss) <==> exists j :: 0 <= j < |iss| && iss[j].field == k
  {
    if iss != [] {
      var init, last := iss[..|iss| - 1], iss[|iss| - 1];
      ErrorsOfKeys(init);
      assert ErrorsOf(iss) == ErrorsOf(init)[last.field := last.message];
      forall k | k in ErrorsOf(iss) ensures exists j :: 0 <= j < |iss| && iss[j].field == k {
        if k != last.field {
          var j :| 0 <= j < |init| && init[j].field == k;
          assert iss[j].field == k;
        }
      }
      forall k | exists j :: 0 <= j < |iss| && iss[j].field == k ensures k in ErrorsOf(iss) {
        var j :| 0 <= j < |iss| && iss[j].field == k;
        if j < |iss| - 1 {
          assert init[j].field == k;
        }
      }
    }
  }

  /** With one issue per field, the error map holds exactly the issues' fields and messages. */
  lemma {:induction false} ErrorsOfDistinct(iss: seq<Issue>)
    requires DistinctIssues(iss)
    ensures forall k :: k in ErrorsOf(iss) <==> exists j :: 0 <= j < |iss| && iss[j].field == k
    ensures forall j :: 0 <= j < |iss| ==> ErrorsOf(iss)[iss[j].field] == iss[j].message
  {
    ErrorsOfKeys(iss);
    if iss != [] {
      var init, last := iss[..|iss| - 1], iss[|iss| - 1];
      assert DistinctIssues(init);
      ErrorsOfDistinct(init);
      var errs := ErrorsOf(iss);
      assert errs == ErrorsOf(init)[last.field := last.message];
      forall j | 0 <= j < |iss| - 1 ensures errs[iss[j].field] == iss[j].message {
        assert init[j] == iss[j];
        assert iss[j].field != last.field;
      }
    }
  }

  /**
   * The errors a failed validation shows are keyed by exactly the failing
   * fields, each with its own rule's message; a valid form shows none.
   */
  lemma ValidationErrors(f: Form)
    ensures forall k :: k in ErrorsOf(Issues(f)) <==> FieldIssue(f, k).Some?
    ensures forall k :: k in ErrorsOf(Issues(f)) ==> ErrorsOf(Issues(f))[k] == FieldIssue(f, k).value
    ensures FormValid(f) <==> ErrorsOf(Issues(f)) == map[]
  {
    var iss := Issues(f);
    var errs := ErrorsOf(iss);
    ErrorsOfDistinct(iss);
    AllFieldsListed();
    forall k
      ensures (k in errs <==> FieldIssue(f, k).Some?)
      ensures k in errs ==> errs[k] == FieldIssue(f, k).value
    {
      if FieldIssue(f, k).Some? {
        IssuesForComplete(f, FieldOrder, k);
      }
      if k in errs {
        var j :| 0 <= j < |iss| && iss[j].field == k;
      }
    }
    if !FormValid(f) {
      assert iss[0].field in errs;
    }
  }

  /** Every field is one the schema declares. */
  lemma AllFieldsListed()
    ensures forall k: Field :: k in FieldOrder
  {
    forall k: Field ensures k in FieldOrder {
      match k
      case TitleField => assert FieldOrder[0] == k;
      case DescriptionField => assert FieldOrder[1] == k;
      case StatusField => assert FieldOrder[2] == k;
      case PriorityField => assert FieldOrder[3] == k;
      case DueDateField => assert FieldOrder[4] == k;
    }
  }

  /** `x || null` for a string field. */
  function NullIfEmpty(s: string): (r: Option<string>)
    ensures r.None? <==> s == ""
    ensures r.Some? ==> r.value == s
  {
    if s == "" then None else Some(s)
  }

  /**
   * The payload a valid form is saved as: the form's fields, with an empty
   * description or due date sent as null.
   */
  function SavePayload(f: Form): (d: Draft)
    requires FormValid(f)
    ensures d.title == f.title && 1 <= |d.title| <= TitleMax
    ensures d.description == NullIfEmpty(f.description)
    ensures d.description.Some? ==> |d.description.value| <= DescriptionMax
    ensures d.status.Some? && StatusName(d.status.value) == f.status
    ensures d.priority.Some? && PriorityName(d.priority.value) == f.priority
    ensures d.dueDate == NullIfEmpty(f.dueDate)
  {
    FormValidIff(f);
    Draft(f.title, NullIfEmpty(f.description), ParseStatus(f.status), ParsePriority(f.priority), NullIfEmpty(f.dueDate))
  }

  /**
   * Opening a task for edit and saving it untouched sends back the task's own
   * fields, with an empty description or due date sent as null.
   */
  lemma EditRoundTrip(t: Task)
    requires 1 <= |t.title| <= TitleMax
    requires t.description.Some? ==> |t.description.value| <= DescriptionMax
    ensures FormValid(FromTask(t))
    ensures SavePayload(FromTask(t)) ==
              Draft(t.title,
                    if t.description == Some("") then None else t.description,
                    Some(t.status), Some(t.priority),
                    if t.dueDate == Some("") then None else t.dueDate)
  {
    var f := FromTask(t);
    FormValidIff(f);
    StatusNameRoundTrip(t.status);
    PriorityNameRoundTrip(t.priority);
  }

  /** The create-mode form is refused, for its empty title only. */
  lemma DefaultFormNeedsTitle()
    ensures Issues(DefaultForm) == [Issue(TitleField, TitleRequired)]
  {
  }

  /** A title of exactly 100 characters passes; one of 101 does not. */
  lemma TitleBoundary()
    ensures FieldIssue(DefaultForm.(title := seq(100, _ => 'a')), TitleField) == None
    ensures FieldIssue(DefaultForm.(title := seq(101, _ => 'a')), TitleField) == Some(TitleTooLong)
  {
  }
}
