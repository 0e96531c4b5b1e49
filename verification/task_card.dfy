/**
 * The per-task card: its due-date flags, the badges it shows, the quick
 * status changes it offers, its badge variants, and the flag that disables
 * the quick buttons while a status change is in flight. Instants are
 * millisecond timestamps; `dueAt` is the instant the task's due date denotes,
 * absent when the due date is null or empty.
 */
module TaskCard {
  import opened Wrappers
  import opened Tasks

  /** `addDays(now, 3)`, as a fixed offset in milliseconds. */
  const DueSoonWindow: int := 3 * 24 * 60 * 60 * 1000

  /**
   * `isOverdue`: a due date strictly before now, on a task not completed. A
   * completed task is never overdue, and neither is one without a due date.
   */
  predicate IsOverdue(dueAt: Option<int>, status: Status, now: int)
    ensures status == Completed ==> !IsOverdue(dueAt, status, now)
    ensures dueAt.None? ==> !IsOverdue(dueAt, status, now)
  {
    dueAt.Some? && now > dueAt.value && status != Completed
  }

  /** `isDueSoon`: a due date strictly before now plus three days, on a task not completed. */
  predicate IsDueSoon(dueAt: Option<int>, status: Status, now: int)
    ensures IsOverdue(dueAt, status, now) ==> IsDueSoon(dueAt, status, now)
  {
    dueAt.Some? && dueAt.value < now + DueSoonWindow && status != Completed
  }

  /** Once overdue, a task stays overdue as time passes (until it is completed). */
  lemma OverdueStays(dueAt: Option<int>, status: Status, now: int, later: int)
    requires IsOverdue(dueAt, status, now) && now <= later
    ensures IsOverdue(dueAt, status, later)
  {
  }

  /** The "Due Soon" badge: due soon, and only when not already overdue (the "Overdue" badge is `IsOverdue`). */
  predicate ShowsDueSoon(dueAt: Option<int>, status: Status, now: int)
    ensures ShowsDueSoon(dueAt, status, now) ==> !IsOverdue(dueAt, status, now)
    ensures ShowsDueSoon(dueAt, status, now) <==>
              dueAt.Some? && now <= dueAt.value < now + DueSoonWindow && status != Completed
  {
    IsDueSoon(dueAt, status, now) && !IsOverdue(dueAt, status, now)
  }

  /** At most one of the two badges shows, and a completed task shows neither. */
  lemma AtMostOneDueBadge(dueAt: Option<int>, status: Status, now: int)
    ensures !(IsOverdue(dueAt, status, now) && ShowsDueSoon(dueAt, status, now))
    ensures status == Completed ==> !IsOverdue(dueAt, status, now) && !ShowsDueSoon(dueAt, status, now)
  {
  }

  /**
   * A pending task due a day ago is overdue and shows no "Due Soon" badge; one
   * due in two days shows only "Due Soon"; a completed one due in two days
   * shows neither.
   */
  lemma DueFlagsExample(now: int)
    ensures IsOverdue(Some(now - 86400000), Pending, now) && !ShowsDueSoon(Some(now - 86400000), Pending, now)
    ensures !IsOverdue(Some(now + 2 * 86400000), Pending, now) && ShowsDueSoon(Some(now + 2 * 86400000), Pending, now)
    ensures !IsOverdue(Some(now + 2 * 86400000), Completed, now) && !IsDueSoon(Some(now + 2 * 86400000), Completed, now)
  {
  }

  /**
   * The quick status buttons in display order: "Mark Complete" unless
   * completed, "Start Task" when pending, "Reopen" when completed.
   */
  function QuickTransitions(s: Status): (r: seq<Status>)
    ensures s !in r
    ensures Completed in r <==> s != Completed
    ensures InProgress in r <==> s == Pending
    ensures Pending in r <==> s == Completed
    ensures |r| == (if s == Pending then 2 else 1)
  {
    (if s != Completed then [Completed] else [])
    + (if s == Pending then [InProgress] else [])
    + (if s == Completed then [Pending] else [])
  }

  /** No quick action moves a task back from in-progress to pending. */
  lemma NoQuickRevertToPending()
    ensures Pending !in QuickTransitions(InProgress)
    ensures QuickTransitions(InProgress) == [Completed]
  {
  }

  datatype BadgeVariant = Default | Secondary | Destructive | Outline | Warning

  /** `getPriorityColor`: the badge variant for a priority string, secondary when unknown. */
  function PriorityVariant(priority: string): (r: BadgeVariant)
    ensures r == Destructive <==> priority == PriorityName(High)
    ensures r == Warning <==> priority == PriorityName(Medium)
    ensures r == Secondary <==> priority != PriorityName(High) && priority != PriorityName(Medium)
  {
    if priority == "high" then Destructive
    else if priority == "medium" then Warning
    else Secondary
  }

  /** `getStatusBadgeVariant`: the badge variant for a status string, outline otherwise. */
  function StatusVariant(status: string): (r: BadgeVariant)
    ensures r == Default <==> status == StatusName(Completed)
    ensures r == Secondary <==> status == StatusName(InProgress)
    ensures r == Outline <==> status != StatusName(Completed) && status != StatusName(InProgress)
  {
    if status == "completed" then Default
    else if status == "in-progress" then Secondary
    else Outline
  }

  /** On the priorities themselves the variant map is total and tells them apart. */
  lemma PriorityVariantTotal(p: Priority, q: Priority)
    ensures PriorityVariant(PriorityName(p)) == (match p case High => Destructive case Medium => Warning case Low => Secondary)
    ensures p != q ==> PriorityVariant(PriorityName(p)) != PriorityVariant(PriorityName(q))
  {
  }

  /** On the statuses themselves the variant map is total and tells them apart. */
  lemma StatusVariantTotal(s: Status, t: Status)
    ensures StatusVariant(StatusName(s)) == (match s case Completed => Default case InProgress => Secondary case Pending => Outline)
    ensures s != t ==> StatusVariant(StatusName(s)) != StatusVariant(StatusName(t))
  {
  }

  /**
   * One card of the dashboard's list. The list is keyed by task id, so a
   * card keeps its busy flag across renders while its task follows the
   * held row.
   */
  class Card {
    var task: Task
    var isChangingStatus: bool

    constructor(task: Task)
      ensures this.task == task && !isChangingStatus
    {
      this.task := task;
      isChangingStatus := false;
    }

    /** The quick buttons are disabled while a status change is in flight. */
    predicate ButtonsEnabled()
      reads this
    {
      !isChangingStatus
    }

    /**
     * A click on a quick button: when the button is shown and enabled the
     * card turns busy and asks for the change; otherwise nothing happens.
     */
    method Click(target: Status) returns (request: Option<Status>)
      modifies this`isChangingStatus
      ensures request.Some? <==> old(ButtonsEnabled()) && target in QuickTransitions(task.status)
      ensures request.Some? ==> request.value == target && request.value != task.status && isChangingStatus
      ensures request.None? ==> isChangingStatus == old(isChangingStatus)
    {
      if !isChangingStatus && target in QuickTransitions(task.status) {
        isChangingStatus := true;
        request := Some(target);
      } else {
        request := None;
      }
    }

    /** A re-render with the held row `t`: the card now shows `t` and keeps its busy flag. */
    method Rerender(t: Task)
      modifies this`task
      ensures task == t
    {
      task := t;
    }

    /** The status change has returned: the buttons are enabled again. */
    method ChangeReturned()
      modifies this`isChangingStatus
      ensures ButtonsEnabled()
    {
      isChangingStatus := false;
    }
  }
}
