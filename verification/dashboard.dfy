/**
 * The dashboard controller: the task collection of the signed-in user and
 * the handlers that patch it once the store has answered. Each handler is
 * one atomic step; the store's answer is the `reply` argument.
 */
module Dashboard {
  import opened Wrappers
  import opened Tasks
  import opened TaskViews
  import Text

  /** The row an insert submits: missing status and priority take their defaults. */
  datatype NewRow = NewRow(
    title: string,
    description: Option<string>,
    status: Status,
    priority: Priority,
    dueDate: Option<string>,
    userId: string)

  /** The insert `handleCreateTask` sends for `draft` on behalf of user `uid`. */
  function InsertRow(draft: Draft, uid: string): (r: NewRow)
    ensures r.status == draft.status.GetOr(Pending) && r.priority == draft.priority.GetOr(Medium)
    ensures draft.status.None? ==> r.status == Pending
    ensures draft.priority.None? ==> r.priority == Medium
    ensures r.title == draft.title && r.description == draft.description && r.dueDate == draft.dueDate
    ensures r.userId == uid
  {
    NewRow(draft.title, draft.description, draft.status.GetOr(Pending), draft.priority.GetOr(Medium), draft.dueDate, uid)
  }

  /** An update the controller sends: the patch, applied to the row with this id. */
  datatype UpdateRequest = UpdateRequest(id: string, patch: Draft)

  const LoadFailedToast := Toast("Error loading tasks", "Please try refreshing the page.", true)
  const DeletedToast := Toast("Task deleted", "The task has been removed successfully.", false)
  const DeleteFailedToast := Toast("Error deleting task", "Please try again later.", true)
  const StatusFailedToast := Toast("Error updating task", "Please try again later.", true)

  /**
   * The toast a successful status change raises: not destructive, naming the
   * status (its label, right after "Task status changed to ") without its dash.
   */
  function StatusChangedToast(s: Status): (r: Toast)
    ensures !r.destructive && r.title == "Task updated"
    ensures Text.OccursAt(r.description, StatusLabel(s), |"Task status changed to "|)
    ensures '-' !in r.description
  {
    var shown := StatusLabel(s);
    assert forall i :: 0 <= i < |shown| ==> shown[i] != '-';
    assert '-' !in "Task status changed to ";
    Toast("Task updated", "Task status changed to " + shown + ".", false)
  }

  class Controller {
    /** The signed-in user, supplied by the authentication context. */
    const user: Option<string>
    var tasks: seq<Task>
    var loading: bool
    var searchTerm: string
    var statusFilter: string
    var priorityFilter: string
    var taskDialogOpen: bool
    var editingTask: Option<Task>

    /** An edit target exists only while the dialog is open. */
    ghost predicate Valid()
      reads this
    {
      editingTask.Some? ==> taskDialogOpen
    }

    /** Every task held belongs to the signed-in user (so none is held without one). */
    ghost predicate OwnedByUser()
      reads this
    {
      forall t :: t in tasks ==> user == Some(t.userId)
    }

    constructor(user: Option<string>)
      ensures Valid() && OwnedByUser()
      ensures this.user == user && tasks == [] && loading
      ensures searchTerm == "" && statusFilter == AllValues && priorityFilter == AllValues
      ensures !taskDialogOpen && editingTask == None
    {
      this.user := user;
      tasks := [];
      loading := true;
      searchTerm := "";
      statusFilter := AllValues;
      priorityFilter := AllValues;
      taskDialogOpen := false;
      editingTask := None;
    }

    /** The current filter criteria. */
    function CurrentCriteria(): Criteria
      reads this
    {
      Criteria(searchTerm, statusFilter, priorityFilter)
    }

    /** `filteredTasks`: the tasks the criteria accept, in collection order. */
    function FilteredTasks(): (r: seq<Task>)
      reads this
      ensures forall t :: t in r <==> t in tasks && Matches(t, CurrentCriteria())
    {
      Filtered(tasks, CurrentCriteria())
    }

    /** `taskStats`, over the unfiltered collection. */
    function CurrentStats(): (r: TaskStats)
      reads this
      ensures r.total == |tasks|
      ensures r.completed + r.inProgress + r.pending == r.total
    {
      Stats(tasks)
    }

    /**
     * `fetchTasks`: without a user nothing happens; otherwise the fetched list
     * replaces the collection, a failed fetch keeps it, and loading ends.
     * Only an error carried by the response raises a toast.
     */
    method FetchTasks(reply: Reply<seq<Task>>) returns (toast: Option<Toast>)
      requires Valid()
      modifies this`tasks, this`loading
      ensures Valid()
      ensures user.None? ==> tasks == old(tasks) && loading == old(loading) && toast == None
      ensures user.Some? ==> !loading
      ensures user.Some? ==> tasks == (if reply.Ok? then reply.value else old(tasks))
      ensures user.Some? ==> toast == (if reply.Err? then Some(LoadFailedToast) else None)
      ensures old(OwnedByUser()) && (reply.Ok? ==> forall t :: t in reply.value ==> user == Some(t.userId))
              ==> OwnedByUser()
    {
      toast := None;
      if user.None? {
        return;
      }
      loading := true;
      match reply {
        case Ok(rows) => tasks := rows;
        case Err => toast := Some(LoadFailedToast);
        case Threw =>
      }
      loading := false;
    }

    /**
     * `handleCreateTask`: without a user it returns at once; otherwise it sends
     * the insert, prepends the stored task on success and re-throws on failure
     * with the collection untouched.
     */
    method CreateTask(draft: Draft, reply: Reply<Task>) returns (sent: Option<NewRow>, threw: bool)
      requires Valid()
      modifies this`tasks
      ensures Valid()
      ensures user.None? ==> sent == None && !threw && tasks == old(tasks)
      ensures user.Some? ==> sent == Some(InsertRow(draft, user.value))
      ensures user.Some? ==> threw == !reply.Ok?
      ensures user.Some? ==> tasks == (if reply.Ok? then [reply.value] + old(tasks) else old(tasks))
      ensures old(OwnedByUser()) && (reply.Ok? ==> user == Some(reply.value.userId)) ==> OwnedByUser()
    {
      sent, threw := None, false;
      if user.None? {
        return;
      }
      sent := Some(InsertRow(draft, user.value));
      if reply.Ok? {
        tasks := [reply.value] + tasks;
      } else {
        threw := true;
      }
    }

    /**
     * `handleUpdateTask`: without an edit target it returns at once; otherwise
     * it patches the target's row, and on success replaces every entry with
     * the target's id and clears the target; on failure it re-throws.
     */
    method UpdateTask(patch: Draft, reply: Reply<Task>) returns (sent: Option<UpdateRequest>, threw: bool)
      requires Valid()
      modifies this`tasks, this`editingTask
      ensures Valid()
      ensures old(editingTask).None? ==>
                sent == None && !threw && tasks == old(tasks) && editingTask == old(editingTask)
      ensures old(editingTask).Some? ==> sent == Some(UpdateRequest(old(editingTask).value.id, patch))
      ensures old(editingTask).Some? ==> threw == !reply.Ok?
      ensures old(editingTask).Some? && reply.Ok? ==>
                tasks == ReplaceById(old(tasks), old(editingTask).value.id, reply.value) && editingTask == None
      ensures old(editingTask).Some? && !reply.Ok? ==> tasks == old(tasks) && editingTask == old(editingTask)
      ensures old(OwnedByUser()) && (reply.Ok? ==> user == Some(reply.value.userId)) ==> OwnedByUser()
    {
      sent, threw := None, false;
      if editingTask.None? {
        return;
      }
      var id := editingTask.value.id;
      sent := Some(UpdateRequest(id, patch));
      if reply.Ok? {
        tasks := ReplaceById(tasks, id, reply.value);
        editingTask := None;
      } else {
        threw := true;
      }
    }

    /**
     * `handleDeleteTask`: on success drops every entry with the id; on failure
     * keeps the collection. Either way the outcome is a toast, never an error.
     */
    method DeleteTask(id: string, reply: Reply<()>) returns (toast: Toast)
      requires Valid()
      modifies this`tasks
      ensures Valid()
      ensures tasks == (if reply.Ok? then RemoveById(old(tasks), id) else old(tasks))
      ensures toast == (if reply.Ok? then DeletedToast else DeleteFailedToast)
      ensures old(OwnedByUser()) ==> OwnedByUser()
    {
      if reply.Ok? {
        tasks := RemoveById(tasks, id);
        toast := DeletedToast;
      } else {
        toast := DeleteFailedToast;
      }
    }

    /**
     * `handleStatusChange`: on success replaces every entry with the id by the
     * stored task and names the new status; on failure keeps the collection.
     */
    method ChangeStatus(id: string, newStatus: Status, reply: Reply<Task>) returns (toast: Toast)
      requires Valid()
      modifies this`tasks
      ensures Valid()
      ensures tasks == (if reply.Ok? then ReplaceById(old(tasks), id, reply.value) else old(tasks))
      ensures toast == (if reply.Ok? then StatusChangedToast(newStatus) else StatusFailedToast)
      ensures old(OwnedByUser()) && (reply.Ok? ==> user == Some(reply.value.userId)) ==> OwnedByUser()
    {
      if reply.Ok? {
        tasks := ReplaceById(tasks, id, reply.value);
        toast := StatusChangedToast(newStatus);
      } else {
        toast := StatusFailedToast;
      }
    }

    /** `handleEditTask`: target the task and open the dialog. */
    method EditTask(task: Task)
      modifies this`editingTask, this`taskDialogOpen
      ensures Valid()
      ensures editingTask == Some(task) && taskDialogOpen
    {
      editingTask := Some(task);
      taskDialogOpen := true;
    }

    /** `handleCloseDialog`: close the dialog and drop the target. */
    method CloseDialog()
      modifies this`editingTask, this`taskDialogOpen
      ensures Valid()
      ensures editingTask == None && !taskDialogOpen
    {
      taskDialogOpen := false;
      editingTask := None;
    }

    /** The "New Task" and "Create Task" buttons: open the dialog, target unchanged. */
    method OpenCreateDialog()
      requires Valid()
      modifies this`taskDialogOpen
      ensures Valid()
      ensures taskDialogOpen && editingTask == old(editingTask)
    {
      taskDialogOpen := true;
    }

    /** The search box. */
    method SetSearchTerm(term: string)
      modifies this`searchTerm
      ensures searchTerm == term
    {
      searchTerm := term;
    }

    /** The status select. */
    method SetStatusFilter(value: string)
      modifies this`statusFilter
      ensures statusFilter == value
    {
      statusFilter := value;
    }

    /** The priority select. */
    method SetPriorityFilter(value: string)
      modifies this`priorityFilter
      ensures priorityFilter == value
    {
      priorityFilter := value;
    }
  }
}
