/**
 * The dashboard's wiring of its two children: the editor dialog saves
 * through the controller's update handler when there is an edit target and
 * through its create handler otherwise, and closes through the controller;
 * a card's quick button calls the controller's status change.
 */
module Workflow {
  import opened Wrappers
  import opened Tasks
  import opened TaskViews
  import opened TaskForm
  import Dashboard
  import TaskDialog
  import TaskCard

  /** What a dialog submit sends to the store: an insert or an update. */
  datatype Sent = Inserted(row: Dashboard.NewRow) | Updated(request: Dashboard.UpdateRequest)

  /**
   * One submit of the open dialog, with `reply` the store's answer to the
   * save and `sent` what went to the store. An invalid form never reaches
   * the store; a valid one sends its normalised payload as an update of the
   * edit target or as an insert for the signed-in user. A failed save keeps
   * the dialog open with the form as typed; a successful one closes it, and
   * the dialog's reset effect, fired by the close, restores the create-mode
   * form.
   */
  method SubmitDialog(c: Dashboard.Controller, d: TaskDialog.Dialog, reply: Reply<Task>)
    returns (sent: Option<Sent>, toast: Option<Toast>)
    requires c.Valid() && c.taskDialogOpen && d.task == c.editingTask && d.FormEnabled()
    modifies c`tasks, c`editingTask, c`taskDialogOpen, d`task, d`formData, d`errors, d`isLoading
    ensures c.Valid() && d.FormEnabled()
    ensures c.taskDialogOpen ==> d.formData == old(d.formData) && d.task == old(d.task)
    ensures !c.taskDialogOpen ==> d.task == None && d.formData == DefaultForm && d.errors == map[]
    ensures !FormValid(old(d.formData)) ==> sent == None
    ensures FormValid(old(d.formData)) && old(c.editingTask).Some? ==>
              sent == Some(Updated(Dashboard.UpdateRequest(old(c.editingTask).value.id, SavePayload(old(d.formData)))))
    ensures FormValid(old(d.formData)) && old(c.editingTask).None? ==>
              sent == (if c.user.Some? then Some(Inserted(Dashboard.InsertRow(SavePayload(old(d.formData)), c.user.value))) else None)
    ensures !FormValid(old(d.formData)) ==>
              toast == None && d.errors != map[] && d.formData == old(d.formData)
              && c.tasks == old(c.tasks) && c.taskDialogOpen && c.editingTask == old(c.editingTask)
    ensures FormValid(old(d.formData)) && old(c.editingTask).Some? && reply.Ok? ==>
              c.tasks == ReplaceById(old(c.tasks), old(c.editingTask).value.id, reply.value)
              && !c.taskDialogOpen && c.editingTask == None && toast == Some(TaskDialog.UpdatedToast)
    ensures FormValid(old(d.formData)) && old(c.editingTask).None? && c.user.Some? && reply.Ok? ==>
              c.tasks == [reply.value] + old(c.tasks)
              && !c.taskDialogOpen && c.editingTask == None && toast == Some(TaskDialog.CreatedToast)
    ensures FormValid(old(d.formData)) && old(c.editingTask).None? && c.user.None? ==>
              c.tasks == old(c.tasks) && !c.taskDialogOpen && toast == Some(TaskDialog.CreatedToast)
    ensures FormValid(old(d.formData)) && (old(c.editingTask).Some? || c.user.Some?) && !reply.Ok? ==>
              c.tasks == old(c.tasks) && c.taskDialogOpen && c.editingTask == old(c.editingTask)
              && toast == Some(TaskDialog.SaveFailedToast)
  {
    var payload := d.Submit();
    if payload.None? {
      ValidationErrors(d.formData);
      return None, None;
    }
    var threw: bool;
    if c.editingTask.Some? {
      var request, t := c.UpdateTask(payload.value, reply);
      sent, threw := Some(Updated(request.value)), t;
    } else {
      var row, t := c.CreateTask(payload.value, reply);
      sent := if row.Some? then Some(Inserted(row.value)) else None;
      threw := t;
    }
    var close, shown := d.SaveSettled(!threw);
    toast := Some(shown);
    if close {
      c.CloseDialog();
      d.Reset(c.editingTask);
    }
  }

  /**
   * A click on a card's quick button, with `reply` the store's answer. When
   * the button is shown and enabled the status change runs, the card is
   * re-rendered with the row the store returned, and the buttons are enabled
   * again afterwards; otherwise nothing changes. A card showing a held row
   * still shows a held row afterwards.
   */
  method QuickStatusChange(c: Dashboard.Controller, card: TaskCard.Card, target: Status, reply: Reply<Task>)
    returns (toast: Option<Toast>)
    requires c.Valid()
    modifies c`tasks, card`task, card`isChangingStatus
    ensures c.Valid()
    ensures old(card.ButtonsEnabled()) && target in TaskCard.QuickTransitions(old(card.task).status) ==>
              card.ButtonsEnabled()
              && c.tasks == (if reply.Ok? then ReplaceById(old(c.tasks), old(card.task).id, reply.value) else old(c.tasks))
              && card.task == (if reply.Ok? then reply.value else old(card.task))
              && toast == Some(if reply.Ok? then Dashboard.StatusChangedToast(target) else Dashboard.StatusFailedToast)
    ensures !(old(card.ButtonsEnabled()) && target in TaskCard.QuickTransitions(old(card.task).status)) ==>
              c.tasks == old(c.tasks) && card.task == old(card.task)
              && card.isChangingStatus == old(card.isChangingStatus) && toast == None
    ensures old(card.task) in old(c.tasks) ==> card.task in c.tasks
  {
    var request := card.Click(target);
    if request.None? {
      return None;
    }
    ghost var before := c.tasks;
    var id := card.task.id;
    var shown := c.ChangeStatus(id, request.value, reply);
    toast := Some(shown);
    if reply.Ok? {
      if card.task in before {
        ReplaceByIdHolds(before, id, reply.value, card.task);
      }
      card.Rerender(reply.value);
    }
    card.ChangeReturned();
  }
}
