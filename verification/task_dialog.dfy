/**
 * The task editor dialog's state: the edited form, the per-field errors,
 * the busy flag, and the task it edits (none in create mode). A save is
 * split in two steps, `Submit` and `SaveSettled`, so the busy state while
 * the save is in flight is observable between them.
 */
module TaskDialog {
  import opened Wrappers
  import opened Tasks
  import opened TaskForm

  const CreatedToast := Toast("Task created!", "Your new task has been created successfully.", false)
  const UpdatedToast := Toast("Task updated!", "Your task has been updated successfully.", false)
  const SaveFailedToast := Toast("Something went wrong", "Please try again later.", true)

  /** The `forEach` of `validateForm`: each issue writes its message under its field. */
  method CollectErrors(issues: seq<Issue>) returns (newErrors: map<Field, string>)
    ensures newErrors == ErrorsOf(issues)
    ensures forall k :: k in newErrors ==> exists j :: 0 <= j < |issues| && issues[j].field == k
  {
    newErrors := map[];
    var i := 0;
    while i < |issues|
      invariant 0 <= i <= |issues|
      invariant newErrors == ErrorsOf(issues[..i])
      invariant forall k :: k in newErrors ==> exists j :: 0 <= j < i && issues[j].field == k
    {
      assert issues[..i + 1][..i] == issues[..i];
      newErrors := newErrors[issues[i].field := issues[i].message];
      i := i + 1;
    }
    assert issues[..i] == issues;
  }

  class Dialog {
    /** The `task` property: the task being edited, none in create mode. */
    var task: Option<Task>
    var formData: Form
    var errors: map<Field, string>
    var isLoading: bool

    constructor()
      ensures task == None && formData == DefaultForm && errors == map[] && !isLoading
    {
      task := None;
      formData := DefaultForm;
      errors := map[];
      isLoading := false;
    }

    /** The inputs and the submit button are enabled only while no save is in flight. */
    predicate FormEnabled()
      reads this
    {
      !isLoading
    }

    /**
     * The effect run when the dialog opens or its task changes: edit mode
     * copies the task, create mode starts from the defaults; errors are cleared.
     */
    method Reset(target: Option<Task>)
      modifies this`task, this`formData, this`errors
      ensures task == target
      ensures formData == (if target.Some? then FromTask(target.value) else DefaultForm)
      ensures errors == map[]
    {
      task := target;
      if target.Some? {
        formData := FromTask(target.value);
      } else {
        formData := DefaultForm;
      }
      errors := map[];
    }

    /** `validateForm`: true exactly when the form passes; the errors then name the failing fields. */
    method ValidateForm() returns (valid: bool)
      modifies this`errors
      ensures valid == FormValid(formData)
      ensures errors == ErrorsOf(Issues(formData))
      ensures forall k :: k in errors <==> FieldIssue(formData, k).Some?
      ensures forall k :: k in errors ==> errors[k] == FieldIssue(formData, k).value
    {
      ValidationErrors(formData);
      var issues := Issues(formData);
      if issues == [] {
        errors := map[];
        valid := true;
      } else {
        var newErrors := CollectErrors(issues);
        errors := newErrors;
        valid := false;
      }
    }

    /**
     * The first half of `handleSubmit`: an invalid form stops with its errors
     * shown; a valid one turns busy and yields the payload to save.
     */
    method Submit() returns (payload: Option<Draft>)
      modifies this`errors, this`isLoading
      ensures payload.Some? <==> FormValid(formData)
      ensures forall k :: k in errors <==> FieldIssue(formData, k).Some?
      ensures payload.Some? ==> payload.value == SavePayload(formData) && isLoading && errors == map[]
      ensures payload.None? ==> isLoading == old(isLoading)
    {
      var valid := ValidateForm();
      if !valid {
        return None;
      }
      isLoading := true;
      payload := Some(SavePayload(formData));
    }

    /**
     * The second half of `handleSubmit`, once the save has settled: the busy
     * flag drops; success asks to close, failure keeps the form as typed.
     */
    method SaveSettled(succeeded: bool) returns (close: bool, toast: Toast)
      modifies this`isLoading
      ensures !isLoading && close == succeeded
      ensures toast == (if !succeeded then SaveFailedToast else if task.Some? then UpdatedToast else CreatedToast)
    {
      if succeeded {
        toast := if task.Some? then UpdatedToast else CreatedToast;
        close := true;
      } else {
        toast := SaveFailedToast;
        close := false;
      }
      isLoading := false;
    }

    /**
     * `handleInputChange`: only the edited field takes the new value; its
     * error is blanked when it was showing, and other errors stay.
     */
    method HandleInputChange(field: Field, value: string)
      modifies this`formData, this`errors
      ensures formData == With(old(formData), field, value)
      ensures forall k :: k != field ==> Get(formData, k) == Get(old(formData), k)
      ensures errors == if field in old(errors) && old(errors)[field] != ""
                        then old(errors)[field := ""] else old(errors)
      ensures errors.Keys == old(errors).Keys
      ensures forall k :: k in errors && k != field ==> errors[k] == old(errors)[k]
    {
      formData := With(formData, field, value);
      if field in errors && errors[field] != "" {
        errors := errors[field := ""];
      }
    }
  }
}
