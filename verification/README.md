# Task dashboard: a Dafny model of the client-side task state

This project models the client-side core of a task-management web app. That core has three parts:

- **The dashboard controller** (`Dashboard.tsx`). It holds the signed-in user's ordered task collection. It patches the collection after each confirmed call to the remote store: create prepends, update and status change replace by id, delete removes by id, and load replaces everything. It also derives a filtered view and per-status statistics from the collection.
- **The task editor dialog** (`TaskDialog.tsx`). It holds the form, runs the schema rules on submit, and builds the error map. It normalises empty optional fields to null before saving and keeps a busy flag during a save. It closes on success and stays open, with the form unchanged, on failure.
- **The task card** (`TaskCard.tsx`). It computes the overdue and due-soon flags and the badges they show. It also offers the quick status changes and maps priorities and statuses to badge variants. A busy flag disables its buttons while a status change is in flight. The list is keyed by task id, so a card keeps its busy flag across renders while the task it shows follows the held row.

Remote calls are not modelled. Each handler takes the store's answer as an argument `reply: Reply<T>`, which is `Ok(value)`, `Err` (the response carried an error) or `Threw` (an exception). Each handler runs as one atomic step. Notifications are returned as `Toast` values. Dates on the card are millisecond timestamps.

Modules: `Wrappers` (Option), `Text` (lower-casing, substring search), `Tasks` (task record, enumerations, names, draft, reply, toast), `TaskViews` (the pure side of `Dashboard.tsx`), `Dashboard` (class `Controller`), `TaskForm` (the pure side of `TaskDialog.tsx`), `TaskDialog` (class `Dialog`), `TaskCard` (derivations and class `Card`), `Workflow` (how `Dashboard.tsx` wires the dialog and the cards to the controller).

Some of the code's behaviour is easy to miss:

- A load that throws an exception, rather than returning an error in the response, logs the error and shows no toast.
- A failed load leaves the collection as it was; it does not empty it.
- Without a signed-in user, `handleCreateTask` returns normally. The dialog therefore reports "Task created!" and closes, although nothing was sent.
- The title's too-long message says "less than 100 characters", but the rule accepts exactly 100. Both are kept as written.

## Model

| member | source | states |
|---|---|---|
| `Text.Lower` | src/components/dashboard/Dashboard.tsx:240 | lower-casing keeps the length, maps each character on its own, and leaves no upper-case ASCII letter |
| `Text.Includes` | src/components/dashboard/Dashboard.tsx:240-241 | a match needs a needle no longer than the haystack, and the empty needle is found everywhere |
| `Text.IncludesIffOccurs` | src/components/dashboard/Dashboard.tsx:240-241 | `includes` holds exactly when the needle occurs at some offset of the haystack |
| `Tasks.ParseStatus` | src/components/dashboard/TaskDialog.tsx:19 | a string is accepted as a status only if it is that status's name |
| `Tasks.ParsePriority` | src/components/dashboard/TaskDialog.tsx:20 | a string is accepted as a priority only if it is that priority's name |
| `Tasks.StatusNameRoundTrip` | src/components/dashboard/Dashboard.tsx:28 | every status name parses back to its status, so the names are distinct |
| `Tasks.PriorityNameRoundTrip` | src/components/dashboard/Dashboard.tsx:29 | every priority name parses back to its priority |
| `Tasks.StatusLabel` | src/components/dashboard/TaskCard.tsx:113 | the displayed status equals the name with every `-` turned into a space |
| `Tasks.ReplaceFirst` | src/components/dashboard/Dashboard.tsx:204 | `replace` with a one-character pattern changes only the first occurrence and keeps the length |
| `TaskViews.MatchesSearch` | src/components/dashboard/Dashboard.tsx:240-241 | an empty search term accepts every task |
| `TaskViews.SearchIgnoresCase` | src/components/dashboard/Dashboard.tsx:240-241 | a term and its lower-cased form accept the same tasks |
| `TaskViews.MatchesStatus` | src/components/dashboard/Dashboard.tsx:243 | "all" accepts every task, a status name accepts exactly the tasks in that status, and any other value accepts none |
| `TaskViews.MatchesPriority` | src/components/dashboard/Dashboard.tsx:244 | "all" accepts every task, a priority name accepts exactly the tasks with that priority, and any other value accepts none |
| `TaskViews.Matches` | src/components/dashboard/Dashboard.tsx:239-246 | the open criteria (empty search, both filters "all") accept every task, and an accepted task passes all three filters |
| `TaskViews.Filtered` | src/components/dashboard/Dashboard.tsx:239-247 | a task is in the view iff it is in the collection and passes search AND status AND priority filters; each accepted task keeps its number of copies and each refused one has none; the view is no longer than the collection |
| `TaskViews.FilteredIsSubsequence` | src/components/dashboard/Dashboard.tsx:239 | the view is an order-preserving subsequence of the collection |
| `TaskViews.StatusFilterSelects` | src/components/dashboard/Dashboard.tsx:243 | with only a status filter, exactly the tasks in that status remain |
| `TaskViews.FilterConjunctionExample` | src/components/dashboard/Dashboard.tsx:239-247 | "Buy milk" (pending, low) is hidden by search "milk" + status completed and shown by search "MILK" + priority low |
| `TaskViews.CountStatus` | src/components/dashboard/Dashboard.tsx:252-254 | a status count never exceeds the collection size |
| `TaskViews.StatusCountsPartition` | src/components/dashboard/Dashboard.tsx:250-255 | completed + in-progress + pending counts sum to the collection size |
| `TaskViews.CountIsFilteredSize` | src/components/dashboard/Dashboard.tsx:252-254 | each status count equals the size of the view filtered to that status |
| `TaskViews.Stats` | src/components/dashboard/Dashboard.tsx:250-255 | total is the collection size, the buckets sum to it, and each bucket is the size of its status view |
| `TaskViews.StatsExample` | src/components/dashboard/Dashboard.tsx:250-255 | two pending tasks and one completed task give statistics 3/1/0/2; the completed filter keeps exactly the completed task |
| `TaskViews.ReplaceById` | src/components/dashboard/Dashboard.tsx:154 | the length is kept; each entry with the id becomes the new task and every other entry is unchanged in place |
| `TaskViews.ReplaceByIdHolds` | src/components/dashboard/Dashboard.tsx:201 | replacing the id of a held entry puts the new task into the collection |
| `TaskViews.RemoveById` | src/components/dashboard/Dashboard.tsx:173 | an entry survives iff it was present and carries another id |
| `TaskViews.CountId` | src/components/dashboard/Dashboard.tsx:173 | the id count is zero iff no entry carries the id |
| `TaskViews.RemoveByIdShape` | src/components/dashboard/Dashboard.tsx:173 | removal shortens the collection by exactly the number of entries with the id and keeps the rest in order |
| `TaskViews.RemoveAbsentId` | src/components/dashboard/Dashboard.tsx:162-173 | deleting an id no entry carries leaves the collection unchanged |
| `TaskViews.RemoveIdempotent` | src/components/dashboard/Dashboard.tsx:162-173 | deleting the same id twice gives what deleting it once gave |
| `TaskViews.CountAfterReplace` | src/components/dashboard/Dashboard.tsx:201 | with unique ids, a status change moves exactly one count from the old status bucket to the new one |
| `Dashboard.InsertRow` | src/components/dashboard/Dashboard.tsx:117-124 | the insert defaults a missing status to pending and a missing priority to medium, passes the other fields through, and names the user as owner |
| `Dashboard.StatusChangedToast` | src/components/dashboard/Dashboard.tsx:202-205 | the status-change toast is not destructive, is titled "Task updated", and its description shows the new status's label right after "Task status changed to ", with no dash anywhere |
| `Dashboard.Controller.constructor` | src/components/dashboard/Dashboard.tsx:46-53 | the initial state: no tasks, loading, empty search, both filters "all", dialog closed, no edit target |
| `Dashboard.Controller.FilteredTasks` | src/components/dashboard/Dashboard.tsx:239-247 | the view holds exactly the held tasks the current criteria accept |
| `Dashboard.Controller.CurrentStats` | src/components/dashboard/Dashboard.tsx:250-255 | the total is the number of held tasks and the three buckets sum to it |
| `Dashboard.Controller.FetchTasks` | src/components/dashboard/Dashboard.tsx:83-109 | with no user, nothing changes; otherwise a success replaces the collection, a failure keeps it, loading ends false, and only a response error raises the toast |
| `Dashboard.Controller.CreateTask` | src/components/dashboard/Dashboard.tsx:111-137 | with no user, nothing is sent and nothing thrown; otherwise the defaulted insert is sent, success gives `[t] + old`, and failure re-throws with the collection unchanged |
| `Dashboard.Controller.UpdateTask` | src/components/dashboard/Dashboard.tsx:139-160 | with no target, a no-op; otherwise success replaces every entry with the target's id and clears the target, and failure re-throws with nothing changed |
| `Dashboard.Controller.DeleteTask` | src/components/dashboard/Dashboard.tsx:162-186 | success removes the entries with the id; failure keeps the collection; the outcome is a success or an error toast |
| `Dashboard.Controller.ChangeStatus` | src/components/dashboard/Dashboard.tsx:188-214 | success replaces the entries with the id and names the new status in the toast; failure keeps the collection and raises the error toast |
| `Dashboard.Controller.EditTask` | src/components/dashboard/Dashboard.tsx:216-219 | the task becomes the edit target and the dialog opens |
| `Dashboard.Controller.CloseDialog` | src/components/dashboard/Dashboard.tsx:221-224 | the dialog closes and the edit target is dropped |
| `Dashboard.Controller.OpenCreateDialog` | src/components/dashboard/Dashboard.tsx:385 | the dialog opens and the edit target is untouched, preserving "a target only while open" |
| `Dashboard.Controller.SetSearchTerm` | src/components/dashboard/Dashboard.tsx:354 | the search term takes the typed value |
| `Dashboard.Controller.SetStatusFilter` | src/components/dashboard/Dashboard.tsx:360 | the status filter takes the selected value |
| `Dashboard.Controller.SetPriorityFilter` | src/components/dashboard/Dashboard.tsx:373 | the priority filter takes the selected value |
| `TaskForm.With` | src/components/dashboard/TaskDialog.tsx:138 | the edited field takes the value and every other field is unchanged |
| `TaskForm.FromTask` | src/components/dashboard/TaskDialog.tsx:59-66 | edit mode copies title, status and priority, and a present description or due date; a null description or due date shows as the empty string |
| `TaskForm.FieldIssue` | src/components/dashboard/TaskDialog.tsx:16-22 | title passes iff 1 ≤ length ≤ 100 (empty gives "Title is required"); description passes iff empty or ≤ 500; status and priority pass iff enumerated; due date always passes |
| `TaskForm.IssuesFor` | src/components/dashboard/TaskDialog.tsx:16-22 | no more issues than listed fields, and none exactly when every listed field passes its rule |
| `TaskForm.Issues` | src/components/dashboard/TaskDialog.tsx:16-22 | at most one issue per schema field, each carrying its field's own message |
| `TaskForm.FormValid` | src/components/dashboard/TaskDialog.tsx:81-85 | the schema parse succeeds exactly when no field breaks its rule (per rule: `TaskForm.FormValidIff`) |
| `TaskForm.IssuesForSound` | src/components/dashboard/TaskDialog.tsx:81-85 | every reported issue concerns a schema field and carries that field's own message |
| `TaskForm.IssuesForComplete` | src/components/dashboard/TaskDialog.tsx:81-85 | every schema field that fails its rule is reported |
| `TaskForm.IssuesForDistinct` | src/components/dashboard/TaskDialog.tsx:16-22 | each field is reported at most once |
| `TaskForm.FormValidIff` | src/components/dashboard/TaskDialog.tsx:16-22 | the form passes iff the title, description, status and priority each pass their rule |
| `TaskForm.ErrorsOf` | src/components/dashboard/TaskDialog.tsx:90-95 | every issue's field has an entry, and the last issue's message is the one kept for its field |
| `TaskForm.ErrorsOfKeys` | src/components/dashboard/TaskDialog.tsx:90-95 | the error map is keyed by exactly the issues' fields |
| `TaskForm.ErrorsOfDistinct` | src/components/dashboard/TaskDialog.tsx:90-95 | with one issue per field, the error map holds exactly the issues' fields and messages |
| `TaskForm.ValidationErrors` | src/components/dashboard/TaskDialog.tsx:79-100 | the error map is keyed by exactly the failing fields, each with its own message, and is empty iff the form is valid |
| `TaskForm.NullIfEmpty` | src/components/dashboard/TaskDialog.tsx:112-113 | an empty string becomes null and any other string is kept |
| `TaskForm.SavePayload` | src/components/dashboard/TaskDialog.tsx:110-114 | the payload is the form with an empty description or due date sent as null, and with the status and priority it names |
| `TaskForm.EditRoundTrip` | src/components/dashboard/TaskDialog.tsx:58-66 | opening a well-formed task for edit and saving it untouched sends back its own fields (an empty description or due date as null) |
| `TaskForm.DefaultFormNeedsTitle` | src/components/dashboard/TaskDialog.tsx:68-74 | the create-mode form fails only on its empty title, with "Title is required" |
| `TaskForm.TitleBoundary` | src/components/dashboard/TaskDialog.tsx:17 | a 100-character title passes; a 101-character title is refused as too long |
| `TaskDialog.CollectErrors` | src/components/dashboard/TaskDialog.tsx:90-95 | the loop builds the error map of its issues, keyed only by the issues' fields |
| `TaskDialog.Dialog.constructor` | src/components/dashboard/TaskDialog.tsx:41-55 | the dialog starts from the default form, with no errors and not busy |
| `TaskDialog.Dialog.Reset` | src/components/dashboard/TaskDialog.tsx:58-77 | on open or a target change, the form is copied from the task or reset to defaults, and errors are cleared |
| `TaskDialog.Dialog.ValidateForm` | src/components/dashboard/TaskDialog.tsx:79-100 | returns whether the form passes; the errors become exactly the failing fields' messages (none when it passes) |
| `TaskDialog.Dialog.Submit` | src/components/dashboard/TaskDialog.tsx:102-116 | an invalid form stops with errors shown and the busy flag untouched; a valid one turns busy and yields the normalised payload |
| `TaskDialog.Dialog.SaveSettled` | src/components/dashboard/TaskDialog.tsx:116-134 | after the save the busy flag is false; the dialog closes iff the save succeeded; the form is not touched |
| `TaskDialog.Dialog.HandleInputChange` | src/components/dashboard/TaskDialog.tsx:137-143 | only the edited field changes; its error is blanked only when it was non-empty; other errors and the set of keys stay |
| `TaskCard.IsOverdue` | src/components/dashboard/TaskCard.tsx:67 | a completed task is never overdue, and neither is one without a due date |
| `TaskCard.OverdueStays` | src/components/dashboard/TaskCard.tsx:67 | once overdue, a task stays overdue at every later time |
| `TaskCard.IsDueSoon` | src/components/dashboard/TaskCard.tsx:67-68 | an overdue task is always due soon |
| `TaskCard.ShowsDueSoon` | src/components/dashboard/TaskCard.tsx:121 | the "Due Soon" badge shows iff the due date is in [now, now + 3 days) on a task not completed, and never together with "Overdue" |
| `TaskCard.AtMostOneDueBadge` | src/components/dashboard/TaskCard.tsx:115-126 | at most one due badge shows, and a completed task shows neither |
| `TaskCard.DueFlagsExample` | src/components/dashboard/TaskCard.tsx:67-68 | due yesterday and pending: overdue, no "Due Soon" badge; due in two days: "Due Soon" only; completed: neither flag |
| `TaskCard.QuickTransitions` | src/components/dashboard/TaskCard.tsx:143-172 | the current status is never offered; "complete" is offered iff not completed, "start" iff pending, "reopen" iff completed |
| `TaskCard.NoQuickRevertToPending` | src/components/dashboard/TaskCard.tsx:143-172 | an in-progress task is offered only "complete", never a return to pending |
| `TaskCard.PriorityVariant` | src/components/dashboard/TaskCard.tsx:42-49 | "high" and only it gives destructive, "medium" and only it gives warning, and every other string gives secondary |
| `TaskCard.StatusVariant` | src/components/dashboard/TaskCard.tsx:59-65 | "completed" and only it gives default, "in-progress" and only it gives secondary, and every other string gives outline |
| `TaskCard.PriorityVariantTotal` | src/components/dashboard/TaskCard.tsx:42-49 | high → destructive, medium → warning, low → secondary, with distinct priorities getting distinct variants |
| `TaskCard.StatusVariantTotal` | src/components/dashboard/TaskCard.tsx:59-65 | completed → default, in-progress → secondary, pending → outline, with distinct statuses getting distinct variants |
| `TaskCard.Card.constructor` | src/components/dashboard/TaskCard.tsx:40 | a card starts with its buttons enabled |
| `TaskCard.Card.Click` | src/components/dashboard/TaskCard.tsx:70-72 | a click requests the change iff the button is shown and enabled; the request targets a different status and the card turns busy |
| `TaskCard.Card.Rerender` | src/components/dashboard/Dashboard.tsx:417-424 | a re-render shows the held row passed in and keeps the busy flag |
| `TaskCard.Card.ChangeReturned` | src/components/dashboard/TaskCard.tsx:73 | once the change returns, the buttons are enabled again |
| `Workflow.SubmitDialog` | src/components/dashboard/Dashboard.tsx:431-436 | an invalid form sends nothing to the store, shows errors and keeps the form; a valid one sends its normalised payload, as an update of the edit target's id or as the defaulted insert for the signed-in user (nothing without a user); a successful save patches the collection (replace for edit, prepend for create), closes, and the close resets the dialog to the empty create-mode form; a failed save keeps the collection, the target and the typed form and stays open |
| `Workflow.QuickStatusChange` | src/components/dashboard/TaskCard.tsx:70-74 | an offered, enabled click runs the status change, re-renders the card with the row the store returned and re-enables the buttons; anything else changes nothing; a card showing a held row still shows a held row afterwards |

## Left out

- Remote store queries are not modelled. Their answer is the `reply` argument, and server-assigned ids and timestamps come inside it. Whether a create followed by an update leaves the updated title in place depends on the store's patch semantics, which are not modelled.
- `fetchProfile` and the profile in the header are left out: a read-only fetch with no logic. Sign-out (`handleLogout`) and the authentication context are left out too; the user is a constructor parameter of the controller.
- The `useEffect` that loads tasks when the user changes is left out; `FetchTasks` is called explicitly instead. A response with null data is taken to be the empty list already.
- `console.error` logging is left out. Toasts are returned as values, not displayed.
- `async`/`await` is not modelled: each handler is one atomic step, so overlapping remote calls are out of scope. Only the dialog's save (`Submit`, then `SaveSettled`) and the card's status change (`Click`, then `ChangeReturned`) are split, so that their busy flags can be seen in flight.
- A card whose row leaves the filtered view is unmounted by React; the model keeps the `Card` object and does not track which cards exist.
- JSX rendering, CSS classes, icons (`getStatusIcon`), the spinner and the empty-state texts are left out.
- date-fns and `Date` are left out. A due date is given as an optional millisecond timestamp (`dueAt`), and `addDays(now, 3)` is a fixed offset of three 24-hour days, ignoring daylight-saving shifts. Parsing the due-date string, invalid dates and `format` are not modelled.
- zod internals are left out. The rules are stated directly, issues are listed in the schema's field order, and the enumeration message is the text zod 3 produces.
- `Text.Lower`: maps only the ASCII letters A–Z. The full Unicode case mapping of `toLowerCase` is not modelled.
- `TaskForm.FieldIssue`: lengths are counted in Unicode characters, not in the UTF-16 code units JavaScript counts, so the two differ for characters outside the Basic Multilingual Plane.
- `TaskDialog.Dialog.HandleInputChange`: takes one of the five form fields, not an arbitrary string key, since only those five are ever passed.
- `Dashboard.Controller.FetchTasks`: ownership of the held tasks by the signed-in user is proved only on the condition that the store's replies belong to that user, since the code does not check it.
- `TaskViews.CountAfterReplace`: assumes unique ids, which the store's key guarantees but the controller does not check.
- src/pages/Index.tsx and src/pages/DashboardPage.tsx are not part of this model: they are routing and presentation only.
