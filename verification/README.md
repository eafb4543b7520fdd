# To-do store model

This project models the task store behind the MyTodo single-page task
manager (`TodoApp` in `static/script.js`). The store's state has three
parts:

- the ordered task list, newest first;
- the name of the current filter tab;
- the id of the task being edited, if any.

Every user gesture is modelled as a pure function from the old state to the
new state. Adding, toggling, finishing an edit, deleting and clearing also
return which notification the page would show afterwards. Starting and
cancelling an edit and choosing a filter show none, so they return only the
new state. The operations are:

- adding a task from the input box;
- toggling completion;
- starting, finishing and cancelling an edit;
- deleting a task;
- clearing completed tasks;
- choosing a filter.

The model also covers what the page derives from the state:

- the list under the current filter;
- the "N tasks remaining" label;
- whether the "clear completed" button is shown.

The caller supplies the values the browser would provide:

- the text typed into the input or edit box;
- the new task's id (the source uses `Date.now()`);
- the current ISO time stamp.

Modules:

- `Text`: the whitespace set of JavaScript's `String.prototype.trim` (the
  WhiteSpace and LineTerminator productions of ECMAScript), `Trim`, and
  decimal rendering of counts.
- `Seqs`: order-preserving `Filter` (JavaScript's `Array.prototype.filter`)
  and the subsequence relation.
- `Tasks`: the `Task` and `State` records, lookup of the first task with an
  id (`Array.prototype.find`), and the active/completed counts.
- `Store`: one function per state-changing operation.
- `View`: the filtered list, the remaining-count label and the visibility of
  the clear button.
- `Properties`: how operations combine, and the invariants every operation
  keeps.
- `Scenario`: a concrete session of add, add, complete and filter.

The model follows the code as written, including these behaviours:

- Ids are not assumed to be unique, since two tasks added in the same
  millisecond share one. Toggle and edit act on the first task with the id;
  delete removes every task with it.
- Deleting the task being edited leaves `editingTaskId` pointing at it
  (`Properties.DeleteLeavesEditPointer`).
- Starting an edit records the id before looking the task up, so an unknown
  id still enters edit mode (`Properties.StartEditUnknownId`).
- Finishing an edit does not compare the id with `editingTaskId`.
- The filter name is stored without validation. Any name other than "active"
  or "completed" shows every task.
- Toggling a task back to active sets its completion time to absent. Toggling
  twice therefore restores the completion flag, but not necessarily the
  original completion time (`Properties.ToggleTwice`).

## Model

| member | source | states |
|---|---|---|
| Tasks.Initial | static/script.js:6-9 | a fresh store holds the loaded tasks, shows the "all" filter and edits nothing |
| Text.IsWhitespace | static/script.js:161 | the characters trim removes: tab, vertical tab, form feed, space, no-break space, byte order mark, the other space separators, and the four line terminators |
| Text.Trim | static/script.js:161 | trimming returns a string with no whitespace at either end, obtained by cutting only whitespace off both ends of the input |
| Text.TrimEmptyIff | static/script.js:161-163 | the trimmed input is empty exactly when every character of the input is whitespace, which is the `!text` rejection test |
| Text.TrimUnique | static/script.js:271 | any split into leading whitespace, a trimmed middle and trailing whitespace picks out exactly the trimmed text, an independent characterisation of trim |
| Text.TrimIdempotent | static/script.js:271-278 | trimming already-trimmed text changes nothing, so a stored text compared with a re-trimmed edit of itself is equal |
| Text.NatToDecimal | static/script.js:492 | a count renders as a non-empty run of decimal digits with no leading zero unless the count is zero |
| Text.DecimalRoundTrip | static/script.js:492 | the rendered count, read back as a decimal numeral, is the count |
| Seqs.Filter | static/script.js:338 | the kept elements all pass the test and are no more than the input; order, membership and multiplicity are stated by Seqs.FilterIsSubsequence, Seqs.FilterMembers and Seqs.FilterMultiplicity |
| Seqs.FilterIsSubsequence | static/script.js:338 | filtering keeps the relative order of the tasks it keeps |
| Seqs.FilterMembers | static/script.js:338 | a value is in the filtered list exactly when it is in the list and passes the test |
| Seqs.FilterMultiplicity | static/script.js:362 | a value that passes the test is kept as many times as it occurs, and any other value is dropped entirely |
| Seqs.FilterDropsOne | static/script.js:338 | when exactly one position fails the test, filtering removes just that element and closes the gap |
| Seqs.FilterEmptyIff | static/script.js:358-360 | a filter keeps nothing exactly when every element fails its test |
| Seqs.FilterFullIff | static/script.js:486 | a filter keeps everything exactly when every element passes its test |
| Seqs.FilterComplementLengths | static/script.js:486-500 | two complementary filters split a list, so their lengths add up to its length |
| Seqs.FilterUpdateLength | static/script.js:202 | replacing one element changes a filter's length by the change in whether that position passes |
| Tasks.FindIndex | static/script.js:199 | the lookup returns the first position holding the id, and returns nothing exactly when no task has it |
| Tasks.FindIndexDependsOnIds | static/script.js:199 | the lookup depends only on the list of ids, so edits that keep the ids keep the task found |
| Tasks.CountsAddUp | static/script.js:486-500 | the remaining count plus the completed count is the number of tasks |
| Tasks.ActiveCount | static/script.js:486 | the remaining count is at most the number of tasks, zero exactly when every task is completed, and the whole length exactly when none is |
| Tasks.CompletedCount | static/script.js:358 | the completed count is at most the number of tasks, zero exactly when no task is completed, and the whole length exactly when all are |
| Store.AddTask | static/script.js:159-175 | blank input changes nothing and is reported; otherwise exactly one new active task with the trimmed text, the given id and the creation time is put in front, and the old tasks follow unchanged |
| Store.ToggleTask | static/script.js:202-203 | completion flips; the completion time is now when the task becomes completed and absent when it becomes active; no other field changes |
| Store.ToggleComplete | static/script.js:198-212 | an unknown id changes nothing; otherwise only the first task with the id changes, its completion flips with the matching time stamp, the ids stay put, and the notice tells which way it went |
| Store.StartEdit | static/script.js:218-229 | edit mode is set to the id, whether or not a task has it, and the tasks and filter are untouched |
| Store.FinishEdit | static/script.js:263-290 | an unknown id changes nothing; blank text is refused and edit mode stays on; the same text only leaves edit mode; other text replaces only that task's text with the trimmed input, stamps its update time and leaves edit mode |
| Store.CancelEdit | static/script.js:303-322 | edit mode is always left and the tasks and filter are untouched |
| Store.DeleteTask | static/script.js:328-351 | an absent id changes nothing; otherwise every task with the id is removed, the rest keep their order and multiplicity, and edit mode is left as it was |
| Store.ClearCompleted | static/script.js:357-368 | with nothing completed nothing happens; otherwise only active tasks remain, each as often as before and in order, the reported count is the number of completed tasks, and the list shrinks by exactly that many |
| Store.NoCompletedKeepsAll | static/script.js:358-362 | with no completed task, removing the completed ones would keep the whole list |
| Store.SetFilter | static/script.js:374-375 | the filter becomes the given name, unvalidated, and nothing else changes |
| View.FilteredTasks | static/script.js:395-404 | the view is an order-preserving subsequence; "active" shows exactly the active tasks and "completed" exactly the completed ones, each as often as stored; any other name shows the whole list |
| View.RemainingText | static/script.js:489-493 | the label is the count's numeral followed by the singular wording for one task and the plural wording otherwise |
| View.RemainingWording | static/script.js:489-493 | the label ends in " task remaining" exactly when the count is one, and in " tasks remaining" exactly when it is not |
| View.TaskCountText | static/script.js:485-493 | the state's label is singular exactly when one task is active, and it starts with that count's numeral |
| View.TaskCountTextReadsBack | static/script.js:486-492 | the numeral at the start of the label reads back as the number of active tasks |
| View.ClearCompletedVisible | static/script.js:499-507 | the clear button is shown exactly when some task is completed |
| Properties.Apply | static/script.js:159-375 | commands that only move edit mode or the filter keep the tasks and show nothing; every command other than add and commit-edit leaves the list no longer than it was |
| Properties.ApplyPreservesWellFormed | static/script.js:159-369 | every stored task keeps non-empty trimmed text and a completion time exactly when completed, under every command |
| Properties.AddKeepsWellFormed | static/script.js:161-175 | an added task and the tasks behind it are well formed |
| Properties.ToggleKeepsWellFormed | static/script.js:202-203 | toggling keeps a completion time exactly on completed tasks |
| Properties.FinishEditKeepsWellFormed | static/script.js:271-284 | committed edit text is non-empty and trimmed |
| Properties.DeleteKeepsWellFormed | static/script.js:338 | deleting keeps the store well formed |
| Properties.ClearKeepsWellFormed | static/script.js:362 | clearing completed tasks keeps the store well formed |
| Properties.WellFormedOfDrawn | static/script.js:338-362 | a list made only of tasks from a well-formed list is well formed |
| Properties.ApplyPreservesUniqueIds | static/script.js:168-175 | ids stay distinct under every command, as long as each added task gets an unused id |
| Properties.UniqueIdsOfSubsequence | static/script.js:338-362 | removing tasks never makes ids collide |
| Properties.ToggleAt | static/script.js:199-203 | toggling a known id replaces the first task with that id by its toggled copy and nothing else |
| Properties.ToggleTwice | static/script.js:198-203 | toggling the same task twice restores every completion flag; its completion time is then the second time if it started completed and absent otherwise; a task that started active with no completion time comes back exactly |
| Properties.ToggleUnknownId | static/script.js:199-200 | toggling an id no task carries is a no-op with no notice |
| Properties.CancelEditIdempotent | static/script.js:303-304 | cancelling twice is cancelling once |
| Properties.StartThenCancel | static/script.js:218-223 | starting an edit and then cancelling gives the store with no edit in progress |
| Properties.StartEditUnknownId | static/script.js:223-229 | edit mode is entered for an id that no task carries |
| Properties.DeleteLeavesEditPointer | static/script.js:328-351 | deleting the task being edited shortens the list but leaves edit mode pointing at the removed id |
| Properties.DeleteIdempotent | static/script.js:329-330 | a second delete of the same id finds nothing and does nothing |
| Properties.DeleteUnique | static/script.js:338 | with distinct ids, a delete removes exactly the task found and closes the gap |
| Properties.ClearCompletedIdempotent | static/script.js:358-360 | clearing a second time takes the early return |
| Properties.ClearCompletedCounts | static/script.js:362-366 | after clearing, the remaining count is unchanged, nothing is left to clear and the list is as long as the remaining count |
| Properties.AddCounts | static/script.js:171-178 | an accepted add raises the remaining count by one and leaves the completed count |
| Properties.ToggleCounts | static/script.js:202-207 | a toggle moves exactly one task between the remaining and completed counts |
| Properties.EditSession | static/script.js:223-288 | starting an edit and committing different non-blank text updates that task's text and time stamp, leaves edit mode and keeps the ids |
| Properties.BlankEditKeepsEditing | static/script.js:271-276 | committing blank text during an edit leaves the store, edit mode included, as it was |
| Properties.ViewsPartition | static/script.js:396-400 | the "active" and "completed" views together are as long as the list |
| Scenario.AddTwice | static/script.js:159-175 | two adds to an empty store list the second task before the first, both active with their trimmed texts |
| Scenario.CompleteOlder | static/script.js:198-212 | completing the older of two active tasks leaves one of each, the label "1 task remaining", the clear button shown and the "completed" view holding just that task |
| Scenario.AddAddCompleteFilter | static/script.js:159-404 | add, add, complete the first and show "completed": the view lists just the first task, with its trimmed text |

## Left out

- Rendering, element lookup and focus handling (`renderTasks`, `createTaskElement`, style and class changes) are presentation and carry no state.
- Event wiring and keyboard dispatch are browser plumbing. This includes the edit box's listener bookkeeping.
- Persistence to `localStorage` through JSON is a foreign browser call. So is the error toast when saving fails. The loaded list is a parameter of `Tasks.Initial`.
- `Date.now()` and `new Date().toISOString()` are clocks. They are parameters: the new id and the time stamp.
- The 300 ms removal delay in delete is a timer. Deletion is modelled as immediate.
- Notifications are modelled as a tag naming the message, not as a toast with a display timer.
- The service-worker registration is I/O.
- Store.DeleteTask: always reports the deletion notice. The source skips the notice when the task's page element is missing, which depends on the page and not on the store.
- Store.StartEdit: does not model the exception raised when the task's page element is missing. That exception comes after the id has been recorded, which the model does keep.
- Store.FinishEdit: assumes the edit box and text element exist. When they are missing the source returns without a change, and the model does not cover that page-dependent case.
- Seqs.Filter: its own contract states only that every kept element passes the test and that the result is no longer than the input. Order, membership and multiplicity are proved in separate lemmas (Seqs.FilterIsSubsequence, Seqs.FilterMembers, Seqs.FilterMultiplicity) that callers invoke, which keeps each use of the filter cheap to verify.
- Ids are unbounded integers. JavaScript numbers are doubles, but `Date.now()` values are exact integers well inside their range.
- JavaScript's `undefined` (an absent field) and `null` are both modelled as `None` for the completion and update times.
