/**
 The state-changing operations of the to-do store, each a pure function
 from the old state (plus the user's input and the current time) to the new
 state and the notification the page shows afterwards.
 */
module Store {
  import opened Seqs
  import opened Text
  import opened Tasks

  /** Which notification follows an operation; `Silent` when none does. */
  datatype Notice =
    | Silent
    | EmptyTaskText        // "Please enter a task"
    | TaskAdded            // "Task added successfully!"
    | TaskCompleted        // "Task completed!"
    | TaskReactivated      // "Task marked as active"
    | EmptyEditText        // "Task text cannot be empty"
    | TaskUpdated          // "Task updated successfully!"
    | TaskDeleted          // "Task deleted successfully!"
    | TasksCleared(count: nat)  // "<count> completed task(s) cleared!"

  datatype Step = Step(state: State, notice: Notice)

  /** Fields other than completion are equal. */
  predicate SameButCompletion(a: Task, b: Task) {
    a.id == b.id && a.text == b.text && a.createdAt == b.createdAt && a.updatedAt == b.updatedAt
  }

  /** Adds a task from the text typed in the input box. Text that is empty
      once trimmed is rejected; otherwise a new active task holding the
      trimmed text is put in front of all others. */
  function AddTask(s: State, input: string, id: TaskId, now: Timestamp): (r: Step)
    ensures AllWhitespace(input) ==> r == Step(s, EmptyTaskText)
    ensures !AllWhitespace(input) ==>
      && r.notice == TaskAdded
      && r.state.currentFilter == s.currentFilter
      && r.state.editingTaskId == s.editingTaskId
      && |r.state.tasks| == |s.tasks| + 1
      && r.state.tasks[1..] == s.tasks
      && var t := r.state.tasks[0];
         && t.id == id && t.createdAt == now
         && t.text == Trim(input) && t.text != [] && IsTrimmed(t.text)
         && !t.completed && t.completedAt == None && t.updatedAt == None
  {
    var text := Trim(input);
    TrimEmptyIff(input);
    if text == [] then
      Step(s, EmptyTaskText)
    else
      var task := Task(id, text, false, now, None, None);
      assert ([task] + s.tasks)[1..] == s.tasks;
      Step(s.(tasks := [task] + s.tasks), TaskAdded)
  }

  /** Flips completion; a task that becomes completed records the time, one
      that becomes active loses its completion time. */
  function ToggleTask(t: Task, now: Timestamp): (t': Task)
    ensures SameButCompletion(t, t')
    ensures t'.completed != t.completed
    ensures t'.completed ==> t'.completedAt == Some(now)
    ensures !t'.completed ==> t'.completedAt == None
  {
    var done := !t.completed;
    t.(completed := done, completedAt := if done then Some(now) else None)
  }

  /** Toggles the first task with `id`; an unknown id changes nothing. */
  function ToggleComplete(s: State, id: TaskId, now: Timestamp): (r: Step)
    ensures !HasId(s.tasks, id) ==> r == Step(s, Silent)
    ensures r.state.currentFilter == s.currentFilter
    ensures r.state.editingTaskId == s.editingTaskId
    ensures |r.state.tasks| == |s.tasks|
    ensures Ids(r.state.tasks) == Ids(s.tasks)
    ensures forall i :: 0 <= i < |s.tasks| && !IsFirstWithId(s.tasks, id, i) ==>
      r.state.tasks[i] == s.tasks[i]
    ensures forall i :: IsFirstWithId(s.tasks, id, i) ==>
      && SameButCompletion(s.tasks[i], r.state.tasks[i])
      && r.state.tasks[i].completed == !s.tasks[i].completed
      && r.state.tasks[i].completedAt == (if r.state.tasks[i].completed then Some(now) else None)
      && r.notice == (if r.state.tasks[i].completed then TaskCompleted else TaskReactivated)
  {
    match FindIndex(s.tasks, id)
    case None => Step(s, Silent)
    case Some(i) =>
      var t := ToggleTask(s.tasks[i], now);
      var r := Step(s.(tasks := s.tasks[i := t]), if t.completed then TaskCompleted else TaskReactivated);
      assert forall j :: IsFirstWithId(s.tasks, id, j) ==> j == i;
      r
  }

  /** Leaves edit mode, whichever task was being edited. */
  function CancelEdit(s: State): (r: State)
    ensures r.editingTaskId == None
    ensures r.tasks == s.tasks && r.currentFilter == s.currentFilter
  {
    if s.editingTaskId == None then s else s.(editingTaskId := None)
  }

  /** Enters edit mode for `id`, first leaving any edit in progress. The id
      is recorded before, and whether or not, a task with it is found. */
  function StartEdit(s: State, id: TaskId): (r: State)
    ensures r.editingTaskId == Some(id)
    ensures r.tasks == s.tasks && r.currentFilter == s.currentFilter
  {
    CancelEdit(s).(editingTaskId := Some(id))
  }

  /** Commits the edit box's text to the first task with `id`. Nothing
      happens for an unknown id; text that is empty once trimmed is refused
      and edit mode stays on; unchanged text just leaves edit mode; any other
      text replaces the task's text, stamps `updatedAt` and leaves edit mode.
      The edited id is not compared with `editingTaskId`. */
  function FinishEdit(s: State, id: TaskId, input: string, now: Timestamp): (r: Step)
    ensures !HasId(s.tasks, id) ==> r == Step(s, Silent)
    ensures HasId(s.tasks, id) && AllWhitespace(input) ==> r == Step(s, EmptyEditText)
    ensures r.state.currentFilter == s.currentFilter
    ensures |r.state.tasks| == |s.tasks|
    ensures Ids(r.state.tasks) == Ids(s.tasks)
    ensures forall i :: 0 <= i < |s.tasks| && !IsFirstWithId(s.tasks, id, i) ==>
      r.state.tasks[i] == s.tasks[i]
    ensures forall i :: IsFirstWithId(s.tasks, id, i) && !AllWhitespace(input) ==>
      && r.state.editingTaskId == None
      && (Trim(input) == s.tasks[i].text ==> r.state.tasks == s.tasks && r.notice == Silent)
      && (Trim(input) != s.tasks[i].text ==>
            && r.state.tasks[i] == s.tasks[i].(text := Trim(input), updatedAt := Some(now))
            && r.notice == TaskUpdated)
  {
    match FindIndex(s.tasks, id)
    case None => Step(s, Silent)
    case Some(i) =>
      var newText := Trim(input);
      TrimEmptyIff(input);
      assert forall j :: IsFirstWithId(s.tasks, id, j) ==> j == i;
      if newText == [] then
        Step(s, EmptyEditText)
      else if newText == s.tasks[i].text then
        Step(CancelEdit(s), Silent)
      else
        var t := s.tasks[i].(text := newText, updatedAt := Some(now));
        Step(State(s.tasks[i := t], s.currentFilter, None), TaskUpdated)
  }

  /** The filter keeping every task whose id is not `id`. */
  function OtherId(id: TaskId): Task -> bool {
    (t: Task) => t.id != id
  }

  /** Removes every task with `id` (there may be several); an unknown id
      changes nothing. Edit mode is left as it is, even when the task being
      edited is the one removed. */
  function DeleteTask(s: State, id: TaskId): (r: Step)
    ensures !HasId(s.tasks, id) ==> r == Step(s, Silent)
    ensures HasId(s.tasks, id) ==> r.notice == TaskDeleted
    ensures r.state.currentFilter == s.currentFilter
    ensures r.state.editingTaskId == s.editingTaskId
    ensures IsSubsequence(r.state.tasks, s.tasks)
    ensures !HasId(r.state.tasks, id)
    ensures forall t :: t in r.state.tasks <==> t in s.tasks && t.id != id
    ensures forall t: Task :: t.id != id ==> multiset(r.state.tasks)[t] == multiset(s.tasks)[t]
  {
    if !HasId(s.tasks, id) then
      FilterKeepsAll(OtherId(id), s.tasks);
      SubsequenceReflexive(s.tasks);
      Step(s, Silent)
    else
      var kept := Filter(OtherId(id), s.tasks);
      FilterMultiplicity(OtherId(id), s.tasks);
      FilterMembers(OtherId(id), s.tasks);
      FilterIsSubsequence(OtherId(id), s.tasks);
      Step(s.(tasks := kept), TaskDeleted)
  }

  /** Removes every completed task and reports how many went. With no
      completed task nothing happens and nothing is reported. */
  function ClearCompleted(s: State): (r: Step)
    ensures CompletedCount(s.tasks) == 0 ==> r == Step(s, Silent)
    ensures CompletedCount(s.tasks) > 0 ==>
      && r.notice == TasksCleared(CompletedCount(s.tasks))
      && |r.state.tasks| == |s.tasks| - CompletedCount(s.tasks)
    ensures r.state.currentFilter == s.currentFilter
    ensures r.state.editingTaskId == s.editingTaskId
    ensures IsSubsequence(r.state.tasks, s.tasks)
    ensures forall i :: 0 <= i < |r.state.tasks| ==> !r.state.tasks[i].completed
    ensures forall t: Task :: !t.completed ==> multiset(r.state.tasks)[t] == multiset(s.tasks)[t]
  {
    var count := CompletedCount(s.tasks);
    var kept := Filter(IsActive, s.tasks);
    CountsAddUp(s.tasks);
    if count == 0 then
      NoCompletedKeepsAll(s.tasks);
      SubsequenceReflexive(s.tasks);
      Step(s, Silent)
    else
      FilterMultiplicity(IsActive, s.tasks);
      FilterIsSubsequence(IsActive, s.tasks);
      Step(s.(tasks := kept), TasksCleared(count))
  }

  /** Without completed tasks, keeping the active ones keeps them all. */
  lemma NoCompletedKeepsAll(ts: seq<Task>)
    requires CompletedCount(ts) == 0
    ensures Filter(IsActive, ts) == ts
  {
    FilterKeepsAll(IsActive, ts);
  }

  /** Records the filter name as given; it is not checked against the three
      names the page offers. */
  function SetFilter(s: State, filter: string): (r: State)
    ensures r.currentFilter == filter
    ensures r.tasks == s.tasks && r.editingTaskId == s.editingTaskId
  {
    s.(currentFilter := filter)
  }
}
