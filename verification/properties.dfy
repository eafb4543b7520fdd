/**
 Facts about sequences of store operations: the invariants every operation
 keeps, how operations combine (toggling twice, repeated deletes and
 clears, a whole edit session) and where the edit pointer can go stale.
 */
module Properties {
  import opened Seqs
  import opened Text
  import opened Tasks
  import Store
  import View

  /** One user gesture, with the input text, the fresh id and the current
      time it brings along. */
  datatype Command =
    | AddTask(input: string, newId: TaskId, now: Timestamp)
    | ToggleComplete(id: TaskId, now: Timestamp)
    | StartEdit(id: TaskId)
    | FinishEdit(id: TaskId, input: string, now: Timestamp)
    | CancelEdit
    | DeleteTask(id: TaskId)
    | ClearCompleted
    | SetFilter(filter: string)

  /** Runs one command against the store. */
  function Apply(s: State, c: Command): (r: Store.Step)
    ensures c.StartEdit? || c.CancelEdit? || c.SetFilter? ==>
      r.state.tasks == s.tasks && r.notice == Store.Silent
    ensures !c.AddTask? && !c.FinishEdit? ==> |r.state.tasks| <= |s.tasks|
  {
    match c
    case AddTask(input, newId, now) => Store.AddTask(s, input, newId, now)
    case ToggleComplete(id, now) => Store.ToggleComplete(s, id, now)
    case StartEdit(id) => Store.Step(Store.StartEdit(s, id), Store.Silent)
    case FinishEdit(id, input, now) => Store.FinishEdit(s, id, input, now)
    case CancelEdit => Store.Step(Store.CancelEdit(s), Store.Silent)
    case DeleteTask(id) => Store.DeleteTask(s, id)
    case ClearCompleted => Store.ClearCompleted(s)
    case SetFilter(filter) => Store.Step(Store.SetFilter(s, filter), Store.Silent)
  }

  /** A stored task holds non-empty trimmed text, and has a completion time
      exactly when it is completed. */
  predicate WellFormedTask(t: Task) {
    t.text != [] && IsTrimmed(t.text) && (t.completed <==> t.completedAt.Some?)
  }

  predicate WellFormed(s: State) {
    forall i :: 0 <= i < |s.tasks| ==> WellFormedTask(s.tasks[i])
  }

  /** Every task of `a` is a task of `b`. */
  predicate TasksDrawnFrom(a: seq<Task>, b: seq<Task>) {
    forall i :: 0 <= i < |a| ==> a[i] in b
  }

  /** Well-formedness carries over to a list made of tasks of a well-formed
      list. */
  lemma WellFormedOfDrawn(a: State, b: State)
    requires WellFormed(b) && TasksDrawnFrom(a.tasks, b.tasks)
    ensures WellFormed(a)
  {
    forall i | 0 <= i < |a.tasks| ensures WellFormedTask(a.tasks[i]) {
      var t := a.tasks[i];
      var k :| 0 <= k < |b.tasks| && b.tasks[k] == t;
    }
  }

  /** An added task is well formed, and so is the rest of the list. */
  lemma AddKeepsWellFormed(s: State, input: string, id: TaskId, now: Timestamp)
    requires WellFormed(s)
    ensures WellFormed(Store.AddTask(s, input, id, now).state)
  {
    var r := Store.AddTask(s, input, id, now).state;
    if !AllWhitespace(input) {
      forall i | 0 <= i < |r.tasks| ensures WellFormedTask(r.tasks[i]) {
        if i > 0 {
          assert r.tasks[i] == r.tasks[1..][i - 1];
        }
      }
    }
  }

  /** Toggling keeps a completion time exactly on completed tasks. */
  lemma ToggleKeepsWellFormed(s: State, id: TaskId, now: Timestamp)
    requires WellFormed(s)
    ensures WellFormed(Store.ToggleComplete(s, id, now).state)
  {
  }

  /** Committed text is non-empty and trimmed. */
  lemma FinishEditKeepsWellFormed(s: State, id: TaskId, input: string, now: Timestamp)
    requires WellFormed(s)
    ensures WellFormed(Store.FinishEdit(s, id, input, now).state)
  {
  }

  /** Deleting keeps only tasks that were already there. */
  lemma DeleteKeepsWellFormed(s: State, id: TaskId)
    requires WellFormed(s)
    ensures WellFormed(Store.DeleteTask(s, id).state)
  {
    var r := Store.DeleteTask(s, id).state;
    WellFormedOfDrawn(r, s);
  }

  /** Clearing keeps only tasks that were already there. */
  lemma ClearKeepsWellFormed(s: State)
    requires WellFormed(s)
    ensures WellFormed(Store.ClearCompleted(s).state)
  {
    var r := Store.ClearCompleted(s).state;
    forall i | 0 <= i < |r.tasks| ensures r.tasks[i] in s.tasks {
      SubsequenceMember(r.tasks, s.tasks, i);
    }
    WellFormedOfDrawn(r, s);
  }

  /** A store that starts out well formed stays well formed under every
      command. */
  lemma ApplyPreservesWellFormed(s: State, c: Command)
    requires WellFormed(s)
    ensures WellFormed(Apply(s, c).state)
  {
    match c
    case AddTask(input, newId, now) => AddKeepsWellFormed(s, input, newId, now);
    case ToggleComplete(id, now) => ToggleKeepsWellFormed(s, id, now);
    case StartEdit(id) =>
    case FinishEdit(id, input, now) => FinishEditKeepsWellFormed(s, id, input, now);
    case CancelEdit =>
    case DeleteTask(id) => DeleteKeepsWellFormed(s, id);
    case ClearCompleted => ClearKeepsWellFormed(s);
    case SetFilter(filter) =>
  }

  /** A command whose new task id is not already taken. */
  predicate FreshFor(s: State, c: Command) {
    c.AddTask? ==> !HasId(s.tasks, c.newId)
  }

  /** Ids stay distinct as long as every added task gets an unused id. */
  lemma ApplyPreservesUniqueIds(s: State, c: Command)
    requires UniqueIds(s.tasks)
    requires FreshFor(s, c)
    ensures UniqueIds(Apply(s, c).state.tasks)
  {
    var r := Apply(s, c).state;
    match c
    case AddTask(input, newId, now) =>
      if !AllWhitespace(input) {
        forall i, j | 0 <= i < j < |r.tasks| ensures r.tasks[i].id != r.tasks[j].id {
          assert r.tasks[j] == s.tasks[j - 1];
          if i > 0 {
            assert r.tasks[i] == s.tasks[i - 1];
          }
        }
      }
    case ToggleComplete(id, now) =>
      assert Ids(r.tasks) == Ids(s.tasks);
    case StartEdit(id) =>
    case FinishEdit(id, input, now) =>
      assert Ids(r.tasks) == Ids(s.tasks);
    case CancelEdit =>
    case DeleteTask(id) =>
      UniqueIdsOfSubsequence(r.tasks, s.tasks);
    case ClearCompleted =>
      UniqueIdsOfSubsequence(r.tasks, s.tasks);
    case SetFilter(filter) =>
  }

  /** Dropping tasks never makes two ids collide. */
  lemma {:induction false} UniqueIdsOfSubsequence(a: seq<Task>, b: seq<Task>)
    requires IsSubsequence(a, b) && UniqueIds(b)
    ensures UniqueIds(a)
    decreases |b|
  {
    if |a| > 0 && |b| > 0 {
      if a[0] == b[0] && IsSubsequence(a[1..], b[1..]) {
        UniqueIdsOfSubsequence(a[1..], b[1..]);
        forall j | 0 < j < |a| ensures a[0].id != a[j].id {
          SubsequenceMember(a[1..], b[1..], j - 1);
        }
      } else {
        UniqueIdsOfSubsequence(a, b[1..]);
      }
    }
  }

  /** Each element of a subsequence occurs in the longer sequence. */
  lemma {:induction false} SubsequenceMember<T>(a: seq<T>, b: seq<T>, k: nat)
    requires IsSubsequence(a, b) && k < |a|
    ensures a[k] in b
    decreases |b|
  {
    if a[0] == b[0] && IsSubsequence(a[1..], b[1..]) {
      if k > 0 {
        SubsequenceMember(a[1..], b[1..], k - 1);
      }
    } else {
      SubsequenceMember(a, b[1..], k);
    }
  }

  /** Toggling a known id replaces the first task with that id by its
      toggled copy. */
  lemma ToggleAt(s: State, id: TaskId, now: Timestamp, i: nat)
    requires IsFirstWithId(s.tasks, id, i)
    ensures Store.ToggleComplete(s, id, now).state
      == s.(tasks := s.tasks[i := Store.ToggleTask(s.tasks[i], now)])
  {
    var k := FindIndex(s.tasks, id).value;
    FirstWithIdUnique(s.tasks, id, i, k);
  }

  /** Toggling the same task twice restores every completion flag; the
      task's completion time is then the second call's time if it is
      completed and absent otherwise, so a task that started active with no
      completion time comes back exactly. */
  lemma ToggleTwice(s: State, id: TaskId, now1: Timestamp, now2: Timestamp, i: nat)
    requires IsFirstWithId(s.tasks, id, i)
    ensures var s2 := Store.ToggleComplete(Store.ToggleComplete(s, id, now1).state, id, now2).state;
      && |s2.tasks| == |s.tasks|
      && (forall j :: 0 <= j < |s.tasks| ==> s2.tasks[j].completed == s.tasks[j].completed)
      && s2.tasks[i].completedAt == (if s.tasks[i].completed then Some(now2) else None)
      && (s.tasks[i].completedAt == None && !s.tasks[i].completed ==> s2 == s)
  {
    var t := s.tasks[i];
    var t1 := Store.ToggleTask(t, now1);
    var t2 := Store.ToggleTask(t1, now2);
    var s1 := s.(tasks := s.tasks[i := t1]);
    ToggleAt(s, id, now1, i);
    assert IsFirstWithId(s1.tasks, id, i);
    ToggleAt(s1, id, now2, i);
    assert s1.tasks[i := t2] == s.tasks[i := t2];
    if t.completedAt == None && !t.completed {
      assert t2 == t;
      assert s.tasks[i := t2] == s.tasks;
    }
  }

  /** An id no task carries is left alone by toggling. */
  lemma ToggleUnknownId(s: State, id: TaskId, now: Timestamp)
    requires !HasId(s.tasks, id)
    ensures Store.ToggleComplete(s, id, now) == Store.Step(s, Store.Silent)
  {
  }

  /** Leaving edit mode twice is leaving it once. */
  lemma CancelEditIdempotent(s: State)
    ensures Store.CancelEdit(Store.CancelEdit(s)) == Store.CancelEdit(s)
  {
  }

  /** Entering and then leaving edit mode gives back the store with no edit
      in progress. */
  lemma StartThenCancel(s: State, id: TaskId)
    ensures Store.CancelEdit(Store.StartEdit(s, id)) == Store.CancelEdit(s)
  {
  }

  /** Edit mode is entered even for an id no task carries. */
  lemma StartEditUnknownId(s: State, id: TaskId)
    requires !HasId(s.tasks, id)
    ensures var r := Store.StartEdit(s, id);
      r.editingTaskId == Some(id) && !HasId(r.tasks, id)
  {
  }

  /** Deleting the task being edited leaves edit mode pointing at an id no
      task carries any more. */
  lemma DeleteLeavesEditPointer(s: State, id: TaskId)
    requires s.editingTaskId == Some(id) && HasId(s.tasks, id)
    ensures var r := Store.DeleteTask(s, id).state;
      r.editingTaskId == Some(id) && !HasId(r.tasks, id) && |r.tasks| < |s.tasks|
  {
    var i := FindIndex(s.tasks, id).value;
    assert Store.DeleteTask(s, id).state.tasks == Filter(Store.OtherId(id), s.tasks);
    FilterShorter(Store.OtherId(id), s.tasks, i);
  }

  /** A second delete of the same id finds nothing to do. */
  lemma DeleteIdempotent(s: State, id: TaskId)
    ensures var r := Store.DeleteTask(s, id);
      Store.DeleteTask(r.state, id) == Store.Step(r.state, Store.Silent)
  {
  }

  /** With distinct ids, a delete removes exactly the one task found, and
      the tasks before and after it close up. */
  lemma DeleteUnique(s: State, id: TaskId, i: nat)
    requires UniqueIds(s.tasks)
    requires IsFirstWithId(s.tasks, id, i)
    ensures Store.DeleteTask(s, id).state.tasks == s.tasks[..i] + s.tasks[i + 1..]
  {
    var p := Store.OtherId(id);
    assert Store.DeleteTask(s, id).state.tasks == Filter(p, s.tasks);
    FilterDropsOne(p, s.tasks, i);
  }

  /** Clearing completed tasks a second time does nothing. */
  lemma ClearCompletedIdempotent(s: State)
    ensures var r := Store.ClearCompleted(s);
      Store.ClearCompleted(r.state) == Store.Step(r.state, Store.Silent)
  {
    var r := Store.ClearCompleted(s).state;
  }

  /** After clearing, the remaining count is unchanged and nothing is left
      to clear. */
  lemma ClearCompletedCounts(s: State)
    ensures var r := Store.ClearCompleted(s).state;
      && ActiveCount(r.tasks) == ActiveCount(s.tasks)
      && CompletedCount(r.tasks) == 0
      && |r.tasks| == ActiveCount(s.tasks)
  {
    var r := Store.ClearCompleted(s).state;
    CountsAddUp(s.tasks);
    CountsAddUp(r.tasks);
    if CompletedCount(s.tasks) > 0 {
      FilterIdempotent(IsActive, s.tasks);
    }
  }

  /** Adding a task raises the remaining count by one. */
  lemma AddCounts(s: State, input: string, id: TaskId, now: Timestamp)
    requires !AllWhitespace(input)
    ensures var r := Store.AddTask(s, input, id, now).state;
      ActiveCount(r.tasks) == ActiveCount(s.tasks) + 1
      && CompletedCount(r.tasks) == CompletedCount(s.tasks)
  {
    var r := Store.AddTask(s, input, id, now).state;
    assert r.tasks == [r.tasks[0]] + s.tasks;
    FilterAppend(IsActive, [r.tasks[0]], s.tasks);
    FilterAppend(IsCompleted, [r.tasks[0]], s.tasks);
  }

  /** Toggling a known id moves exactly one task between the active and the
      completed counts. */
  lemma ToggleCounts(s: State, id: TaskId, now: Timestamp, i: nat)
    requires IsFirstWithId(s.tasks, id, i)
    ensures var r := Store.ToggleComplete(s, id, now).state;
      && (s.tasks[i].completed ==> ActiveCount(r.tasks) == ActiveCount(s.tasks) + 1)
      && (!s.tasks[i].completed ==> ActiveCount(r.tasks) + 1 == ActiveCount(s.tasks))
      && ActiveCount(r.tasks) + CompletedCount(r.tasks) == |s.tasks|
  {
    var r := Store.ToggleComplete(s, id, now).state;
    assert r.tasks == s.tasks[i := r.tasks[i]];
    FilterUpdateLength(IsActive, s.tasks, i, r.tasks[i]);
    CountsAddUp(r.tasks);
  }

  /** A whole edit session: entering edit mode for a task and committing a
      different non-blank text changes that task's text to the trimmed input
      and leaves edit mode. */
  lemma EditSession(s: State, id: TaskId, input: string, now: Timestamp, i: nat)
    requires IsFirstWithId(s.tasks, id, i)
    requires !AllWhitespace(input) && Trim(input) != s.tasks[i].text
    ensures var r := Store.FinishEdit(Store.StartEdit(s, id), id, input, now);
      && r.notice == Store.TaskUpdated
      && r.state.editingTaskId == None
      && r.state.tasks[i].text == Trim(input)
      && r.state.tasks[i].updatedAt == Some(now)
      && Ids(r.state.tasks) == Ids(s.tasks)
  {
  }

  /** Committing blank text keeps the store, edit mode included, as it
      was. */
  lemma BlankEditKeepsEditing(s: State, id: TaskId, input: string, now: Timestamp)
    requires HasId(s.tasks, id) && AllWhitespace(input)
    ensures var e := Store.StartEdit(s, id);
      Store.FinishEdit(e, id, input, now) == Store.Step(e, Store.EmptyEditText)
  {
  }

  /** The views under "active" and "completed" split the list between
      them. */
  lemma ViewsPartition(s: State)
    ensures |View.FilteredTasks(Store.SetFilter(s, "active"))|
          + |View.FilteredTasks(Store.SetFilter(s, "completed"))| == |s.tasks|
  {
    CountsAddUp(s.tasks);
  }
}
