/**
 A short session played against the model: two tasks are added, the older
 one is completed, and the "completed" view is chosen.
 */
module Scenario {
  import opened Seqs
  import opened Text
  import opened Tasks
  import Store
  import View

  /** Adding `a` and then `b` to an empty store lists `b` before `a`, both
      active. */
  lemma AddTwice(a: string, b: string, idA: TaskId, idB: TaskId, t1: Timestamp, t2: Timestamp)
    requires !AllWhitespace(a) && !AllWhitespace(b)
    ensures var s1 := Store.AddTask(Initial([]), a, idA, t1).state;
      var s2 := Store.AddTask(s1, b, idB, t2).state;
      && Ids(s2.tasks) == [idB, idA]
      && s2.tasks[0].text == Trim(b) && s2.tasks[1].text == Trim(a)
      && !s2.tasks[0].completed && !s2.tasks[1].completed
  {
    var s1 := Store.AddTask(Initial([]), a, idA, t1).state;
    var s2 := Store.AddTask(s1, b, idB, t2).state;
    assert |s1.tasks| == 1 && s1.tasks[0].id == idA;
    assert s2.tasks[1] == s1.tasks[0];
    assert |s2.tasks| == 2 && s2.tasks[0].id == idB;
    var ids := Ids(s2.tasks);
    assert ids[0] == idB && ids[1] == idA;
  }

  /** Completing the older of two active tasks with different ids. */
  lemma CompleteOlder(s: State, id: TaskId, now: Timestamp)
    requires |s.tasks| == 2 && s.tasks[0].id != id && s.tasks[1].id == id
    requires !s.tasks[0].completed && !s.tasks[1].completed
    ensures var r := Store.ToggleComplete(s, id, now).state;
      var v := Store.SetFilter(r, "completed");
      && ActiveCount(r.tasks) == 1 && CompletedCount(r.tasks) == 1
      && View.TaskCountText(r) == "1 task remaining"
      && View.ClearCompletedVisible(r)
      && View.FilteredTasks(v) == [r.tasks[1]]
      && r.tasks[1].text == s.tasks[1].text
  {
    assert IsFirstWithId(s.tasks, id, 1);
    assert !IsFirstWithId(s.tasks, id, 0);
    var ts := Store.ToggleComplete(s, id, now).state.tasks;
    assert !ts[0].completed && ts[1].completed;
    assert ts == [ts[0]] + [ts[1]];
    FilterAppend(IsActive, [ts[0]], [ts[1]]);
    FilterAppend(IsCompleted, [ts[0]], [ts[1]]);
    assert Filter(IsCompleted, [ts[0]]) == [];
    assert Filter(IsCompleted, [ts[1]]) == [ts[1]];
    assert Filter(IsActive, [ts[0]]) == [ts[0]];
    assert Filter(IsActive, [ts[1]]) == [];
  }

  /** Starting empty, adding a task `a` and then a task `b` lists `b`
      first; completing `a` leaves one active and one completed task, the
      label reads "1 task remaining", the clear button appears, and the
      "completed" view lists just `a`. */
  lemma AddAddCompleteFilter(a: string, b: string, idA: TaskId, idB: TaskId,
                             t1: Timestamp, t2: Timestamp, t3: Timestamp)
    requires !AllWhitespace(a) && !AllWhitespace(b) && idA != idB
    ensures var s1 := Store.AddTask(Initial([]), a, idA, t1).state;
      var s2 := Store.AddTask(s1, b, idB, t2).state;
      var s3 := Store.ToggleComplete(s2, idA, t3).state;
      var s4 := Store.SetFilter(s3, "completed");
      && Ids(s2.tasks) == [idB, idA]
      && s2.tasks[0].text == Trim(b) && s2.tasks[1].text == Trim(a)
      && ActiveCount(s3.tasks) == 1 && CompletedCount(s3.tasks) == 1
      && View.TaskCountText(s3) == "1 task remaining"
      && View.ClearCompletedVisible(s3)
      && View.FilteredTasks(s4) == [s3.tasks[1]]
      && s3.tasks[1].text == Trim(a)
  {
    AddTwice(a, b, idA, idB, t1, t2);
    var s1 := Store.AddTask(Initial([]), a, idA, t1).state;
    var s2 := Store.AddTask(s1, b, idB, t2).state;
    assert s2.tasks[0].id == idB && s2.tasks[1].id == idA;
    CompleteOlder(s2, idA, t3);
  }
}
