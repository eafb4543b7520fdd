/**
 The data of the to-do store: a task record, the store state (the ordered
 task list, the current filter and the task being edited), lookup by id
 and the active/completed counts.
 */
module Tasks {
  import opened Seqs

  datatype Option<T> = None | Some(value: T)

  /** Ids are creation times in milliseconds; two tasks created within the
      same millisecond share an id, so ids are not assumed to be unique. */
  type TaskId = int

  /** An ISO-8601 time stamp, supplied by the caller. */
  type Timestamp = string

  /** `completedAt` and `updatedAt` are absent (`None`) until first set;
      the source's `undefined` and `null` both read as `None`. */
  datatype Task = Task(
    id: TaskId,
    text: string,
    completed: bool,
    createdAt: Timestamp,
    completedAt: Option<Timestamp>,
    updatedAt: Option<Timestamp>)

  /** Newest task first. `currentFilter` is whatever string the filter tab
      carried; only "active" and "completed" have a meaning of their own. */
  datatype State = State(
    tasks: seq<Task>,
    currentFilter: string,
    editingTaskId: Option<TaskId>)

  /** The state right after start-up, once the saved tasks are loaded. */
  function Initial(loaded: seq<Task>): (s: State)
    ensures s.tasks == loaded
    ensures s.currentFilter == "all" && s.editingTaskId == None
  {
    State(loaded, "all", None)
  }

  predicate IsActive(t: Task) {
    !t.completed
  }

  predicate IsCompleted(t: Task) {
    t.completed
  }

  /** Some task in `ts` carries `id`. */
  predicate HasId(ts: seq<Task>, id: TaskId) {
    exists i :: 0 <= i < |ts| && ts[i].id == id
  }

  /** Position `i` is the first task with `id`: the one `Array.prototype.find`
      returns. */
  predicate IsFirstWithId(ts: seq<Task>, id: TaskId, i: int) {
    && 0 <= i < |ts|
    && ts[i].id == id
    && forall j :: 0 <= j < i ==> ts[j].id != id
  }

  predicate UniqueIds(ts: seq<Task>) {
    forall i, j :: 0 <= i < j < |ts| ==> ts[i].id != ts[j].id
  }

  /** The ids of the tasks, in list order. */
  function Ids(ts: seq<Task>): (r: seq<TaskId>)
    ensures |r| == |ts|
    ensures forall i :: 0 <= i < |ts| ==> r[i] == ts[i].id
  {
    if |ts| == 0 then [] else [ts[0].id] + Ids(ts[1..])
  }

  /** The index of the first task with `id`, if any. */
  function FindIndex(ts: seq<Task>, id: TaskId): (r: Option<nat>)
    ensures r.Some? ==> IsFirstWithId(ts, id, r.value)
    ensures r.None? <==> !HasId(ts, id)
  {
    if |ts| == 0 then None
    else if ts[0].id == id then Some(0)
    else match FindIndex(ts[1..], id)
      case None =>
        assert forall j :: 1 <= j < |ts| ==> ts[j] == ts[1..][j - 1];
        None
      case Some(i) =>
        assert ts[i + 1] == ts[1..][i];
        Some(i + 1)
  }

  /** The first task with a given id is unique. */
  lemma FirstWithIdUnique(ts: seq<Task>, id: TaskId, i: int, j: int)
    requires IsFirstWithId(ts, id, i) && IsFirstWithId(ts, id, j)
    ensures i == j
  {
  }

  /** Lookup depends only on the ids, not on the rest of each record. */
  lemma {:induction false} FindIndexDependsOnIds(a: seq<Task>, b: seq<Task>, id: TaskId)
    requires Ids(a) == Ids(b)
    ensures FindIndex(a, id) == FindIndex(b, id)
  {
    if |a| > 0 {
      assert a[0].id == Ids(a)[0] == Ids(b)[0] == b[0].id;
      assert Ids(a[1..]) == Ids(a)[1..] == Ids(b)[1..] == Ids(b[1..]);
      FindIndexDependsOnIds(a[1..], b[1..], id);
    }
  }

  /** The number shown as "N tasks remaining": it is zero exactly when
      every task is completed and the whole length exactly when none is. */
  function ActiveCount(ts: seq<Task>): (r: nat)
    ensures r <= |ts|
    ensures r == 0 <==> forall i :: 0 <= i < |ts| ==> ts[i].completed
    ensures r == |ts| <==> forall i :: 0 <= i < |ts| ==> !ts[i].completed
  {
    FilterEmptyIff(IsActive, ts);
    FilterFullIff(IsActive, ts);
    |Filter(IsActive, ts)|
  }

  /** The number that decides whether "clear completed" is offered: it is
      zero exactly when no task is completed and the whole length exactly
      when all are. */
  function CompletedCount(ts: seq<Task>): (r: nat)
    ensures r <= |ts|
    ensures r == 0 <==> forall i :: 0 <= i < |ts| ==> !ts[i].completed
    ensures r == |ts| <==> forall i :: 0 <= i < |ts| ==> ts[i].completed
  {
    FilterEmptyIff(IsCompleted, ts);
    FilterFullIff(IsCompleted, ts);
    |Filter(IsCompleted, ts)|
  }

  /** Every task is either active or completed, so the two counts add up
      to the length of the list. */
  lemma CountsAddUp(ts: seq<Task>)
    ensures ActiveCount(ts) + CompletedCount(ts) == |ts|
  {
    FilterComplementLengths(IsActive, IsCompleted, ts);
  }
}
