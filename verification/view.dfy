/**
 What the page derives from the store after every change: the tasks listed
 under the current filter, the "N tasks remaining" label and whether the
 "clear completed" button is shown.
 */
module View {
  import opened Seqs
  import opened Text
  import opened Tasks

  /** The tasks listed under the current filter, in store order: "active"
      lists the active tasks, "completed" the completed ones, and any other
      filter name lists every task. */
  function FilteredTasks(s: State): (r: seq<Task>)
    ensures IsSubsequence(r, s.tasks)
    ensures s.currentFilter == "active" ==>
      && (forall i :: 0 <= i < |r| ==> !r[i].completed)
      && (forall t: Task :: !t.completed ==> multiset(r)[t] == multiset(s.tasks)[t])
    ensures s.currentFilter == "completed" ==>
      && (forall i :: 0 <= i < |r| ==> r[i].completed)
      && (forall t: Task :: t.completed ==> multiset(r)[t] == multiset(s.tasks)[t])
    ensures s.currentFilter != "active" && s.currentFilter != "completed" ==> r == s.tasks
  {
    if s.currentFilter == "active" then
      FilterMultiplicity(IsActive, s.tasks);
      FilterIsSubsequence(IsActive, s.tasks);
      Filter(IsActive, s.tasks)
    else if s.currentFilter == "completed" then
      FilterMultiplicity(IsCompleted, s.tasks);
      FilterIsSubsequence(IsCompleted, s.tasks);
      Filter(IsCompleted, s.tasks)
    else
      SubsequenceReflexive(s.tasks);
      s.tasks
  }

  /** `s` ends with `suffix`. */
  predicate EndsWith(s: string, suffix: string) {
    |suffix| <= |s| && s[|s| - |suffix|..] == suffix
  }

  const Singular: string := " task remaining"
  const Plural: string := " tasks remaining"

  /** The label for `n` active tasks: the number followed by the singular
      wording when it is exactly one and by the plural wording otherwise. */
  function RemainingText(n: nat): (r: string)
    ensures r == NatToDecimal(n) + (if n == 1 then Singular else Plural)
  {
    if n == 1 then
      assert NatToDecimal(1) + Singular == "1 task remaining";
      "1 task remaining"
    else
      NatToDecimal(n) + " tasks remaining"
  }

  /** The label ends in the singular wording exactly when one task is
      active, and in the plural wording otherwise. */
  lemma RemainingWording(n: nat)
    ensures EndsWith(RemainingText(n), Singular) <==> n == 1
    ensures EndsWith(RemainingText(n), Plural) <==> n != 1
  {
    var r := RemainingText(n);
    var d := NatToDecimal(n);
    if n == 1 {
      assert r[|r| - |Singular|..] == Singular;
      assert r[|r| - |Plural|] == '1';
      assert Plural[0] == ' ';
    } else {
      assert r[|r| - |Plural|..] == Plural;
      assert r[|r| - |Singular|] == Plural[1] == 't';
      assert Singular[0] == ' ';
    }
  }

  /** The "N tasks remaining" label of a state. */
  function TaskCountText(s: State): (r: string)
    ensures EndsWith(r, Singular) <==> ActiveCount(s.tasks) == 1
    ensures var digits := NatToDecimal(ActiveCount(s.tasks));
      |digits| < |r| && r[..|digits|] == digits
  {
    RemainingWording(ActiveCount(s.tasks));
    RemainingText(ActiveCount(s.tasks))
  }

  /** The count at the start of the label reads back as the number of
      active tasks. */
  lemma TaskCountTextReadsBack(s: State)
    ensures var n := ActiveCount(s.tasks);
      var digits := NatToDecimal(n);
      |digits| < |TaskCountText(s)| && DecimalValue(TaskCountText(s)[..|digits|]) == n
  {
    DecimalRoundTrip(ActiveCount(s.tasks));
  }

  /** The "clear completed" button is shown exactly when some task is
      completed. */
  function ClearCompletedVisible(s: State): (r: bool)
    ensures r <==> exists i :: 0 <= i < |s.tasks| && s.tasks[i].completed
  {
    CompletedCount(s.tasks) > 0
  }
}
