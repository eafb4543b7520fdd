/**
 Order-preserving filtering of sequences, the `Array.prototype.filter` that
 the task store uses for deletion, for clearing completed tasks, for the
 filtered views and for the counts.
 */
module Seqs {

  /** `a` can be obtained from `b` by deleting elements, keeping the order of
      the rest. */
  predicate IsSubsequence<T(==)>(a: seq<T>, b: seq<T>)
    decreases |b|
  {
    if |a| == 0 then true
    else if |b| == 0 then false
    else (a[0] == b[0] && IsSubsequence(a[1..], b[1..])) || IsSubsequence(a, b[1..])
  }

  /** Every sequence is a subsequence of itself. */
  lemma {:induction false} SubsequenceReflexive<T>(s: seq<T>)
    ensures IsSubsequence(s, s)
  {
    if |s| > 0 {
      SubsequenceReflexive(s[1..]);
    }
  }

  /** The elements of `s` that satisfy `p`, in their order in `s`. */
  function Filter<T(==, !new)>(p: T -> bool, s: seq<T>): (r: seq<T>)
    ensures |r| <= |s|
    ensures forall i :: 0 <= i < |r| ==> p(r[i])
  {
    if |s| == 0 then []
    else
      var rest := Filter(p, s[1..]);
      if p(s[0]) then [s[0]] + rest else rest
  }

  /** The filter keeps the order of what it keeps. */
  lemma {:induction false} FilterIsSubsequence<T(!new)>(p: T -> bool, s: seq<T>)
    ensures IsSubsequence(Filter(p, s), s)
  {
    if |s| > 0 {
      FilterIsSubsequence(p, s[1..]);
      if p(s[0]) {
        assert Filter(p, s)[1..] == Filter(p, s[1..]);
      }
    }
  }

  /** Exactly the values of `s` satisfying `p` are kept. */
  lemma {:induction false} FilterMembers<T(!new)>(p: T -> bool, s: seq<T>)
    ensures forall x :: x in Filter(p, s) <==> x in s && p(x)
  {
    if |s| > 0 {
      FilterMembers(p, s[1..]);
      assert s == [s[0]] + s[1..];
    }
  }

  /** Each value satisfying `p` is kept as many times as it occurs, and
      every other value is dropped entirely. */
  lemma {:induction false} FilterMultiplicity<T(!new)>(p: T -> bool, s: seq<T>)
    ensures forall x :: multiset(Filter(p, s))[x] == if p(x) then multiset(s)[x] else 0
  {
    if |s| > 0 {
      FilterMultiplicity(p, s[1..]);
      assert s == [s[0]] + s[1..];
    }
  }

  /** Filtering distributes over concatenation. */
  lemma {:induction false} FilterAppend<T(!new)>(p: T -> bool, a: seq<T>, b: seq<T>)
    ensures Filter(p, a + b) == Filter(p, a) + Filter(p, b)
  {
    if |a| > 0 {
      assert (a + b)[1..] == a[1..] + b;
      FilterAppend(p, a[1..], b);
    } else {
      assert a + b == b;
    }
  }

  /** A filter that every element passes keeps the whole sequence. */
  lemma {:induction false} FilterKeepsAll<T(!new)>(p: T -> bool, s: seq<T>)
    requires forall i :: 0 <= i < |s| ==> p(s[i])
    ensures Filter(p, s) == s
  {
    if |s| > 0 {
      FilterKeepsAll(p, s[1..]);
    }
  }

  /** A filter that some element fails is shorter than the sequence. */
  lemma {:induction false} FilterShorter<T(!new)>(p: T -> bool, s: seq<T>, i: nat)
    requires i < |s| && !p(s[i])
    ensures |Filter(p, s)| < |s|
  {
    if i == 0 {
      assert Filter(p, s) == Filter(p, s[1..]);
    } else {
      FilterShorter(p, s[1..], i - 1);
      assert |Filter(p, s)| <= 1 + |Filter(p, s[1..])|;
    }
  }

  /** A filter that exactly one position fails removes just that
      element. */
  lemma {:induction false} FilterDropsOne<T(!new)>(p: T -> bool, s: seq<T>, i: nat)
    requires i < |s| && !p(s[i])
    requires forall k :: 0 <= k < |s| && k != i ==> p(s[k])
    ensures Filter(p, s) == s[..i] + s[i + 1..]
  {
    var rest := s[1..];
    if i == 0 {
      assert forall k :: 0 <= k < |rest| ==> rest[k] == s[k + 1];
      FilterKeepsAll(p, rest);
    } else {
      assert forall k :: 0 <= k < |rest| && k != i - 1 ==> rest[k] == s[k + 1];
      FilterDropsOne(p, rest, i - 1);
      assert s[..i] == [s[0]] + rest[..i - 1];
      assert s[i + 1..] == rest[i..];
    }
  }

  /** A filter keeps nothing exactly when every element fails it. */
  lemma {:induction false} FilterEmptyIff<T(!new)>(p: T -> bool, s: seq<T>)
    ensures |Filter(p, s)| == 0 <==> forall i :: 0 <= i < |s| ==> !p(s[i])
  {
    if |s| > 0 {
      FilterEmptyIff(p, s[1..]);
      assert forall i :: 1 <= i < |s| ==> s[i] == s[1..][i - 1];
    }
  }

  /** A filter keeps everything exactly when every element passes it. */
  lemma {:induction false} FilterFullIff<T(!new)>(p: T -> bool, s: seq<T>)
    ensures |Filter(p, s)| == |s| <==> forall i :: 0 <= i < |s| ==> p(s[i])
  {
    if |s| > 0 {
      FilterFullIff(p, s[1..]);
      assert forall i :: 1 <= i < |s| ==> s[i] == s[1..][i - 1];
    }
  }

  /** Filtering twice with the same predicate is filtering once. */
  lemma FilterIdempotent<T(!new)>(p: T -> bool, s: seq<T>)
    ensures Filter(p, Filter(p, s)) == Filter(p, s)
  {
    FilterKeepsAll(p, Filter(p, s));
  }

  /** Two complementary filters split a sequence: their lengths add up to
      the length of the whole. */
  lemma {:induction false} FilterComplementLengths<T(!new)>(p: T -> bool, q: T -> bool, s: seq<T>)
    requires forall i :: 0 <= i < |s| ==> q(s[i]) == !p(s[i])
    ensures |Filter(p, s)| + |Filter(q, s)| == |s|
  {
    if |s| > 0 {
      FilterComplementLengths(p, q, s[1..]);
    }
  }

  /** Replacing one element changes the length of a filter by the change in
      whether that position passes. */
  lemma FilterUpdateLength<T(!new)>(p: T -> bool, s: seq<T>, i: nat, x: T)
    requires i < |s|
    ensures |Filter(p, s[i := x])| ==
      |Filter(p, s)| - (if p(s[i]) then 1 else 0) + (if p(x) then 1 else 0)
  {
    var s' := s[i := x];
    assert s == s[..i] + [s[i]] + s[i + 1..];
    assert s' == s[..i] + [x] + s[i + 1..];
    FilterAppend(p, s[..i] + [s[i]], s[i + 1..]);
    FilterAppend(p, s[..i], [s[i]]);
    FilterAppend(p, s[..i] + [x], s[i + 1..]);
    FilterAppend(p, s[..i], [x]);
  }
}
