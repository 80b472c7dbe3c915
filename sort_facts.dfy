/**
 * Sortedness, inversions and the facts about them that the five built-in sorts
 * rely on.
 */
module SortFacts {

  /** Ascending order, as the numeric comparisons of the sorts produce it. */
  predicate Sorted(s: seq<int>) {
    forall i, j :: 0 <= i < j < |s| ==> s[i] <= s[j]
  }

  /** Number of elements of `s` strictly below `x`. */
  function CountBelow(x: int, s: seq<int>): nat {
    if |s| == 0 then 0 else (if s[0] < x then 1 else 0) + CountBelow(x, s[1..])
  }

  /** Number of pairs `i < j` with `s[i] > s[j]`. */
  function Inversions(s: seq<int>): nat {
    if |s| == 0 then 0 else CountBelow(s[0], s[1..]) + Inversions(s[1..])
  }

  lemma {:induction false} CountBelowAppend(x: int, s: seq<int>, t: seq<int>)
    ensures CountBelow(x, s + t) == CountBelow(x, s) + CountBelow(x, t)
    decreases |s|
  {
    if |s| == 0 {
      assert s + t == t;
    } else {
      assert (s + t)[0] == s[0];
      assert (s + t)[1..] == s[1..] + t;
      CountBelowAppend(x, s[1..], t);
    }
  }

  lemma CountBelowPair(x: int, a: int, b: int)
    ensures CountBelow(x, [a, b]) == CountBelow(x, [b, a])
  {
    assert [a, b][1..] == [b];
    assert [b, a][1..] == [a];
    assert [a][1..] == [];
    assert [b][1..] == [];
  }

  /**
   * Exchanging an adjacent out-of-order pair removes exactly one inversion:
   * the step that bubble sort counts as a swap and insertion sort as a shift.
   */
  lemma {:induction false} SwapAdjacentRemovesOneInversion(p: seq<int>, a: int, b: int, q: seq<int>)
    requires a > b
    ensures Inversions(p + [a, b] + q) == Inversions(p + [b, a] + q) + 1
    decreases |p|
  {
    var before, after := p + [a, b] + q, p + [b, a] + q;
    if |p| == 0 {
      assert before == [a] + ([b] + q) && after == [b] + ([a] + q);
      assert before[1..] == [b] + q && after[1..] == [a] + q;
      assert ([b] + q)[1..] == q && ([a] + q)[1..] == q;
      assert ([b] + q)[0] == b && ([a] + q)[0] == a;
      assert CountBelow(a, [b] + q) == 1 + CountBelow(a, q);
      assert CountBelow(b, [a] + q) == CountBelow(b, q);
    } else {
      var x := p[0];
      assert before[0] == x && after[0] == x;
      assert before[1..] == p[1..] + [a, b] + q;
      assert after[1..] == p[1..] + [b, a] + q;
      SwapAdjacentRemovesOneInversion(p[1..], a, b, q);
      CountBelowAppend(x, p[1..] + [a, b], q);
      CountBelowAppend(x, p[1..], [a, b]);
      CountBelowAppend(x, p[1..] + [b, a], q);
      CountBelowAppend(x, p[1..], [b, a]);
      CountBelowPair(x, a, b);
    }
  }

  /** `SwapAdjacentRemovesOneInversion` stated on positions of one sequence. */
  lemma SwapOutOfOrderPairInSeq(s: seq<int>, j: int)
    requires 0 <= j < |s| - 1 && s[j] > s[j + 1]
    ensures multiset(s[j := s[j + 1]][j + 1 := s[j]]) == multiset(s)
    ensures Inversions(s[j := s[j + 1]][j + 1 := s[j]]) + 1 == Inversions(s)
  {
    var p, q := s[..j], s[j + 2..];
    assert s == p + [s[j], s[j + 1]] + q;
    assert s[j := s[j + 1]][j + 1 := s[j]] == p + [s[j + 1], s[j]] + q;
    SwapAdjacentRemovesOneInversion(p, s[j], s[j + 1], q);
  }

  /**
   * Insertion sort holds its key aside while shifting: the sequence it stands for
   * is the array with the key written into the gap. One shift of `s[j]` into the
   * gap at `j + 1` moves the gap to `j`, an adjacent exchange of `s[j]` and the key.
   */
  lemma ShiftMovesGap(s: seq<int>, j: int, key: int)
    requires 0 <= j && j + 1 < |s|
    ensures s[j + 1 := key] == s[..j] + [s[j], key] + s[j + 2..]
    ensures s[j + 1 := s[j]][j := key] == s[..j] + [key, s[j]] + s[j + 2..]
  {
  }

  /**
   * Copying `s[j]` right into a gap at `j + 1` that stands for `key`, where
   * `s[j] > key`, moves the gap to `j` and removes exactly one inversion.
   */
  lemma ShiftOverGap(s: seq<int>, j: int, key: int)
    requires 0 <= j && j + 1 < |s| && s[j] > key
    ensures multiset(s[j + 1 := s[j]][j := key]) == multiset(s[j + 1 := key])
    ensures Inversions(s[j + 1 := s[j]][j := key]) + 1 == Inversions(s[j + 1 := key])
  {
    ShiftMovesGap(s, j, key);
    SwapAdjacentRemovesOneInversion(s[..j], s[j], key, s[j + 2..]);
    assert multiset([s[j], key]) == multiset([key, s[j]]);
  }

  lemma {:induction false} CountBelowOfSorted(x: int, s: seq<int>)
    requires forall i :: 0 <= i < |s| ==> x <= s[i]
    ensures CountBelow(x, s) == 0
    decreases |s|
  {
    if |s| > 0 {
      CountBelowOfSorted(x, s[1..]);
    }
  }

  /** A sorted sequence has no inversions. */
  lemma {:induction false} SortedHasNoInversions(s: seq<int>)
    requires Sorted(s)
    ensures Inversions(s) == 0
    decreases |s|
  {
    if |s| > 0 {
      CountBelowOfSorted(s[0], s[1..]);
      SortedHasNoInversions(s[1..]);
    }
  }

  /** The first element of a non-empty sorted sequence is its least element. */
  lemma SortedHeadIsLeast(a: seq<int>, x: int)
    requires Sorted(a) && x in multiset(a)
    ensures a[0] <= x
  {
    var i :| 0 <= i < |a| && a[i] == x;
  }

  lemma MultisetOfTail(a: seq<int>)
    requires |a| > 0
    ensures multiset(a[1..]) == multiset(a) - multiset{a[0]}
  {
    assert a == [a[0]] + a[1..];
  }

  /**
   * A sorted arrangement of a multiset of integers is unique: any two sorts that
   * return sorted permutations of the same input return the same sequence.
   */
  lemma {:induction false} SortedPermutationIsUnique(a: seq<int>, b: seq<int>)
    requires Sorted(a) && Sorted(b)
    requires multiset(a) == multiset(b)
    ensures a == b
    decreases |a|
  {
    assert |a| == |b| by {
      assert |a| == |multiset(a)| && |b| == |multiset(b)|;
    }
    if |a| > 0 {
      SameHeadSameTail(a, b);
      SortedDropFirst(a);
      SortedDropFirst(b);
      SortedPermutationIsUnique(a[1..], b[1..]);
      assert a == [a[0]] + a[1..] && b == [b[0]] + b[1..];
    }
  }

  lemma SortedDropFirst(a: seq<int>)
    requires Sorted(a) && |a| > 0
    ensures Sorted(a[1..])
  {
  }

  /** Two sorted permutations of each other start alike, and their tails are permutations of each other. */
  lemma SameHeadSameTail(a: seq<int>, b: seq<int>)
    requires Sorted(a) && Sorted(b) && |a| > 0 && |b| > 0
    requires multiset(a) == multiset(b)
    ensures a[0] == b[0] && multiset(a[1..]) == multiset(b[1..])
  {
    assert a[0] == b[0] by {
      assert b[0] in multiset(a) && a[0] in multiset(b) by {
        assert a[0] in a && b[0] in b;
      }
      SortedHeadIsLeast(a, b[0]);
      SortedHeadIsLeast(b, a[0]);
    }
    MultisetOfTail(a);
    MultisetOfTail(b);
  }

  /** Joining sorted blocks in which each block lies below the next gives a sorted whole. */
  lemma SortedConcat(a: seq<int>, b: seq<int>)
    requires Sorted(a) && Sorted(b)
    requires forall i, j :: 0 <= i < |a| && 0 <= j < |b| ==> a[i] <= b[j]
    ensures Sorted(a + b)
  {
  }
}
