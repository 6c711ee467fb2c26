/**
 * The numeric summary of a column: `Math.min(...nums)`, `Math.max(...nums)`,
 * the mean computed by `reduce`, and the median of a sorted copy. Numbers are
 * exact reals, so floating-point rounding is not modelled.
 */
module NumericStats {

  /** `nums.reduce((a, b) => a + b, 0)`: a left fold of addition. */
  function Sum(s: seq<real>): real {
    if s == [] then 0.0 else Sum(s[..|s| - 1]) + s[|s| - 1]
  }

  /** `Math.min(...s)`: an element of `s` no larger than any other. */
  function Min(s: seq<real>): (r: real)
    requires |s| > 0
    ensures r in s
    ensures forall i :: 0 <= i < |s| ==> r <= s[i]
  {
    if |s| == 1 then s[0]
    else
      var m := Min(s[1..]);
      assert forall i :: 1 <= i < |s| ==> s[i] == s[1..][i - 1];
      if s[0] <= m then s[0] else m
  }

  /** `Math.max(...s)`: an element of `s` no smaller than any other. */
  function Max(s: seq<real>): (r: real)
    requires |s| > 0
    ensures r in s
    ensures forall i :: 0 <= i < |s| ==> s[i] <= r
  {
    if |s| == 1 then s[0]
    else
      var m := Max(s[1..]);
      assert forall i :: 1 <= i < |s| ==> s[i] == s[1..][i - 1];
      if m <= s[0] then s[0] else m
  }

  /** The arithmetic mean, `sum / nums.length`. */
  function Mean(s: seq<real>): real
    requires |s| > 0
  {
    Sum(s) / (|s| as real)
  }

  /** Ascending order, as the comparator `(a, b) => a - b` asks for. */
  predicate Sorted(s: seq<real>) {
    forall i, j :: 0 <= i < j < |s| ==> s[i] <= s[j]
  }

  /** Inserts `x` before the first element that is not smaller than it. */
  function Insert(x: real, s: seq<real>): (r: seq<real>)
    ensures |r| == |s| + 1
  {
    if s == [] then [x]
    else if x <= s[0] then [x] + s
    else [s[0]] + Insert(x, s[1..])
  }

  /** Inserting into a sorted sequence keeps it sorted. */
  lemma {:induction false} InsertSorted(x: real, s: seq<real>)
    requires Sorted(s)
    ensures Sorted(Insert(x, s))
    ensures Insert(x, s)[0] == x || Insert(x, s)[0] == s[0]
  {
    if s == [] {
    } else if x <= s[0] {
      PrependSorted(x, s);
    } else {
      var rest := s[1..];
      assert Sorted(rest);
      InsertSorted(x, rest);
      var t := Insert(x, rest);
      assert t[0] == x || t[0] == rest[0];
      PrependSorted(s[0], t);
    }
  }

  /** A head no larger than the first element of a sorted tail gives a sorted sequence. */
  lemma PrependSorted(h: real, t: seq<real>)
    requires Sorted(t)
    requires t != [] ==> h <= t[0]
    ensures Sorted([h] + t)
  {
    var r := [h] + t;
    forall i, j | 0 <= i < j < |r| ensures r[i] <= r[j] {
      assert r[j] == t[j - 1];
      if i > 0 { assert r[i] == t[i - 1]; }
    }
  }

  /** Inserting adds exactly one occurrence of `x`. */
  lemma {:induction false} InsertMultiset(x: real, s: seq<real>)
    ensures multiset(Insert(x, s)) == multiset(s) + multiset{x}
  {
    if s != [] && x > s[0] {
      InsertMultiset(x, s[1..]);
      assert s == [s[0]] + s[1..];
    }
  }

  /** `[...nums].sort((a, b) => a - b)`, written as an insertion sort. */
  function SortAscending(s: seq<real>): (r: seq<real>)
    ensures |r| == |s|
  {
    if s == [] then [] else Insert(s[0], SortAscending(s[1..]))
  }

  /** The sorted copy is in ascending order and holds exactly the input numbers. */
  lemma {:induction false} SortAscendingSpec(s: seq<real>)
    ensures Sorted(SortAscending(s))
    ensures multiset(SortAscending(s)) == multiset(s)
  {
    if s != [] {
      SortAscendingSpec(s[1..]);
      InsertSorted(s[0], SortAscending(s[1..]));
      InsertMultiset(s[0], SortAscending(s[1..]));
      assert s == [s[0]] + s[1..];
    }
  }

  /**
   * A sorted permutation is unique, so any correct sorting algorithm returns
   * the same sequence as `SortAscending`.
   */
  lemma {:induction false} SortedPermutationUnique(a: seq<real>, b: seq<real>)
    requires Sorted(a) && Sorted(b) && multiset(a) == multiset(b)
    ensures a == b
  {
    if a != [] {
      SameHeadSameTail(a, b);
      SortedPermutationUnique(a[1..], b[1..]);
      assert a == [a[0]] + a[1..] && b == [b[0]] + b[1..];
    }
  }

  /** Two sorted permutations of each other start alike, and their tails are sorted permutations of each other. */
  lemma SameHeadSameTail(a: seq<real>, b: seq<real>)
    requires Sorted(a) && Sorted(b) && multiset(a) == multiset(b) && a != []
    ensures b != [] && a[0] == b[0]
    ensures Sorted(a[1..]) && Sorted(b[1..]) && multiset(a[1..]) == multiset(b[1..])
  {
    assert |b| == |a| by {
      assert |multiset(a)| == |a| && |multiset(b)| == |b|;
    }
    assert a[0] in multiset(b) && b[0] in multiset(a);
    SortedHeadIsLeast(a, b[0]);
    SortedHeadIsLeast(b, a[0]);
    TailMultiset(a);
    TailMultiset(b);
  }

  /** The first element of a sorted sequence is no larger than any element. */
  lemma SortedHeadIsLeast(a: seq<real>, x: real)
    requires Sorted(a) && x in a
    ensures a[0] <= x
  {
    var i :| 0 <= i < |a| && a[i] == x;
    assert a[0] <= a[i];
  }

  /** Dropping the head removes one occurrence of it; the tail of a sorted sequence is sorted. */
  lemma TailMultiset(a: seq<real>)
    requires a != []
    ensures multiset(a[1..]) == multiset(a) - multiset{a[0]}
    ensures Sorted(a) ==> Sorted(a[1..])
  {
    assert a == [a[0]] + a[1..];
  }

  /**
   * The median of an ascending sequence: the middle element for an odd
   * length, the mean of the two middle elements for an even one.
   */
  function MedianOfSorted(sorted: seq<real>): real
    requires |sorted| > 0
  {
    if |sorted| % 2 == 1 then sorted[|sorted| / 2]
    else (sorted[|sorted| / 2 - 1] + sorted[|sorted| / 2]) / 2.0
  }

  /** The median of the numbers, taken from a sorted copy. */
  function Median(s: seq<real>): real
    requires |s| > 0
  {
    MedianOfSorted(SortAscending(s))
  }

  /** Sums of numbers that all lie in `[lo, hi]` lie in `[n * lo, n * hi]`. */
  lemma {:induction false} SumBounds(s: seq<real>, lo: real, hi: real)
    requires forall i :: 0 <= i < |s| ==> lo <= s[i] <= hi
    ensures (|s| as real) * lo <= Sum(s) <= (|s| as real) * hi
  {
    if s != [] {
      var p := s[..|s| - 1];
      assert forall i :: 0 <= i < |p| ==> p[i] == s[i];
      SumBounds(p, lo, hi);
      assert (|s| as real) * lo == (|p| as real) * lo + lo;
      assert (|s| as real) * hi == (|p| as real) * hi + hi;
    }
  }

  /** Dividing by a positive count preserves the bounds `n * lo <= total <= n * hi`. */
  lemma DivideBounds(total: real, n: real, lo: real, hi: real)
    requires n > 0.0 && n * lo <= total <= n * hi
    ensures lo <= total / n <= hi
  {
  }

  /** A mean of numbers that all lie in `[lo, hi]` lies in `[lo, hi]`. */
  lemma MeanBetween(s: seq<real>, lo: real, hi: real)
    requires |s| > 0
    requires forall i :: 0 <= i < |s| ==> lo <= s[i] <= hi
    ensures lo <= Mean(s) <= hi
  {
    SumBounds(s, lo, hi);
    DivideBounds(Sum(s), |s| as real, lo, hi);
  }

  /** The mean lies between the minimum and the maximum. */
  lemma MeanWithinRange(s: seq<real>)
    requires |s| > 0
    ensures Min(s) <= Mean(s) <= Max(s)
  {
    MeanBetween(s, Min(s), Max(s));
  }

  /** Every element of a sorted copy is one of the original numbers. */
  lemma SortedCopyWithinRange(s: seq<real>, k: nat)
    requires |s| > 0 && k < |SortAscending(s)|
    ensures Min(s) <= SortAscending(s)[k] <= Max(s)
  {
    var x := SortAscending(s)[k];
    SortAscendingSpec(s);
    assert x in multiset(SortAscending(s));
    assert x in s;
  }

  /** The median of numbers that all lie in `[lo, hi]` lies in `[lo, hi]`. */
  lemma MedianOfSortedBetween(sorted: seq<real>, lo: real, hi: real)
    requires |sorted| > 0
    requires forall i :: 0 <= i < |sorted| ==> lo <= sorted[i] <= hi
    ensures lo <= MedianOfSorted(sorted) <= hi
  {
  }

  /** The median lies between the minimum and the maximum. */
  lemma MedianWithinRange(s: seq<real>)
    requires |s| > 0
    ensures Min(s) <= Median(s) <= Max(s)
  {
    var sorted := SortAscending(s);
    forall k | 0 <= k < |sorted| ensures Min(s) <= sorted[k] <= Max(s) {
      SortedCopyWithinRange(s, k);
    }
    MedianOfSortedBetween(sorted, Min(s), Max(s));
  }

  /** The median depends only on which numbers occur, not on their order. */
  lemma MedianOrderIndependent(s: seq<real>, t: seq<real>)
    requires |s| > 0 && multiset(s) == multiset(t)
    ensures |t| > 0 && Median(s) == Median(t)
  {
    assert |multiset(s)| == |multiset(t)|;
    SortAscendingSpec(s);
    SortAscendingSpec(t);
    SortedPermutationUnique(SortAscending(s), SortAscending(t));
  }

  /** `[1, 2, 3]` has median 2: the middle element. */
  lemma MedianOddExample()
    ensures Median([1.0, 2.0, 3.0]) == 2.0
  {
    assert SortAscending([1.0, 2.0, 3.0]) == [1.0, 2.0, 3.0];
  }

  /** `[1, 2, 3, 4]` has median 2.5: the mean of the two middle elements. */
  lemma MedianEvenExample()
    ensures Median([1.0, 2.0, 3.0, 4.0]) == 2.5
  {
    assert SortAscending([1.0, 2.0, 3.0, 4.0]) == [1.0, 2.0, 3.0, 4.0];
  }

  /** The input order does not matter: `[3, 1, 2]` has median 2 as well. */
  lemma MedianUnsortedExample()
    ensures Median([3.0, 1.0, 2.0]) == 2.0
  {
    assert SortAscending([3.0, 1.0, 2.0]) == [1.0, 2.0, 3.0];
  }
}
