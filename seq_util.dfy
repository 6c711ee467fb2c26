/**
 * Sequence operations behind `Array.prototype.filter`, `new Set(xs)`,
 * `[...new Set(xs)]` and `slice(0, n)`: filtering, the set of elements,
 * first-seen de-duplication and the number of distinct elements.
 */
module SeqUtil {

  /** `xs.filter(p)`: the elements satisfying `p`, in their original order. */
  function Filter<T>(s: seq<T>, p: T -> bool): (r: seq<T>)
    ensures |r| <= |s|
    ensures forall i :: 0 <= i < |r| ==> p(r[i]) && r[i] in s
    ensures forall x :: x in s && p(x) ==> x in r
  {
    if s == [] then []
    else if p(s[0]) then [s[0]] + Filter(s[1..], p)
    else Filter(s[1..], p)
  }

  /** Filtering a concatenation filters each part. */
  lemma {:induction false} FilterConcat<T>(a: seq<T>, b: seq<T>, p: T -> bool)
    ensures Filter(a + b, p) == Filter(a, p) + Filter(b, p)
  {
    if a == [] {
      assert a + b == b;
    } else {
      assert (a + b)[0] == a[0];
      assert (a + b)[1..] == a[1..] + b;
      FilterConcat(a[1..], b, p);
    }
  }

  /**
   * `xs.filter(p)` element by element: nothing from nothing, and appending one
   * element appends it to the result exactly when it passes. Together these
   * fix the result, order and repeated elements included.
   */
  lemma FilterAppendOne<T>(s: seq<T>, x: T, p: T -> bool)
    ensures Filter([], p) == []
    ensures Filter(s + [x], p) == Filter(s, p) + (if p(x) then [x] else [])
  {
    FilterConcat(s, [x], p);
    assert [x][1..] == [];
  }

  /** Filtering twice with the same predicate changes nothing the second time. */
  lemma {:induction false} FilterIdempotent<T>(s: seq<T>, p: T -> bool)
    ensures Filter(Filter(s, p), p) == Filter(s, p)
  {
    if s != [] {
      FilterIdempotent(s[1..], p);
    }
  }

  /** Filtering out every element leaves nothing. */
  lemma {:induction false} FilterNone<T>(s: seq<T>, p: T -> bool)
    requires forall i :: 0 <= i < |s| ==> !p(s[i])
    ensures Filter(s, p) == []
  {
    if s != [] {
      FilterNone(s[1..], p);
    }
  }

  /** Every element of the sequence satisfies `p` exactly when filtering keeps all of it. */
  lemma {:induction false} FilterKeepsAll<T>(s: seq<T>, p: T -> bool)
    ensures Filter(s, p) == s <==> forall i :: 0 <= i < |s| ==> p(s[i])
  {
    if s != [] {
      FilterKeepsAll(s[1..], p);
    }
  }

  /** With two complementary tests, every element is kept by exactly one of the two filters. */
  lemma {:induction false} FilterComplement<T>(s: seq<T>, p: T -> bool, q: T -> bool)
    requires forall x :: q(x) == !p(x)
    ensures |Filter(s, p)| + |Filter(s, q)| == |s|
  {
    if s != [] {
      FilterComplement(s[1..], p, q);
    }
  }

  /** The filter keeps every position exactly when it keeps as many elements as there are. */
  lemma {:induction false} FilterFullLength<T>(s: seq<T>, p: T -> bool)
    ensures |Filter(s, p)| == |s| <==> forall i :: 0 <= i < |s| ==> p(s[i])
  {
    if s != [] {
      FilterFullLength(s[1..], p);
      assert forall i :: 1 <= i < |s| ==> s[i] == s[1..][i - 1];
    }
  }

  /** The elements of a sequence, as `new Set(xs)` holds them. */
  function Elements<T(==)>(s: seq<T>): set<T> {
    set x | x in s
  }

  /** No element occurs twice. */
  predicate NoDuplicates<T(==)>(s: seq<T>) {
    forall i, j :: 0 <= i < j < |s| ==> s[i] != s[j]
  }

  /** `new Set(xs).size`. */
  function DistinctCount<T(==)>(s: seq<T>): nat {
    |Elements(s)|
  }

  /** `[...new Set(xs)]`: each element once, in the order of its first occurrence. */
  function Dedup<T(==)>(s: seq<T>): (r: seq<T>)
    ensures NoDuplicates(r)
    ensures Elements(r) == Elements(s)
    ensures |r| <= |s|
    decreases |s|
  {
    if s == [] then []
    else
      var d := Dedup(s[..|s| - 1]);
      var x := s[|s| - 1];
      assert s == s[..|s| - 1] + [x];
      assert Elements(s) == Elements(s[..|s| - 1]) + {x};
      assert Elements(d + [x]) == Elements(d) + {x};
      if x in d then d else d + [x]
  }

  /** The position at which `x` first occurs in `s`. */
  function FirstIndex<T(==)>(s: seq<T>, x: T): (k: nat)
    requires x in s
    ensures k < |s| && s[k] == x && x !in s[..k]
  {
    if s[0] == x then 0 else 1 + FirstIndex(s[1..], x)
  }

  /** Appending does not move the first occurrence of an element already present. */
  lemma FirstIndexAppend<T>(s: seq<T>, y: T, x: T)
    requires x in s
    ensures FirstIndex(s + [y], x) == FirstIndex(s, x)
  {
    var k := FirstIndex(s, x);
    var k' := FirstIndex(s + [y], x);
    assert (s + [y])[..k] == s[..k];
    assert (s + [y])[k] == x;
  }

  /** `Dedup` lists distinct elements in increasing order of first occurrence. */
  lemma {:induction false} DedupFirstSeenOrder<T>(s: seq<T>, i: nat, j: nat)
    requires i < j < |Dedup(s)|
    ensures Dedup(s)[i] in s && Dedup(s)[j] in s
    ensures FirstIndex(s, Dedup(s)[i]) < FirstIndex(s, Dedup(s)[j])
    decreases |s|
  {
    var p := s[..|s| - 1];
    var x := s[|s| - 1];
    var d := Dedup(p);
    assert s == p + [x];
    assert Dedup(s)[i] in Elements(Dedup(s));
    assert Dedup(s)[j] in Elements(Dedup(s));
    if x in d {
      assert Dedup(s) == d;
      DedupFirstSeenOrder(p, i, j);
      FirstIndexAppend(p, x, d[i]);
      FirstIndexAppend(p, x, d[j]);
    } else {
      assert Dedup(s) == d + [x];
      assert d[i] in Elements(d);
      FirstIndexAppend(p, x, d[i]);
      if j < |d| {
        DedupFirstSeenOrder(p, i, j);
        FirstIndexAppend(p, x, d[j]);
      } else {
        assert x !in Elements(d);
        assert Dedup(s)[j] == x && x !in p;
        assert s[..|p|] == p;
      }
    }
  }

  /** Only the empty sequence has no elements. */
  lemma ElementsEmpty<T>(s: seq<T>)
    ensures Elements(s) == {} <==> s == []
  {
    if s != [] {
      assert s[0] in Elements(s);
    }
  }

  /** A sequence has at least as many positions as distinct elements. */
  lemma {:induction false} ElementsBound<T>(s: seq<T>)
    ensures |Elements(s)| <= |s|
  {
    if s != [] {
      ElementsBound(s[1..]);
      assert Elements(s) == {s[0]} + Elements(s[1..]);
    }
  }

  /** Without duplicates, the number of distinct elements is the length. */
  lemma {:induction false} NoDuplicatesCardinality<T>(s: seq<T>)
    requires NoDuplicates(s)
    ensures |Elements(s)| == |s|
  {
    if s != [] {
      NoDuplicatesCardinality(s[1..]);
      assert Elements(s) == {s[0]} + Elements(s[1..]);
      assert s[0] !in Elements(s[1..]);
    }
  }

  /** The number of distinct elements equals the length exactly when nothing repeats. */
  lemma DistinctCountIffNoDuplicates<T>(s: seq<T>)
    ensures DistinctCount(s) <= |s|
    ensures DistinctCount(s) == |s| <==> NoDuplicates(s)
  {
    ElementsBound(s);
    if NoDuplicates(s) {
      NoDuplicatesCardinality(s);
    } else {
      var i, j :| 0 <= i < j < |s| && s[i] == s[j];
      var t := s[..j] + s[j + 1..];
      assert Elements(s) == Elements(t) by {
        forall x | x in Elements(s) ensures x in Elements(t) {
          var k :| 0 <= k < |s| && s[k] == x;
          if k < j { assert t[k] == x; }
          else if k == j { assert t[i] == x; }
          else { assert t[k - 1] == x; }
        }
      }
      ElementsBound(t);
    }
  }

  /** De-duplication keeps exactly one position per distinct element. */
  lemma DedupLength<T>(s: seq<T>)
    ensures |Dedup(s)| == DistinctCount(s)
  {
    NoDuplicatesCardinality(Dedup(s));
  }

  /** `xs.slice(0, n)`: the first `n` elements, or all of them when there are fewer. */
  function Take<T>(s: seq<T>, n: nat): (r: seq<T>)
    ensures |r| == if |s| < n then |s| else n
    ensures r == s[..|r|]
  {
    if |s| <= n then s else s[..n]
  }
}
