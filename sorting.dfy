/** Sorting as the Python sources use it: `sorted(unique(...))`,
    `sorted(..., reverse=1)`, the stable `sorted(range(n), key=...)` and
    numpy's `median`. Sorting a collection of distinct elements under a
    strict total order is modelled once, generically, by insertion. */
module Sorting {

  ghost predicate StrictTotalOrder<T(!new)>(lt: (T, T) -> bool)
  {
    && (forall x :: !lt(x, x))
    && (forall x, y, z :: lt(x, y) && lt(y, z) ==> lt(x, z))
    && (forall x, y :: x != y ==> lt(x, y) || lt(y, x))
  }

  predicate StrictlySorted<T>(s: seq<T>, lt: (T, T) -> bool)
  {
    forall i, j :: 0 <= i < j < |s| ==> lt(s[i], s[j])
  }

  function Elems<T>(s: seq<T>): set<T>
  {
    set x | x in s
  }

  /** r is s with some elements left out, the rest kept in order. */
  predicate Subsequence<T(==)>(r: seq<T>, s: seq<T>)
    decreases |s|
  {
    if s == [] then r == []
    else
      || (r != [] && r[|r| - 1] == s[|s| - 1] && Subsequence(r[..|r| - 1], s[..|s| - 1]))
      || Subsequence(r, s[..|s| - 1])
  }

  /** Inserts x into a strictly sorted sequence, dropping it if present. */
  function Insert<T(==,!new)>(x: T, s: seq<T>, lt: (T, T) -> bool): (r: seq<T>)
    requires StrictTotalOrder(lt) && StrictlySorted(s, lt)
    ensures StrictlySorted(r, lt)
    ensures Elems(r) == Elems(s) + {x}
  {
    if s == [] then [x]
    else if x == s[0] then s
    else if lt(x, s[0]) then
      assert forall k :: 0 <= k < |s| ==> lt(x, s[k]);
      [x] + s
    else
      var t := Insert(x, s[1..], lt);
      assert Elems(s) == {s[0]} + Elems(s[1..]);
      assert forall y :: y in t ==> lt(s[0], y) by {
        forall y | y in t ensures lt(s[0], y) {
          assert y in Elems(t);
          if y != x {
            var k :| 0 <= k < |s[1..]| && s[1..][k] == y;
            assert s[k + 1] == y;
          }
        }
      }
      assert forall k :: 0 <= k < |t| ==> lt(s[0], t[k]) by {
        forall k | 0 <= k < |t| ensures lt(s[0], t[k]) { assert t[k] in t; }
      }
      assert Elems([s[0]] + t) == {s[0]} + Elems(t);
      [s[0]] + t
  }

  /** `sorted(set(s))`: the distinct elements of s in increasing order. */
  function SortDistinct<T(==,!new)>(s: seq<T>, lt: (T, T) -> bool): (r: seq<T>)
    requires StrictTotalOrder(lt)
    ensures StrictlySorted(r, lt)
    ensures Elems(r) == Elems(s)
  {
    if s == [] then []
    else
      var r := Insert(s[|s| - 1], SortDistinct(s[..|s| - 1], lt), lt);
      assert Elems(s) == Elems(s[..|s| - 1]) + {s[|s| - 1]} by {
        assert s == s[..|s| - 1] + [s[|s| - 1]];
      }
      r
  }

  /** A strictly sorted sequence holds no element twice. */
  lemma StrictlySortedDistinct<T(!new)>(s: seq<T>, lt: (T, T) -> bool, i: int, j: int)
    requires StrictTotalOrder(lt) && StrictlySorted(s, lt)
    requires 0 <= i < |s| && 0 <= j < |s| && s[i] == s[j]
    ensures i == j
  {
  }

  /** Two strictly sorted sequences with the same elements are equal:
      the sorted, duplicate-free form of a collection is unique. */
  lemma {:induction false} SortedUnique<T(!new)>(a: seq<T>, b: seq<T>, lt: (T, T) -> bool)
    requires StrictTotalOrder(lt)
    requires StrictlySorted(a, lt) && StrictlySorted(b, lt)
    requires Elems(a) == Elems(b)
    ensures a == b
  {
    if a != [] { assert a[0] in Elems(b); }
    if b != [] { assert b[0] in Elems(a); }
    if a != [] && b != [] {
      assert Elems(a[1..]) == Elems(b[1..]) by {
        forall y | y in Elems(a[1..]) ensures y in Elems(b[1..]) {
          var k :| 0 <= k < |a[1..]| && a[1..][k] == y;
          assert lt(a[0], a[k + 1]);
          assert y in Elems(b);
          var m :| 0 <= m < |b| && b[m] == y;
          assert m != 0;
          assert b[1..][m - 1] == y;
        }
        forall y | y in Elems(b[1..]) ensures y in Elems(a[1..]) {
          var k :| 0 <= k < |b[1..]| && b[1..][k] == y;
          assert lt(b[0], b[k + 1]);
          assert y in Elems(a);
          var m :| 0 <= m < |a| && a[m] == y;
          assert m != 0;
          assert a[1..][m - 1] == y;
        }
      }
      SortedUnique(a[1..], b[1..], lt);
      assert a == [a[0]] + a[1..] && b == [b[0]] + b[1..];
    }
  }

  /** A duplicate-free sequence is as long as its set of elements. */
  lemma {:induction false} DistinctCard<T(!new)>(s: seq<T>, lt: (T, T) -> bool)
    requires StrictTotalOrder(lt) && StrictlySorted(s, lt)
    ensures |Elems(s)| == |s|
  {
    if s != [] {
      var t := s[..|s| - 1];
      assert StrictlySorted(t, lt);
      DistinctCard(t, lt);
      assert s == t + [s[|s| - 1]];
      assert Elems(s) == Elems(t) + {s[|s| - 1]};
    }
  }

  // ---- non-strict sorting of integers, for numpy's median ----

  predicate Sorted(s: seq<int>)
  {
    forall i, j :: 0 <= i < j < |s| ==> s[i] <= s[j]
  }

  function InsertInt(x: int, s: seq<int>): (r: seq<int>)
    requires Sorted(s)
    ensures Sorted(r) && multiset(r) == multiset(s) + multiset{x} && |r| == |s| + 1
  {
    if s == [] || x <= s[0] then
      ConsSorted(x, s);
      [x] + s
    else
      var t := InsertInt(x, s[1..]);
      assert multiset(s) == multiset{s[0]} + multiset(s[1..]) by { assert s == [s[0]] + s[1..]; }
      BoundedBy(s[0], t, s[1..], x);
      ConsSorted(s[0], t);
      [s[0]] + t
  }

  /** A sorted sequence stays sorted with an element no larger than its first in front. */
  lemma ConsSorted(b: int, t: seq<int>)
    requires Sorted(t) && (t != [] ==> b <= t[0])
    ensures Sorted([b] + t)
  {
    forall i, j | 0 <= i < j < |[b] + t| ensures ([b] + t)[i] <= ([b] + t)[j] {
      if i > 0 {
        assert ([b] + t)[i] == t[i - 1] && ([b] + t)[j] == t[j - 1];
      } else {
        assert ([b] + t)[j] == t[j - 1] && t[0] <= t[j - 1];
      }
    }
  }

  /** A sequence with the elements of a sorted s and x, all at least b, is bounded below by b. */
  lemma BoundedBy(b: int, t: seq<int>, s: seq<int>, x: int)
    requires multiset(t) == multiset(s) + multiset{x}
    requires b <= x && forall k :: 0 <= k < |s| ==> b <= s[k]
    ensures forall k :: 0 <= k < |t| ==> b <= t[k]
  {
    forall k | 0 <= k < |t| ensures b <= t[k] {
      assert t[k] in multiset(t);
      if t[k] != x {
        assert t[k] in multiset(s);
        var j :| 0 <= j < |s| && s[j] == t[k];
      }
    }
  }

  /** `sorted(s)` on integers: same multiset, non-decreasing. */
  function SortInts(s: seq<int>): (r: seq<int>)
    ensures Sorted(r) && multiset(r) == multiset(s) && |r| == |s|
  {
    if s == [] then []
    else
      assert s == s[..|s| - 1] + [s[|s| - 1]];
      InsertInt(s[|s| - 1], SortInts(s[..|s| - 1]))
  }

  /** numpy's `median`: the middle element of the sorted values, or the
      mean of the two middle ones when their number is even. */
  function Median(s: seq<int>): (m: real)
    requires |s| > 0
    ensures exists i, j :: 0 <= i < |s| && 0 <= j < |s| && (s[i] as real) <= m <= (s[j] as real)
  {
    var t := SortInts(s);
    var n := |t|;
    var lo, hi := t[(n - 1) / 2], t[n / 2];
    var m := if n % 2 == 1 then hi as real else (lo as real + hi as real) / 2.0;
    Occurs(s, t, (n - 1) / 2);
    Occurs(s, t, n / 2);
    ghost var i :| 0 <= i < |s| && s[i] == lo;
    ghost var j :| 0 <= j < |s| && s[j] == hi;
    assert lo <= hi;
    assert (s[i] as real) <= m <= (s[j] as real);
    m
  }

  /** Every element of a permutation of `s` occurs in `s`. */
  lemma Occurs(s: seq<int>, t: seq<int>, k: int)
    requires multiset(t) == multiset(s) && 0 <= k < |t|
    ensures exists i :: 0 <= i < |s| && s[i] == t[k]
  {
    assert t[k] in multiset(s);
  }

  // ---- lexicographic order, as Python compares strings and tuples ----

  /** Python's `<` on strings (sequences of code units): a proper prefix is
      smaller, otherwise the first differing position decides. */
  predicate LexLess(a: seq<int>, b: seq<int>)
    decreases |a|
  {
    if |a| == 0 then |b| > 0
    else if |b| == 0 then false
    else if a[0] != b[0] then a[0] < b[0]
    else LexLess(a[1..], b[1..])
  }

  lemma {:induction false} LexIrreflexive(a: seq<int>)
    ensures !LexLess(a, a)
    decreases |a|
  {
    if |a| > 0 { LexIrreflexive(a[1..]); }
  }

  lemma {:induction false} LexTransitive(a: seq<int>, b: seq<int>, c: seq<int>)
    requires LexLess(a, b) && LexLess(b, c)
    ensures LexLess(a, c)
    decreases |a|
  {
    if |a| > 0 && |b| > 0 && |c| > 0 && a[0] == b[0] && b[0] == c[0] {
      LexTransitive(a[1..], b[1..], c[1..]);
    }
  }

  lemma {:induction false} LexConnected(a: seq<int>, b: seq<int>)
    requires a != b
    ensures LexLess(a, b) || LexLess(b, a)
    decreases |a|
  {
    if |a| > 0 && |b| > 0 && a[0] == b[0] {
      assert a == [a[0]] + a[1..] && b == [b[0]] + b[1..];
      LexConnected(a[1..], b[1..]);
    }
  }

  lemma LexIsStrictTotal()
    ensures StrictTotalOrder(LexLess)
  {
    forall x ensures !LexLess(x, x) { LexIrreflexive(x); }
    forall x, y, z | LexLess(x, y) && LexLess(y, z) ensures LexLess(x, z) { LexTransitive(x, y, z); }
    forall x, y | x != y ensures LexLess(x, y) || LexLess(y, x) { LexConnected(x, y); }
  }

  /** Python's `<` on pairs of integers. */
  predicate PairLess(p: (int, int), q: (int, int))
  {
    p.0 < q.0 || (p.0 == q.0 && p.1 < q.1)
  }

  lemma PairIsStrictTotal()
    ensures StrictTotalOrder(PairLess)
  {
  }


  // ---- sorted sets of integers, as `numpy.unique` and `set.add` keep them ----

  /** A strictly increasing sequence of integers. */
  predicate Increasing(s: seq<int>)
  {
    forall i, j :: 0 <= i < j < |s| ==> s[i] < s[j]
  }

  /** Inserts x into an increasing sequence, unless it is there. */
  function AddDistinct(x: int, s: seq<int>): seq<int>
    decreases |s|
  {
    if s == [] then [x]
    else if x == s[0] then s
    else if x < s[0] then [x] + s
    else [s[0]] + AddDistinct(x, s[1..])
  }

  lemma {:induction false} AddDistinctElems(x: int, s: seq<int>)
    ensures Elems(AddDistinct(x, s)) == Elems(s) + {x}
    decreases |s|
  {
    if s != [] && x != s[0] {
      var t := if x < s[0] then s else AddDistinct(x, s[1..]);
      if !(x < s[0]) {
        AddDistinctElems(x, s[1..]);
      }
      assert Elems(s) == {s[0]} + Elems(s[1..]) by { assert s == [s[0]] + s[1..]; }
      assert Elems([x] + s) == {x} + Elems(s) by {
        assert forall y :: y in [x] + s <==> y == x || y in s;
      }
      assert Elems([s[0]] + t) == {s[0]} + Elems(t) by {
        assert forall y :: y in [s[0]] + t <==> y == s[0] || y in t;
      }
    }
  }

  lemma {:induction false} AddDistinctIncreasing(x: int, s: seq<int>)
    requires Increasing(s)
    ensures Increasing(AddDistinct(x, s))
    decreases |s|
  {
    if s != [] && x != s[0] && !(x < s[0]) {
      var t := AddDistinct(x, s[1..]);
      AddDistinctIncreasing(x, s[1..]);
      AddDistinctElems(x, s[1..]);
      forall j | 0 <= j < |t| ensures s[0] < t[j] {
        assert t[j] in Elems(t);
        if t[j] != x {
          var k :| 0 <= k < |s[1..]| && s[1..][k] == t[j];
          assert s[k + 1] == t[j];
        }
      }
    }
  }

  /** `numpy.unique`: the distinct values, in increasing order. */
  function Unique(s: seq<int>): seq<int>
  {
    if s == [] then [] else AddDistinct(s[|s| - 1], Unique(s[..|s| - 1]))
  }

  lemma {:induction false} UniqueOf(s: seq<int>)
    ensures Increasing(Unique(s)) && Elems(Unique(s)) == Elems(s)
  {
    if s != [] {
      UniqueOf(s[..|s| - 1]);
      AddDistinctElems(s[|s| - 1], Unique(s[..|s| - 1]));
      AddDistinctIncreasing(s[|s| - 1], Unique(s[..|s| - 1]));
      assert s == s[..|s| - 1] + [s[|s| - 1]];
      assert Elems(s) == Elems(s[..|s| - 1]) + {s[|s| - 1]};
    }
  }

  /** Position k of an increasing sequence is the only position of s[k]. */
  lemma IncreasingIndex(s: seq<int>, i: int, j: int)
    requires Increasing(s) && 0 <= i < |s| && 0 <= j < |s|
    ensures s[i] == s[j] <==> i == j
    ensures s[i] < s[j] <==> i < j
  {
  }
}
