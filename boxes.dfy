/** Bounding boxes of labelled images: the `(rows, cols)` slice pairs of
    `sl` and `scipy.ndimage.measurements.find_objects`, as half-open integer
    boxes `[r0, r1) x [c0, c1)`. */
module Boxes {
  import opened Wrappers

  datatype Box = Box(r0: int, r1: int, c0: int, c1: int)

  /** `sl.dim0`: the height. */
  function Dim0(b: Box): int { b.r1 - b.r0 }

  /** `sl.dim1`: the width. */
  function Dim1(b: Box): int { b.c1 - b.c0 }

  predicate Contains(outer: Box, inner: Box)
  {
    outer.r0 <= inner.r0 && inner.r1 <= outer.r1 && outer.c0 <= inner.c0 && inner.c1 <= outer.c1
  }

  predicate HasPixel(b: Box, i: int, j: int)
  {
    b.r0 <= i < b.r1 && b.c0 <= j < b.c1
  }

  /** `sl.union`: the per-coordinate min/max of the two boxes. */
  function Union(a: Box, b: Box): (u: Box)
    ensures Contains(u, a) && Contains(u, b)
    ensures u.r0 in {a.r0, b.r0} && u.r1 in {a.r1, b.r1} && u.c0 in {a.c0, b.c0} && u.c1 in {a.c1, b.c1}
  {
    Box(if a.r0 <= b.r0 then a.r0 else b.r0, if a.r1 >= b.r1 then a.r1 else b.r1,
        if a.c0 <= b.c0 then a.c0 else b.c0, if a.c1 >= b.c1 then a.c1 else b.c1)
  }

  /** The union is the least box containing both. */
  lemma UnionLeast(a: Box, b: Box, c: Box)
    requires Contains(c, a) && Contains(c, b)
    ensures Contains(c, Union(a, b))
  {
  }

  lemma UnionCommutes(a: Box, b: Box)
    ensures Union(a, b) == Union(b, a)
  {
  }

  /** `sl.union(None, b)` is b. */
  function UnionOpt(a: Option<Box>, b: Box): (u: Box)
    ensures Contains(u, b) && (a.Some? ==> Contains(u, a.value))
    ensures a.None? ==> u == b
  {
    match a
    case None => b
    case Some(x) => Union(x, b)
  }

  function PixelBox(i: int, j: int): Box { Box(i, i + 1, j, j + 1) }

  // ---------------------------------------------------------------
  // find_objects
  // ---------------------------------------------------------------

  /** The extent of label l over row i, columns [0, j), starting from e. */
  function ExtCols(img: array2<int>, l: int, i: nat, j: nat, e: Option<Box>): Option<Box>
    requires i < img.Length0 && j <= img.Length1
    reads img
  {
    if j == 0 then e
    else
      var p := ExtCols(img, l, i, j - 1, e);
      if img[i, j - 1] == l then Some(UnionOpt(p, PixelBox(i, j - 1))) else p
  }

  /** The extent of label l over rows [0, i). */
  function ExtRows(img: array2<int>, l: int, i: nat): Option<Box>
    requires i <= img.Length0
    reads img
  {
    if i == 0 then None else ExtCols(img, l, i - 1, img.Length1, ExtRows(img, l, i - 1))
  }

  /** What `find_objects` gives for label l: None when l is absent. */
  function LabelExtent(img: array2<int>, l: int): Option<Box>
    reads img
  {
    ExtRows(img, l, img.Length0)
  }

  predicate At(img: array2<int>, i: int, j: int, l: int)
    reads img
  {
    0 <= i < img.Length0 && 0 <= j < img.Length1 && img[i, j] == l
  }

  /** Pixel (ii, jj) comes before pixel (i, j) in row-major order. */
  predicate Seen(i: int, j: int, ii: int, jj: int)
  {
    ii < i || (ii == i && jj < j)
  }

  /** Label l occurs in row r before pixel (i, j). */
  ghost predicate RowHas(img: array2<int>, l: int, r: int, i: int, j: int)
    reads img
  {
    exists jj :: At(img, r, jj, l) && Seen(i, j, r, jj)
  }

  /** Label l occurs in column c before pixel (i, j). */
  ghost predicate ColHas(img: array2<int>, l: int, c: int, i: int, j: int)
    reads img
  {
    exists ii :: At(img, ii, c, l) && Seen(i, j, ii, c)
  }

  /** The extent of label l over rows [0, i) and row i columns [0, j) is the tight box
      of exactly those pixels, or None when there is none. */
  ghost predicate TightOver(img: array2<int>, l: int, i: int, j: int, e: Option<Box>)
    reads img
  {
    (e.None? <==> forall ii, jj :: At(img, ii, jj, l) ==> !Seen(i, j, ii, jj)) &&
    (e.Some? ==>
       (forall ii, jj :: At(img, ii, jj, l) && Seen(i, j, ii, jj) ==> HasPixel(e.value, ii, jj)) &&
       RowHas(img, l, e.value.r0, i, j) && RowHas(img, l, e.value.r1 - 1, i, j) &&
       ColHas(img, l, e.value.c0, i, j) && ColHas(img, l, e.value.c1 - 1, i, j))
  }

  lemma RowHasLater(img: array2<int>, l: int, r: int, i: int, j: int, i2: int, j2: int)
    requires RowHas(img, l, r, i, j)
    requires i < i2 || (i == i2 && j <= j2)
    ensures RowHas(img, l, r, i2, j2)
  {
    var jj :| At(img, r, jj, l) && Seen(i, j, r, jj);
    assert Seen(i2, j2, r, jj);
  }

  lemma ColHasLater(img: array2<int>, l: int, c: int, i: int, j: int, i2: int, j2: int)
    requires ColHas(img, l, c, i, j)
    requires i < i2 || (i == i2 && j <= j2)
    ensures ColHas(img, l, c, i2, j2)
  {
    var ii :| At(img, ii, c, l) && Seen(i, j, ii, c);
    assert Seen(i2, j2, ii, c);
  }

  /** A pixel of label l at (i, j - 1) grows the tight box by that pixel. */
  lemma TightHit(img: array2<int>, l: int, i: nat, j: nat, p: Option<Box>)
    requires i < img.Length0 && 0 < j <= img.Length1 && img[i, j - 1] == l
    requires TightOver(img, l, i, j - 1, p)
    ensures TightOver(img, l, i, j, Some(UnionOpt(p, PixelBox(i, j - 1))))
  {
    var u := UnionOpt(p, PixelBox(i, j - 1));
    assert At(img, i, j - 1, l) && Seen(i, j, i, j - 1);
    assert RowHas(img, l, i, i, j) && ColHas(img, l, j - 1, i, j);
    if p.Some? {
      var b := p.value;
      if u.r0 == b.r0 { RowHasLater(img, l, b.r0, i, j - 1, i, j); }
      if u.r1 == b.r1 { RowHasLater(img, l, b.r1 - 1, i, j - 1, i, j); }
      if u.c0 == b.c0 { ColHasLater(img, l, b.c0, i, j - 1, i, j); }
      if u.c1 == b.c1 { ColHasLater(img, l, b.c1 - 1, i, j - 1, i, j); }
    }
  }

  /** A pixel of another label leaves the tight box as it is. */
  lemma TightMiss(img: array2<int>, l: int, i: nat, j: nat, p: Option<Box>)
    requires i < img.Length0 && 0 < j <= img.Length1 && img[i, j - 1] != l
    requires TightOver(img, l, i, j - 1, p)
    ensures TightOver(img, l, i, j, p)
  {
    if p.Some? {
      var b := p.value;
      RowHasLater(img, l, b.r0, i, j - 1, i, j);
      RowHasLater(img, l, b.r1 - 1, i, j - 1, i, j);
      ColHasLater(img, l, b.c0, i, j - 1, i, j);
      ColHasLater(img, l, b.c1 - 1, i, j - 1, i, j);
    }
  }

  lemma {:induction false} ExtColsTight(img: array2<int>, l: int, i: nat, j: nat, e: Option<Box>)
    requires i < img.Length0 && j <= img.Length1
    requires TightOver(img, l, i, 0, e)
    ensures TightOver(img, l, i, j, ExtCols(img, l, i, j, e))
    decreases j
  {
    if j > 0 {
      ExtColsTight(img, l, i, j - 1, e);
      var p := ExtCols(img, l, i, j - 1, e);
      if img[i, j - 1] == l {
        TightHit(img, l, i, j, p);
      } else {
        TightMiss(img, l, i, j, p);
      }
    }
  }

  lemma {:induction false} ExtRowsTight(img: array2<int>, l: int, i: nat)
    requires i <= img.Length0
    ensures TightOver(img, l, i, 0, ExtRows(img, l, i))
  {
    if i > 0 {
      ExtRowsTight(img, l, i - 1);
      ExtColsTight(img, l, i - 1, img.Length1, ExtRows(img, l, i - 1));
      var e := ExtRows(img, l, i);
      if e.Some? {
        var b := e.value;
        var w := img.Length1;
        RowHasLater(img, l, b.r0, i - 1, w, i, 0);
        RowHasLater(img, l, b.r1 - 1, i - 1, w, i, 0);
        ColHasLater(img, l, b.c0, i - 1, w, i, 0);
        ColHasLater(img, l, b.c1 - 1, i - 1, w, i, 0);
      }
    }
  }

  /** Label l occurs in row r. */
  ghost predicate InRow(img: array2<int>, l: int, r: int)
    reads img
  {
    exists j :: At(img, r, j, l)
  }

  /** Label l occurs in column c. */
  ghost predicate InCol(img: array2<int>, l: int, c: int)
    reads img
  {
    exists i :: At(img, i, c, l)
  }

  /** `find_objects(img)[l-1]` is the tight box of label l's pixels, and None
      exactly when label l does not occur. */
  lemma LabelExtentTight(img: array2<int>, l: int)
    ensures LabelExtent(img, l).None? <==> forall i, j :: !At(img, i, j, l)
    ensures LabelExtent(img, l).Some? ==>
      var b := LabelExtent(img, l).value;
      (forall i, j :: At(img, i, j, l) ==> HasPixel(b, i, j)) &&
      InRow(img, l, b.r0) && InRow(img, l, b.r1 - 1) && InCol(img, l, b.c0) && InCol(img, l, b.c1 - 1)
  {
    var n := img.Length0;
    ExtRowsTight(img, l, n);
    var e := LabelExtent(img, l);
    forall i, j | At(img, i, j, l) ensures Seen(n, 0, i, j) { }
    if e.Some? {
      var b := e.value;
      var j0 :| At(img, b.r0, j0, l) && Seen(n, 0, b.r0, j0);
      var j1 :| At(img, b.r1 - 1, j1, l) && Seen(n, 0, b.r1 - 1, j1);
      var i0 :| At(img, i0, b.c0, l) && Seen(n, 0, i0, b.c0);
      var i1 :| At(img, i1, b.c1 - 1, l) && Seen(n, 0, i1, b.c1 - 1);
    }
  }

  /** The larger of m and the pixels of row i in columns [0, j). */
  function MaxCols(img: array2<int>, i: nat, j: nat, m: int): (r: int)
    requires i < img.Length0 && j <= img.Length1
    reads img
    ensures r >= m && forall jj :: 0 <= jj < j ==> img[i, jj] <= r
    ensures r == m || exists jj :: 0 <= jj < j && img[i, jj] == r
  {
    if j == 0 then m
    else
      var p := MaxCols(img, i, j - 1, m);
      if img[i, j - 1] > p then img[i, j - 1] else p
  }

  /** The larger of m and the pixels of rows [0, i). */
  function MaxRows(img: array2<int>, i: nat, m: int): (r: int)
    requires i <= img.Length0
    reads img
    ensures r >= m && forall ii, jj :: 0 <= ii < i && 0 <= jj < img.Length1 ==> img[ii, jj] <= r
    ensures r == m || exists ii, jj :: 0 <= ii < i && 0 <= jj < img.Length1 && img[ii, jj] == r
  {
    if i == 0 then m else MaxCols(img, i - 1, img.Length1, MaxRows(img, i - 1, m))
  }

  /** The number of labels `find_objects` reports: the largest pixel, or 0. */
  function LabelCount(img: array2<int>): (n: nat)
    reads img
    ensures n > 0 ==> exists i, j :: At(img, i, j, n)
  {
    var n := MaxRows(img, img.Length0, 0);
    assert n > 0 ==> exists i, j :: At(img, i, j, n) by {
      if n > 0 {
        var i, j :| 0 <= i < img.Length0 && 0 <= j < img.Length1 && img[i, j] == n;
        assert At(img, i, j, n);
      }
    }
    n
  }

  /** `amax`: the largest pixel of a non-empty image. */
  function PixelMax(img: array2<int>): (r: int)
    requires img.Length0 > 0 && img.Length1 > 0
    reads img
    ensures forall i, j :: 0 <= i < img.Length0 && 0 <= j < img.Length1 ==> img[i, j] <= r
    ensures exists i, j :: 0 <= i < img.Length0 && 0 <= j < img.Length1 && img[i, j] == r
  {
    MaxRows(img, img.Length0, img[0, 0])
  }

  /** The labels are consecutive: every label between 1 and a label that occurs occurs. */
  ghost predicate Labelled(img: array2<int>)
    reads img
  {
    forall i, j, l :: 0 <= i < img.Length0 && 0 <= j < img.Length1 && 1 <= l <= img[i, j] ==>
      LabelExtent(img, l).Some?
  }

  /** The boxes of labels 1 .. LabelCount(img) of a consecutively labelled image. */
  function Extents(img: array2<int>): (bs: seq<Box>)
    requires Labelled(img)
    reads img
    ensures |bs| == LabelCount(img)
    ensures forall k :: 0 <= k < |bs| ==> LabelExtent(img, k + 1) == Some(bs[k])
  {
    var n := LabelCount(img);
    assert forall l :: 1 <= l <= n ==> LabelExtent(img, l).Some? by {
      if n > 0 {
        var i, j :| At(img, i, j, n);
      }
    }
    seq(n, k reads img => match LabelExtent(img, k + 1) case Some(b) => b case None => Box(0, 0, 0, 0))
  }

  /** The largest label of the image, or 0 when no pixel is positive. */
  method MaxLabel(img: array2<int>) returns (m: nat)
    ensures forall i, j :: 0 <= i < img.Length0 && 0 <= j < img.Length1 ==> img[i, j] <= m
    ensures m > 0 ==> exists i, j :: At(img, i, j, m)
    ensures m == LabelCount(img)
  {
    m := 0;
    for i := 0 to img.Length0
      invariant m == MaxRows(img, i, 0)
    {
      for j := 0 to img.Length1
        invariant m == MaxCols(img, i, j, MaxRows(img, i, 0))
      {
        if img[i, j] > m {
          m := img[i, j];
        }
      }
    }
    assert m > 0 ==> exists i, j :: At(img, i, j, m) by {
      if m > 0 {
        var i, j :| 0 <= i < img.Length0 && 0 <= j < img.Length1 && img[i, j] == m;
        assert At(img, i, j, m);
      }
    }
  }

  /** `find_objects`: entry l-1 is the extent of label l, for l = 1 .. max label. */
  method FindObjects(img: array2<int>) returns (boxes: seq<Option<Box>>)
    ensures forall i, j :: 0 <= i < img.Length0 && 0 <= j < img.Length1 ==> img[i, j] <= |boxes|
    ensures |boxes| > 0 ==> exists i, j :: At(img, i, j, |boxes|)
    ensures forall l :: 1 <= l <= |boxes| ==> boxes[l - 1] == LabelExtent(img, l)
    ensures |boxes| == LabelCount(img)
  {
    var m := MaxLabel(img);
    boxes := seq(m, _ => None);
    for i := 0 to img.Length0
      invariant |boxes| == m
      invariant forall l :: 1 <= l <= m ==> boxes[l - 1] == ExtRows(img, l, i)
    {
      for j := 0 to img.Length1
        invariant |boxes| == m
        invariant forall l :: 1 <= l <= m ==> boxes[l - 1] == ExtCols(img, l, i, j, ExtRows(img, l, i))
      {
        var v := img[i, j];
        if v >= 1 {
          boxes := boxes[v - 1 := Some(UnionOpt(boxes[v - 1], PixelBox(i, j)))];
        }
      }
    }
  }
}
