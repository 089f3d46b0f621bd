/** `seg_boxes` of ocrolib/docproc.py: the bounding boxes of the labels of
    a colour segmentation, in raster or in Postscript row order. */
module DocProc {
  import opened Wrappers
  import opened Boxes
  import opened Morph

  /** `array(seg,'uint32')` on an integer pixel: it wraps modulo 2**32. */
  function UInt32(v: int): (u: int)
    ensures 0 <= u < 0x1_0000_0000
    ensures 0 <= v < 0x1_0000_0000 ==> u == v
  {
    v % 0x1_0000_0000
  }

  /** The math-mode tuple `(h-ys.stop-1, h-ys.start-1, xs.start, xs.stop)`
      of a raster box. */
  function MathBox(b: Box, h: int): (m: Box)
    ensures m.c0 == b.c0 && m.c1 == b.c1
    ensures m.r1 - m.r0 == b.r1 - b.r0
    ensures m.r0 + b.r1 == h - 1 && m.r1 + b.r0 == h - 1
  {
    Box(h - b.r1 - 1, h - b.r0 - 1, b.c0, b.c1)
  }

  /** Flipping into math coordinates twice gives the raster box back. */
  lemma MathBoxTwice(b: Box, h: int)
    ensures MathBox(MathBox(b, h), h) == b
  {
  }

  /** The boxes of the labels that are present, in label order. */
  function BoxList(os: seq<Option<Box>>, h: int, math: bool): seq<Box>
  {
    if os == [] then []
    else
      BoxList(os[..|os| - 1], h, math) +
      match os[|os| - 1]
      case None => []
      case Some(b) => [if math then MathBox(b, h) else b]
  }

  /** The labels (1-based) whose entries are present, in order. */
  function PresentLabels(os: seq<Option<Box>>): seq<int>
  {
    if os == [] then []
    else PresentLabels(os[..|os| - 1]) + if os[|os| - 1].Some? then [|os|] else []
  }

  /** `seg_boxes`: the cast, `find_objects`, and the loop that skips the
      missing labels. The cast image is returned as a ghost so that the
      contract can name it. */
  method SegBoxes(seg: array2<int>, math: bool) returns (result: seq<Box>, ghost u: array2<int>)
    ensures fresh(u) && u.Length0 == seg.Length0 && u.Length1 == seg.Length1
    ensures forall i, j :: 0 <= i < seg.Length0 && 0 <= j < seg.Length1 ==> u[i, j] == UInt32(seg[i, j])
    ensures result == BoxList(Objects(u), seg.Length0, math)
  {
    var cast := new int[seg.Length0, seg.Length1]((i, j) reads seg =>
      if 0 <= i < seg.Length0 && 0 <= j < seg.Length1 then UInt32(seg[i, j]) else 0);
    u := cast;
    var slices := FindObjects(cast);
    var h := seg.Length0;
    result := [];
    for i := 0 to |slices|
      invariant result == BoxList(slices[..i], h, math)
    {
      assert slices[..i + 1][..i] == slices[..i];
      if slices[i].Some? {
        var b := slices[i].value;
        if math {
          result := result + [MathBox(b, h)];
        } else {
          result := result + [b];
        }
      }
    }
    assert slices[..|slices|] == slices;
    assert slices == Objects(cast);
  }

  /** Entry k of the list is the box of the k-th present label, the
      labels increase, and a label is listed exactly when it is present;
      math mode flips each box and keeps the order. */
  lemma {:induction false} BoxListOf(os: seq<Option<Box>>, h: int)
    ensures var raster, labels := BoxList(os, h, false), PresentLabels(os);
      && |raster| == |labels| == |BoxList(os, h, true)|
      && (forall k :: 0 <= k < |labels| ==> 1 <= labels[k] <= |os| && os[labels[k] - 1] == Some(raster[k]))
      && (forall a, b :: 0 <= a < b < |labels| ==> labels[a] < labels[b])
      && (forall l :: 1 <= l <= |os| && os[l - 1].Some? ==> l in labels)
      && (forall k :: 0 <= k < |raster| ==> BoxList(os, h, true)[k] == MathBox(raster[k], h))
  {
    if os != [] {
      var n := |os| - 1;
      BoxListOf(os[..n], h);
      assert forall k :: 0 <= k < n ==> os[..n][k] == os[k];
    }
  }

  /** The labels `find_objects` reports as present are the positive
      labels that occur in the image. */
  lemma ObjectLabels(u: array2<int>)
    ensures forall l :: l in PresentLabels(Objects(u)) <==> l >= 1 && exists i, j :: At(u, i, j, l)
  {
    var os := Objects(u);
    BoxListOf(os, 0);
    var n := LabelCount(u);
    assert forall i, j :: 0 <= i < u.Length0 && 0 <= j < u.Length1 ==> u[i, j] <= n;
    forall l ensures l in PresentLabels(os) <==> l >= 1 && exists i, j :: At(u, i, j, l) {
      LabelExtentTight(u, l);
      if l in PresentLabels(os) {
        var k :| 0 <= k < |PresentLabels(os)| && PresentLabels(os)[k] == l;
      }
    }
  }

  /** With consecutive labels, entry k of the raster list is the box of
      label k+1. */
  lemma ConsecutiveBoxes(u: array2<int>, h: int)
    requires Labelled(u)
    ensures BoxList(Objects(u), h, false) == Extents(u)
  {
    var os := Objects(u);
    var e := Extents(u);
    BoxListOf(os, h);
    var labels := PresentLabels(os);
    forall l | 1 <= l <= |os| ensures l in labels {
      assert os[l - 1] == Some(e[l - 1]);
    }
    LabelsAll(labels, |os|);
    var raster := BoxList(os, h, false);
    forall k | 0 <= k < |raster| ensures raster[k] == e[k] {
      assert os[labels[k] - 1] == Some(raster[k]);
    }
  }

  /** Increasing labels in 1 .. n that include each of them are 1 .. n. */
  lemma LabelsAll(labels: seq<int>, n: nat)
    requires forall k :: 0 <= k < |labels| ==> 1 <= labels[k] <= n
    requires forall a, b :: 0 <= a < b < |labels| ==> labels[a] < labels[b]
    requires forall l :: 1 <= l <= n ==> l in labels
    ensures |labels| == n && forall k :: 0 <= k < n ==> labels[k] == k + 1
  {
    LabelsFloor(labels);
    if labels != [] {
      assert labels[|labels| - 1] >= |labels|;
    }
    forall k | 0 <= k < |labels| ensures labels[k] == k + 1 {
      LabelsExact(labels, n, k);
    }
    if n > 0 {
      assert n in labels;
      var j :| 0 <= j < |labels| && labels[j] == n;
      assert labels[j] == j + 1;
    }
  }

  /** Entry k of increasing positive labels is at least k+1. */
  lemma {:induction false} LabelsFloor(labels: seq<int>)
    requires forall k :: 0 <= k < |labels| ==> 1 <= labels[k]
    requires forall a, b :: 0 <= a < b < |labels| ==> labels[a] < labels[b]
    ensures forall k :: 0 <= k < |labels| ==> labels[k] >= k + 1
  {
    if labels != [] {
      var m := |labels| - 1;
      LabelsFloor(labels[..m]);
      assert forall k :: 0 <= k < m ==> labels[..m][k] == labels[k];
      if m > 0 {
        assert labels[m - 1] < labels[m];
      }
    }
  }

  /** Label k+1 can only sit at entry k. */
  lemma {:induction false} LabelsExact(labels: seq<int>, n: nat, k: int)
    requires forall k :: 0 <= k < |labels| ==> 1 <= labels[k] <= n
    requires forall a, b :: 0 <= a < b < |labels| ==> labels[a] < labels[b]
    requires forall l :: 1 <= l <= n ==> l in labels
    requires forall k :: 0 <= k < |labels| ==> labels[k] >= k + 1
    requires 0 <= k < |labels| && k < n
    ensures labels[k] == k + 1
    decreases k
  {
    forall j | 0 <= j < k ensures labels[j] == j + 1 {
      LabelsExact(labels, n, j);
    }
    assert k + 1 in labels;
    var j :| 0 <= j < |labels| && labels[j] == k + 1;
  }
}
