/** The label-table part of ocrolib/morph.py. A label image is taken
    flattened in row-major order (numpy's `ravel`), a sequence of pixels;
    the tables the functions build are arrays indexed by label. */
module Morph {
  import opened Wrappers
  import opened PyOps
  import opened Sorting
  import opened Boxes

  // ---------------------------------------------------------------
  // check_binary
  // ---------------------------------------------------------------

  /** The element types `check_binary` tells apart: 'B', 'i', bool, and
      every other numpy dtype. */
  datatype DType = UInt8 | Int32 | Bool | OtherType

  /** `check_binary`: the first assert looks at the dtype, the second at the
      smallest and largest pixel (which an empty array does not have). */
  function CheckBinary(dt: DType, image: seq<int>): Result<()>
  {
    if dt == OtherType then Err(AssertionError("array should be binary, is"))
    else if image == [] then Err(ValueError)
    else if MinOf(image) >= 0 && MaxOf(image) <= 1 then Ok(())
    else Err(AssertionError("array should be binary, has values"))
  }

  /** An image passes exactly when its dtype is 'B', 'i' or bool and every
      pixel is 0 or 1. */
  lemma CheckBinaryOf(dt: DType, image: seq<int>)
    ensures CheckBinary(dt, image).Ok? <==>
      dt != OtherType && image != [] && forall p :: 0 <= p < |image| ==> image[p] == 0 || image[p] == 1
    ensures dt == OtherType ==> CheckBinary(dt, image) == Err(AssertionError("array should be binary, is"))
    ensures dt != OtherType && image != [] && CheckBinary(dt, image).Err? ==>
      CheckBinary(dt, image) == Err(AssertionError("array should be binary, has values"))
  {
    if dt != OtherType && image != [] {
      if forall p :: 0 <= p < |image| ==> image[p] == 0 || image[p] == 1 {
        assert forall x :: x in image ==> 0 <= x <= 1 by {
          forall x | x in image ensures 0 <= x <= 1 {
            var p :| 0 <= p < |image| && image[p] == x;
          }
        }
      } else {
        var p :| 0 <= p < |image| && image[p] != 0 && image[p] != 1;
        assert image[p] in image;
      }
    }
  }

  // ---------------------------------------------------------------
  // correspondences
  // ---------------------------------------------------------------

  /** The base `q` that packs a pair of labels into one number. */
  const Q := 100000

  /** `labels1*q+labels2`, pixel by pixel. */
  function Combos(l1: seq<int>, l2: seq<int>): (c: seq<int>)
    requires |l1| == |l2|
    ensures |c| == |l1| && forall p :: 0 <= p < |l1| ==> c[p] == l1[p] * Q + l2[p]
  {
    seq(|l1|, p requires 0 <= p < |l1| => l1[p] * Q + l2[p])
  }

  /** `array([result//q, result%q])`, column by column. */
  function Unpack(u: seq<int>): (r: seq<(int, int)>)
    ensures |r| == |u| && forall k :: 0 <= k < |u| ==> r[k] == (u[k] / Q, u[k] % Q)
  {
    seq(|u|, k requires 0 <= k < |u| => (u[k] / Q, u[k] % Q))
  }

  /** `correspondences(labels1, labels2)`, as the list of its columns. */
  function Correspondences(l1: seq<int>, l2: seq<int>): Result<seq<(int, int)>>
    requires |l1| == |l2|
  {
    if l1 == [] then Err(ValueError)
    else if MinOf(l1) < 0 || MinOf(l2) < 0 then Err(AssertionError("amin(labels1)>=0 and amin(labels2)>=0"))
    else if MaxOf(l2) >= Q then Err(AssertionError("amax(labels2)<q"))
    else Ok(Unpack(Unique(Combos(l1, l2))))
  }

  /** The labels are well formed for `correspondences`: non-negative, with
      the second below q. */
  predicate Packable(l1: seq<int>, l2: seq<int>)
    requires |l1| == |l2|
  {
    forall p :: 0 <= p < |l1| ==> l1[p] >= 0 && 0 <= l2[p] < Q
  }

  /** Packing a pair and unpacking it gives the pair back, and packed pairs
      compare as the pairs do, first label first. */
  lemma PackPair(a: int, b: int, c: int, d: int)
    requires a >= 0 && 0 <= b < Q && c >= 0 && 0 <= d < Q
    ensures (a * Q + b) / Q == a && (a * Q + b) % Q == b
    ensures a * Q + b < c * Q + d <==> PairLess((a, b), (c, d))
  {
    if a < c {
      assert a * Q + b < (a + 1) * Q <= c * Q;
    } else if c < a {
      assert c * Q + d < (c + 1) * Q <= a * Q;
    }
  }

  /** `correspondences` fails on an empty image, on a negative label, and
      on a second label of q or more, and succeeds otherwise. */
  lemma CorrespondencesFails(l1: seq<int>, l2: seq<int>)
    requires |l1| == |l2|
    ensures Correspondences(l1, l2).Ok? <==> l1 != [] && Packable(l1, l2)
    ensures l1 == [] ==> Correspondences(l1, l2) == Err(ValueError)
  {
    if l1 != [] {
      if Packable(l1, l2) {
        assert MinOf(l1) in l1 && MinOf(l2) in l2 && MaxOf(l2) in l2;
      } else {
        var p :| 0 <= p < |l1| && !(l1[p] >= 0 && 0 <= l2[p] < Q);
        assert l1[p] in l1 && l2[p] in l2;
      }
    }
  }

  /** Every packed number of the result comes from some pixel. */
  lemma UniqueFrom(c: seq<int>, k: int) returns (p: int)
    requires 0 <= k < |Unique(c)|
    ensures 0 <= p < |c| && Unique(c)[k] == c[p]
  {
    UniqueOf(c);
    assert Unique(c)[k] in Elems(c);
    p :| 0 <= p < |c| && Unique(c)[k] == c[p];
  }

  /** A pair of the result meets at some pixel. */
  lemma CorrespondenceFrom(l1: seq<int>, l2: seq<int>, k: int) returns (p: int)
    requires |l1| == |l2| && Correspondences(l1, l2).Ok? && 0 <= k < |Correspondences(l1, l2).value|
    ensures 0 <= p < |l1| && Correspondences(l1, l2).value[k] == (l1[p], l2[p])
  {
    CorrespondencesFails(l1, l2);
    p := UniqueFrom(Combos(l1, l2), k);
    PackPair(l1[p], l2[p], 0, 0);
  }

  /** The pair of labels at each pixel is in the result. */
  lemma CorrespondenceAt(l1: seq<int>, l2: seq<int>, p: int) returns (k: int)
    requires |l1| == |l2| && Correspondences(l1, l2).Ok? && 0 <= p < |l1|
    ensures 0 <= k < |Correspondences(l1, l2).value| && Correspondences(l1, l2).value[k] == (l1[p], l2[p])
  {
    CorrespondencesFails(l1, l2);
    var c := Combos(l1, l2);
    var u := Unique(c);
    UniqueOf(c);
    assert c[p] in Elems(u);
    k :| 0 <= k < |u| && u[k] == c[p];
    PackPair(l1[p], l2[p], 0, 0);
  }

  /** The result lists every pair of labels that meet at some pixel, and
      nothing else. */
  lemma CorrespondencesOf(l1: seq<int>, l2: seq<int>)
    requires |l1| == |l2| && Correspondences(l1, l2).Ok?
    ensures forall x :: x in Correspondences(l1, l2).value <==> exists p :: 0 <= p < |l1| && x == (l1[p], l2[p])
  {
    var r := Correspondences(l1, l2).value;
    forall x ensures x in r <==> exists p :: 0 <= p < |l1| && x == (l1[p], l2[p]) {
      if x in r {
        var k :| 0 <= k < |r| && r[k] == x;
        var p := CorrespondenceFrom(l1, l2, k);
      }
      if exists p :: 0 <= p < |l1| && x == (l1[p], l2[p]) {
        var p :| 0 <= p < |l1| && x == (l1[p], l2[p]);
        var k := CorrespondenceAt(l1, l2, p);
      }
    }
  }

  /** The pairs of the result come once each, sorted by the first label
      and then by the second. */
  lemma CorrespondencesSorted(l1: seq<int>, l2: seq<int>)
    requires |l1| == |l2| && Correspondences(l1, l2).Ok?
    ensures var r := Correspondences(l1, l2).value;
      forall i, j :: 0 <= i < j < |r| ==> PairLess(r[i], r[j])
  {
    CorrespondencesFails(l1, l2);
    var c := Combos(l1, l2);
    var u := Unique(c);
    var r := Unpack(u);
    UniqueOf(c);
    forall i, j | 0 <= i < j < |r| ensures PairLess(r[i], r[j]) {
      var p := UniqueFrom(c, i);
      var q := UniqueFrom(c, j);
      PackPair(l1[p], l2[p], l1[q], l2[q]);
    }
  }

  // ---------------------------------------------------------------
  // propagate_labels_simple and propagate_labels
  // ---------------------------------------------------------------

  /** Label v of the second image meets region o of the first. */
  ghost predicate Meets(rl: seq<int>, l: seq<int>, o: int, v: int)
    requires |rl| == |l|
  {
    exists q :: 0 <= q < |rl| && rl[q] == o && l[q] == v
  }

  /** What `outputs[o] = i` leaves in entry o after the pairs cs, in order:
      the second label of the last pair for o, or 0. */
  function LastFor(cs: seq<(int, int)>, o: int): int
  {
    if cs == [] then 0
    else if cs[|cs| - 1].0 == o then cs[|cs| - 1].1
    else LastFor(cs[..|cs| - 1], o)
  }

  /** In a sorted list of pairs the last pair for o holds the largest
      second label for o. */
  lemma {:induction false} LastIsLargest(cs: seq<(int, int)>, o: int)
    requires forall i, j :: 0 <= i < j < |cs| ==> PairLess(cs[i], cs[j])
    ensures (exists b :: (o, b) in cs) ==> (o, LastFor(cs, o)) in cs
    ensures forall b :: (o, b) in cs ==> b <= LastFor(cs, o)
  {
    if cs != [] {
      var pre := cs[..|cs| - 1];
      LastIsLargest(pre, o);
      assert cs == pre + [cs[|cs| - 1]];
      forall b | (o, b) in cs ensures b <= LastFor(cs, o) {
        var i :| 0 <= i < |cs| && cs[i] == (o, b);
        if i < |cs| - 1 {
          assert (o, b) in pre;
          if cs[|cs| - 1].0 == o {
            assert PairLess(cs[i], cs[|cs| - 1]);
          }
        }
      }
    }
  }

  /** What the voting loop of `propagate_labels` leaves in entry o after
      the pairs cs: 0, the one label seen, or `oops` once a second
      label comes after a nonzero one. */
  function Vote(cs: seq<(int, int)>, o: int): int
  {
    if cs == [] then 0
    else
      var v := Vote(cs[..|cs| - 1], o);
      if cs[|cs| - 1].0 != o then v
      else if v != 0 then Oops
      else cs[|cs| - 1].1
  }

  /** `oops`, the mark of a region that meets two labels. */
  const Oops := -0x4000_0000

  /** With the pairs sorted and every label non-negative, the vote for o is
      0 when no nonzero label pairs with o, that label when exactly one
      does, and `oops` when two different ones do. */
  lemma {:induction false} VoteOf(cs: seq<(int, int)>, o: int)
    requires forall i, j :: 0 <= i < j < |cs| ==> PairLess(cs[i], cs[j])
    requires forall i :: 0 <= i < |cs| ==> cs[i].1 >= 0
    ensures Vote(cs, o) == 0 ==> forall b :: (o, b) in cs ==> b == 0
    ensures Vote(cs, o) != 0 && Vote(cs, o) != Oops ==>
      Vote(cs, o) > 0 && (o, Vote(cs, o)) in cs && forall b :: (o, b) in cs && b != 0 ==> b == Vote(cs, o)
    ensures Vote(cs, o) == Oops ==>
      exists b1, b2 :: (o, b1) in cs && (o, b2) in cs && b1 != b2 && b1 != 0 && b2 != 0
  {
    if cs != [] {
      var pre := cs[..|cs| - 1];
      var last := cs[|cs| - 1];
      VoteOf(pre, o);
      assert cs == pre + [last];
      assert forall x :: x in cs <==> x in pre || x == last;
      assert forall x :: x in pre ==> PairLess(x, last) by {
        forall x | x in pre ensures PairLess(x, last) {
          var i :| 0 <= i < |pre| && pre[i] == x;
        }
      }
      assert last.1 >= 0;
      var v := Vote(pre, o);
      if last.0 == o && v != 0 && v != Oops {
        assert PairLess((o, v), last);
        assert (o, v) in cs && last in cs && v != last.1;
      }
    }
  }

  /** Region o meets two different nonzero labels. */
  ghost predicate Conflicts(rl: seq<int>, l: seq<int>, o: int)
    requires |rl| == |l|
  {
    exists q1, q2 :: 0 <= q1 < |rl| && 0 <= q2 < |rl| && rl[q1] == o && rl[q2] == o &&
      l[q1] != 0 && l[q2] != 0 && l[q1] != l[q2]
  }

  /** The largest label of region o's image, when o has pixels. */
  lemma RegionTable(rl: seq<int>, o: int, p: int)
    requires 0 <= p < |rl| && rl[p] == o
    ensures o <= MaxOf(rl)
  {
    assert rl[p] in rl;
  }

  /** The last pair for the region of pixel p holds a label that meets
      the region, and no label that meets it is larger. */
  lemma LastMeaning(rl: seq<int>, l: seq<int>, p: int)
    requires |rl| == |l| && Correspondences(rl, l).Ok? && 0 <= p < |rl|
    ensures var v := LastFor(Correspondences(rl, l).value, rl[p]);
      Meets(rl, l, rl[p], v) && forall q :: 0 <= q < |rl| && rl[q] == rl[p] ==> l[q] <= v
  {
    var cs := Correspondences(rl, l).value;
    CorrespondencesOf(rl, l);
    CorrespondencesSorted(rl, l);
    LastIsLargest(cs, rl[p]);
    assert (rl[p], l[p]) in cs;
    var v := LastFor(cs, rl[p]);
    assert (rl[p], v) in cs;
    forall q | 0 <= q < |rl| && rl[q] == rl[p] ensures l[q] <= v {
      assert (rl[p], l[q]) in cs;
    }
  }

  /** The vote for the region of pixel p is 0 exactly when no nonzero
      label meets it, `oops` exactly when two different ones do, and
      otherwise the one nonzero label that does. */
  lemma VoteMeaning(rl: seq<int>, l: seq<int>, p: int)
    requires |rl| == |l| && Correspondences(rl, l).Ok? && 0 <= p < |rl|
    ensures var v := Vote(Correspondences(rl, l).value, rl[p]);
      && (v == 0 <==> forall q :: 0 <= q < |rl| && rl[q] == rl[p] ==> l[q] == 0)
      && (v == Oops <==> Conflicts(rl, l, rl[p]))
      && (v != 0 && v != Oops ==>
            Meets(rl, l, rl[p], v) && forall q :: 0 <= q < |rl| && rl[q] == rl[p] && l[q] != 0 ==> l[q] == v)
  {
    var cs := Correspondences(rl, l).value;
    var o := rl[p];
    CorrespondencesFails(rl, l);
    CorrespondencesOf(rl, l);
    CorrespondencesSorted(rl, l);
    assert forall i :: 0 <= i < |cs| ==> cs[i].1 >= 0 by {
      forall i | 0 <= i < |cs| ensures cs[i].1 >= 0 {
        var q := CorrespondenceFrom(rl, l, i);
      }
    }
    VoteOf(cs, o);
    assert forall q :: 0 <= q < |rl| && rl[q] == o ==> (o, l[q]) in cs;
    var v := Vote(cs, o);
    if v == Oops {
      var b1, b2 :| (o, b1) in cs && (o, b2) in cs && b1 != b2 && b1 != 0 && b2 != 0;
      var q1 :| 0 <= q1 < |rl| && (o, b1) == (rl[q1], l[q1]);
      var q2 :| 0 <= q2 < |rl| && (o, b2) == (rl[q2], l[q2]);
      assert Conflicts(rl, l, o);
      assert l[q1] != 0;
    } else if v != 0 {
      assert (o, v) in cs;
      var q :| 0 <= q < |rl| && (o, v) == (rl[q], l[q]);
      assert l[q] != 0;
      forall q1, q2 | 0 <= q1 < |rl| && 0 <= q2 < |rl| && rl[q1] == o && rl[q2] == o && l[q1] != 0 && l[q2] != 0
        ensures l[q1] == l[q2]
      {
        assert (o, l[q1]) in cs && (o, l[q2]) in cs;
      }
    } else {
      forall q1 | 0 <= q1 < |rl| && rl[q1] == o ensures l[q1] == 0 {
        assert (o, l[q1]) in cs;
      }
    }
  }

  /** `propagate_labels_simple` after `label(regions)`, whose region image
      rl is given: region o gets the second label of its last pair, which
      is the largest label that meets it; region 0 gets 0. */
  method PropagateLabelsSimple(rl: seq<int>, l: seq<int>) returns (r: Result<seq<int>>)
    requires |rl| == |l|
    ensures Correspondences(rl, l).Err? ==> r == Err(Correspondences(rl, l).error)
    ensures Correspondences(rl, l).Ok? ==> r.Ok? && |r.value| == |rl|
    ensures r.Ok? ==> forall p :: 0 <= p < |rl| ==>
      (rl[p] == 0 ==> r.value[p] == 0) &&
      (rl[p] != 0 ==> Meets(rl, l, rl[p], r.value[p]) &&
                      forall q :: 0 <= q < |rl| && rl[q] == rl[p] ==> l[q] <= r.value[p])
  {
    var cors := Correspondences(rl, l);
    if cors.Err? {
      return Err(cors.error);
    }
    CorrespondencesFails(rl, l);
    var outputs := LastTable(rl, l);
    var out := seq(|rl|, p requires 0 <= p < |rl| =>
      if 0 <= rl[p] < |outputs| then outputs[rl[p]] else 0);
    forall p | 0 <= p < |rl| && rl[p] != 0
      ensures Meets(rl, l, rl[p], out[p]) && forall q :: 0 <= q < |rl| && rl[q] == rl[p] ==> l[q] <= out[p]
    {
      RegionTable(rl, rl[p], p);
      LastMeaning(rl, l, p);
    }
    return Ok(out);
  }

  /** The `outputs` table of `propagate_labels_simple`: entry o holds the
      second label of the last pair for o, and entry 0 is cleared. */
  method LastTable(rl: seq<int>, l: seq<int>) returns (t: seq<int>)
    requires |rl| == |l| && Correspondences(rl, l).Ok?
    ensures |t| == MaxOf(rl) + 1 && t[0] == 0
    ensures forall o :: 0 < o < |t| ==> t[o] == LastFor(Correspondences(rl, l).value, o)
  {
    var cs := Correspondences(rl, l).value;
    CorrespondencesFails(rl, l);
    RegionTable(rl, rl[0], 0);
    var outputs := new int[MaxOf(rl) + 1](_ => 0);
    for k := 0 to |cs|
      invariant forall o :: 0 <= o < outputs.Length ==> outputs[o] == LastFor(cs[..k], o)
    {
      assert cs[..k + 1][..k] == cs[..k];
      var q := CorrespondenceFrom(rl, l, k);
      RegionTable(rl, rl[q], q);
      outputs[cs[k].0] := cs[k].1;
    }
    assert cs[..|cs|] == cs;
    outputs[0] := 0;
    t := outputs[..];
  }

  /** `propagate_labels` after `label(image)`, whose region image rl is
      given: region 0 gets 0; a region that meets no nonzero label gets
      0, one that meets exactly one gets it, and one that meets two or
      more gets `conflict`. Meeting the background (label 0) is no
      conflict. */
  method PropagateLabels(rl: seq<int>, l: seq<int>, conflict: int) returns (r: Result<seq<int>>)
    requires |rl| == |l|
    ensures Correspondences(rl, l).Err? ==> r == Err(Correspondences(rl, l).error)
    ensures Correspondences(rl, l).Ok? ==> r.Ok? && |r.value| == |rl|
    ensures r.Ok? ==> forall p :: 0 <= p < |rl| ==>
      (rl[p] == 0 ==> r.value[p] == 0) &&
      (rl[p] != 0 && (forall q :: 0 <= q < |rl| && rl[q] == rl[p] ==> l[q] == 0) ==> r.value[p] == 0) &&
      (rl[p] != 0 && r.value[p] != 0 && r.value[p] != conflict ==>
         Meets(rl, l, rl[p], r.value[p]) &&
         forall q :: 0 <= q < |rl| && rl[q] == rl[p] && l[q] != 0 ==> l[q] == r.value[p]) &&
      (rl[p] != 0 && Conflicts(rl, l, rl[p]) ==> r.value[p] == conflict)
    ensures r.Ok? ==> forall p, q ::
      0 <= p < |rl| && 0 <= q < |rl| && rl[p] != 0 && rl[q] == rl[p] && l[q] != 0 && !Conflicts(rl, l, rl[p])
      ==> r.value[p] == l[q]
  {
    var cors := Correspondences(rl, l);
    if cors.Err? {
      return Err(cors.error);
    }
    CorrespondencesFails(rl, l);
    var outputs := VoteTable(rl, l, conflict);
    var out := seq(|rl|, p requires 0 <= p < |rl| =>
      if 0 <= rl[p] < |outputs| then outputs[rl[p]] else 0);
    forall p | 0 <= p < |rl| && rl[p] != 0
      ensures (forall q :: 0 <= q < |rl| && rl[q] == rl[p] ==> l[q] == 0) ==> out[p] == 0
      ensures out[p] != 0 && out[p] != conflict ==>
        Meets(rl, l, rl[p], out[p]) && forall q :: 0 <= q < |rl| && rl[q] == rl[p] && l[q] != 0 ==> l[q] == out[p]
      ensures Conflicts(rl, l, rl[p]) ==> out[p] == conflict
      ensures forall q :: 0 <= q < |rl| && rl[q] == rl[p] && l[q] != 0 && !Conflicts(rl, l, rl[p]) ==> out[p] == l[q]
    {
      RegionTable(rl, rl[p], p);
      VoteMeaning(rl, l, p);
    }
    return Ok(out);
  }

  /** The `outputs` table of `propagate_labels`: entry o holds the vote
      for o, with a conflict written as `conflict`, and entry 0 is
      cleared. */
  method VoteTable(rl: seq<int>, l: seq<int>, conflict: int) returns (t: seq<int>)
    requires |rl| == |l| && Correspondences(rl, l).Ok?
    ensures |t| == MaxOf(rl) + 1 && t[0] == 0
    ensures forall o :: 0 < o < |t| ==>
      t[o] == if Vote(Correspondences(rl, l).value, o) == Oops then conflict else Vote(Correspondences(rl, l).value, o)
  {
    var cs := Correspondences(rl, l).value;
    CorrespondencesFails(rl, l);
    RegionTable(rl, rl[0], 0);
    var outputs := new int[MaxOf(rl) + 1](_ => 0);
    for k := 0 to |cs|
      invariant forall o :: 0 <= o < outputs.Length ==> outputs[o] == Vote(cs[..k], o)
    {
      assert cs[..k + 1][..k] == cs[..k];
      var q := CorrespondenceFrom(rl, l, k);
      RegionTable(rl, rl[q], q);
      if outputs[cs[k].0] != 0 {
        outputs[cs[k].0] := Oops;
      } else {
        outputs[cs[k].0] := cs[k].1;
      }
    }
    assert cs[..|cs|] == cs;
    forall o | 0 <= o < outputs.Length && outputs[o] == Oops {
      outputs[o] := conflict;
    }
    outputs[0] := 0;
    t := outputs[..];
  }

  // ---------------------------------------------------------------
  // renumber_labels_ordered
  // ---------------------------------------------------------------

  /** The largest label `renumber_labels_ordered` accepts, 2**25. */
  const MaxRenumbered := 0x200_0000

  /** What `renumber_labels_ordered` returns: the renumbered image, and the
      sorted labels when `correspondence` is set. */
  datatype Renumbered = Renumbered(image: seq<int>, labels: Option<seq<int>>)

  /** The two asserts of `renumber_labels_ordered`, after `amin`, which
      fails on an empty image. */
  function RenumberCheck(a: seq<int>): Result<()>
  {
    if a == [] then Err(ValueError)
    else if MinOf(a) < 0 then Err(AssertionError("amin(a)>=0"))
    else if MaxOf(a) > MaxRenumbered then Err(AssertionError("amax(a)<=2**25"))
    else Ok(())
  }

  /** The image is renumbered exactly when it is non-empty and every label
      lies in [0, 2**25]. */
  lemma RenumberCheckOf(a: seq<int>)
    ensures RenumberCheck(a).Ok? <==> a != [] && forall p :: 0 <= p < |a| ==> 0 <= a[p] <= MaxRenumbered
  {
    if a != [] {
      if forall p :: 0 <= p < |a| ==> 0 <= a[p] <= MaxRenumbered {
        var lo :| 0 <= lo < |a| && a[lo] == MinOf(a);
        var hi :| 0 <= hi < |a| && a[hi] == MaxOf(a);
      } else {
        var p :| 0 <= p < |a| && !(0 <= a[p] <= MaxRenumbered);
        assert a[p] in a;
      }
    }
  }

  /** `renumber_labels_ordered`: each pixel becomes the position of its
      label among the sorted distinct labels. */
  method RenumberLabelsOrdered(a: seq<int>, correspondence: bool) returns (r: Result<Renumbered>)
    ensures RenumberCheck(a).Err? ==> r == Err(RenumberCheck(a).error)
    ensures RenumberCheck(a).Ok? ==> r.Ok?
    ensures r.Ok? ==>
      var labels := Unique(a);
      && |r.value.image| == |a|
      && r.value.labels == (if correspondence then Some(labels) else None)
      && forall p :: 0 <= p < |a| ==> 0 <= r.value.image[p] < |labels| && labels[r.value.image[p]] == a[p]
  {
    var check := RenumberCheck(a);
    if check.Err? {
      return Err(check.error);
    }
    var labels := Unique(a);
    UniqueOf(a);
    LabelsBelowTop(a, labels);
    var rs := InverseTable(labels, MaxOf(labels));
    var image := seq(|a|, p requires 0 <= p < |a| => if 0 <= a[p] < |rs| then rs[a[p]] else 0);
    RenumberImage(a, labels, rs);
    return Ok(Renumbered(image, if correspondence then Some(labels) else None));
  }

  /** `renum = zeros(amax(a)+1)` and `renum[labels] = range(len(labels))`:
      the table sending each label to its position. */
  method InverseTable(labels: seq<int>, top: int) returns (rs: seq<int>)
    requires Increasing(labels) && top >= 0
    requires forall k :: 0 <= k < |labels| ==> 0 <= labels[k] <= top
    ensures |rs| == top + 1
    ensures forall k :: 0 <= k < |labels| ==> rs[labels[k]] == k
  {
    var renum := new int[top + 1](_ => 0);
    forall k | 0 <= k < |labels| {
      renum[labels[k]] := k;
    }
    rs := renum[..];
  }

  /** The sorted labels of a checked image are non-negative and at most
      their largest. */
  lemma LabelsBelowTop(a: seq<int>, labels: seq<int>)
    requires RenumberCheck(a).Ok? && Elems(labels) == Elems(a)
    ensures labels != [] && forall k :: 0 <= k < |labels| ==> 0 <= labels[k] <= MaxOf(labels)
  {
    assert a[0] in Elems(labels);
    var top := MaxOf(labels);
    forall k | 0 <= k < |labels| ensures 0 <= labels[k] <= top {
      assert labels[k] in Elems(a);
      var p :| 0 <= p < |a| && a[p] == labels[k];
      assert a[p] in a;
    }
  }

  /** Looking each pixel up in the inverse of the labels gives its
      position among them. */
  lemma RenumberImage(a: seq<int>, labels: seq<int>, rs: seq<int>)
    requires Elems(labels) == Elems(a)
    requires forall k :: 0 <= k < |labels| ==> 0 <= labels[k] < |rs| && rs[labels[k]] == k
    ensures forall p :: 0 <= p < |a| ==> 0 <= a[p] < |rs| && 0 <= rs[a[p]] < |labels| && labels[rs[a[p]]] == a[p]
  {
    forall p | 0 <= p < |a| ensures 0 <= a[p] < |rs| && 0 <= rs[a[p]] < |labels| && labels[rs[a[p]]] == a[p] {
      assert a[p] in Elems(labels);
      var k :| 0 <= k < |labels| && labels[k] == a[p];
    }
  }

  /** The renumbering keeps the order of the labels and uses every number
      from 0 to the count of distinct labels minus 1. */
  lemma RenumberedOrder(a: seq<int>, image: seq<int>)
    requires |image| == |a|
    requires forall p :: 0 <= p < |a| ==> 0 <= image[p] < |Unique(a)| && Unique(a)[image[p]] == a[p]
    ensures forall p, q :: 0 <= p < |a| && 0 <= q < |a| ==> (a[p] < a[q] <==> image[p] < image[q])
    ensures forall p, q :: 0 <= p < |a| && 0 <= q < |a| ==> (a[p] == a[q] <==> image[p] == image[q])
    ensures forall k :: 0 <= k < |Unique(a)| ==> k in image
  {
    var labels := Unique(a);
    UniqueOf(a);
    forall p, q | 0 <= p < |a| && 0 <= q < |a|
      ensures (a[p] < a[q] <==> image[p] < image[q]) && (a[p] == a[q] <==> image[p] == image[q])
    {
      IncreasingIndex(labels, image[p], image[q]);
    }
    forall k | 0 <= k < |labels| ensures k in image {
      assert labels[k] in Elems(a);
      var p :| 0 <= p < |a| && a[p] == labels[k];
      IncreasingIndex(labels, image[p], k);
    }
  }

  // ---------------------------------------------------------------
  // pyargsort
  // ---------------------------------------------------------------

  /** Index i comes before index j in Python's stable sort by key. */
  predicate KeyLess(keys: seq<int>, i: int, j: int)
  {
    0 <= i < |keys| && 0 <= j < |keys| && (keys[i] < keys[j] || (keys[i] == keys[j] && i < j))
  }

  /** The indices are in stable sorted order by key. */
  predicate KeySorted(keys: seq<int>, s: seq<int>)
  {
    forall a, b :: 0 <= a < b < |s| ==> KeyLess(keys, s[a], s[b])
  }

  /** Inserts index i into indices sorted by key. */
  function InsertIndex(keys: seq<int>, i: int, s: seq<int>): seq<int>
    decreases |s|
  {
    if s == [] then [i]
    else if KeyLess(keys, i, s[0]) then [i] + s
    else [s[0]] + InsertIndex(keys, i, s[1..])
  }

  /** The indices of the first n keys, sorted by key and then by index. */
  function ArgSortFrom(keys: seq<int>, n: nat): seq<int>
    requires n <= |keys|
  {
    if n == 0 then [] else InsertIndex(keys, n - 1, ArgSortFrom(keys, n - 1))
  }

  /** `pyargsort(seq)` with the default `cmp` and `key`, on integer keys. */
  function PyArgSort(keys: seq<int>): seq<int>
  {
    ArgSortFrom(keys, |keys|)
  }

  lemma {:induction false} InsertIndexOf(keys: seq<int>, i: int, s: seq<int>)
    requires 0 <= i < |keys| && i !in s && KeySorted(keys, s)
    requires forall x :: x in s ==> 0 <= x < |keys|
    ensures |InsertIndex(keys, i, s)| == |s| + 1
    ensures Elems(InsertIndex(keys, i, s)) == Elems(s) + {i}
    ensures KeySorted(keys, InsertIndex(keys, i, s))
    decreases |s|
  {
    if s != [] {
      assert s == [s[0]] + s[1..];
      assert Elems(s) == {s[0]} + Elems(s[1..]);
      if KeyLess(keys, i, s[0]) {
        InsertFront(keys, i, s);
      } else {
        var t := InsertIndex(keys, i, s[1..]);
        InsertIndexOf(keys, i, s[1..]);
        InsertBehind(keys, i, s, t);
      }
    }
  }

  /** An index before the first of sorted indices can go in front. */
  lemma InsertFront(keys: seq<int>, i: int, s: seq<int>)
    requires s != [] && KeyLess(keys, i, s[0]) && KeySorted(keys, s)
    ensures Elems([i] + s) == Elems(s) + {i}
    ensures KeySorted(keys, [i] + s)
  {
    var r := [i] + s;
    assert forall y :: y in r <==> y == i || y in s;
    forall a, b | 0 <= a < b < |r| ensures KeyLess(keys, r[a], r[b]) {
      if a == 0 && b > 1 {
        assert KeyLess(keys, s[0], s[b - 1]);
      }
    }
  }

  /** An index that does not go before the first goes into the rest,
      behind the first. */
  lemma InsertBehind(keys: seq<int>, i: int, s: seq<int>, t: seq<int>)
    requires s != [] && 0 <= i < |keys| && !KeyLess(keys, i, s[0]) && i != s[0]
    requires 0 <= s[0] < |keys| && KeySorted(keys, s)
    requires Elems(t) == Elems(s[1..]) + {i} && KeySorted(keys, t)
    ensures Elems([s[0]] + t) == Elems(s) + {i}
    ensures KeySorted(keys, [s[0]] + t)
  {
    assert Elems(s) == {s[0]} + Elems(s[1..]) by {
      assert s == [s[0]] + s[1..];
    }
    assert KeyLess(keys, s[0], i);
    forall j | 0 <= j < |t| ensures KeyLess(keys, s[0], t[j]) {
      assert t[j] in Elems(t);
      if t[j] != i {
        var k :| 0 <= k < |s[1..]| && s[1..][k] == t[j];
        assert s[k + 1] == t[j];
      }
    }
    var r := [s[0]] + t;
    assert Elems(r) == {s[0]} + Elems(t) by {
      assert forall y :: y in r <==> y == s[0] || y in t;
    }
    forall a, b | 0 <= a < b < |r| ensures KeyLess(keys, r[a], r[b]) {
      if a > 0 {
        assert r[a] == t[a - 1] && r[b] == t[b - 1];
      }
    }
  }

  lemma {:induction false} ArgSortFromOf(keys: seq<int>, n: nat)
    requires n <= |keys|
    ensures |ArgSortFrom(keys, n)| == n && forall x :: x in ArgSortFrom(keys, n) <==> 0 <= x < n
    ensures KeySorted(keys, ArgSortFrom(keys, n))
  {
    if n > 0 {
      ArgSortFromOf(keys, n - 1);
      var s := ArgSortFrom(keys, n - 1);
      InsertIndexOf(keys, n - 1, s);
      var r := ArgSortFrom(keys, n);
      assert r == InsertIndex(keys, n - 1, s);
      forall x ensures x in r <==> 0 <= x < n {
        assert x in r <==> x in Elems(r);
        assert x in s <==> x in Elems(s);
      }
    }
  }

  /** `pyargsort` returns every index once, the keys in that order never
      decrease, and equal keys keep their order. */
  lemma PyArgSortOf(keys: seq<int>)
    ensures var r := PyArgSort(keys);
      && |r| == |keys| && (forall x :: x in r <==> 0 <= x < |keys|)
      && (forall a :: 0 <= a < |r| ==> 0 <= r[a] < |keys|)
      && (forall a, b :: 0 <= a < b < |r| ==> r[a] != r[b])
      && (forall a, b :: 0 <= a < b < |r| ==> keys[r[a]] <= keys[r[b]])
      && (forall a, b :: 0 <= a < b < |r| && keys[r[a]] == keys[r[b]] ==> r[a] < r[b])
  {
    ArgSortFromOf(keys, |keys|);
    var r := PyArgSort(keys);
    assert forall a :: 0 <= a < |r| ==> r[a] in r;
    assert forall a, b :: 0 <= a < b < |r| ==> KeyLess(keys, r[a], r[b]);
  }

  // ---------------------------------------------------------------
  // renumber_by_xcenter
  // ---------------------------------------------------------------

  /** `for i,j in enumerate(order): segmap[j] = i` over n zeros. */
  function Scatter(order: seq<int>, n: nat): (t: seq<int>)
    requires forall k :: 0 <= k < |order| ==> 0 <= order[k] < n
    ensures |t| == n
  {
    if order == [] then seq(n, _ => 0)
    else Scatter(order[..|order| - 1], n)[order[|order| - 1] := |order| - 1]
  }

  /** With distinct indices, entry order[k] of the table is k. */
  lemma {:induction false} ScatterAt(order: seq<int>, n: nat, k: int)
    requires forall k :: 0 <= k < |order| ==> 0 <= order[k] < n
    requires forall a, b :: 0 <= a < b < |order| ==> order[a] != order[b]
    requires 0 <= k < |order|
    ensures Scatter(order, n)[order[k]] == k
  {
    var m := |order| - 1;
    if k < m {
      ScatterAt(order[..m], n, k);
      assert order[k] != order[m];
    }
  }

  /** The rank of each label when the labels are sorted by key. */
  function Ranks(keys: seq<int>): seq<int>
  {
    ArgSortFromOf(keys, |keys|);
    assert forall k :: 0 <= k < |PyArgSort(keys)| ==> PyArgSort(keys)[k] in PyArgSort(keys);
    Scatter(PyArgSort(keys), |keys|)
  }

  /** The ranks are a permutation of 0 .. n-1 that orders the labels as
      the stable sort by key does. */
  lemma RanksOf(keys: seq<int>)
    ensures var t := Ranks(keys);
      && |t| == |keys|
      && (forall a :: 0 <= a < |t| ==> 0 <= t[a] < |t|)
      && (forall v :: 0 <= v < |t| ==> v in t)
      && (forall a, b :: 0 <= a < |t| && 0 <= b < |t| ==> (t[a] < t[b] <==> KeyLess(keys, a, b)))
  {
    var order := PyArgSort(keys);
    PyArgSortOf(keys);
    ArgSortFromOf(keys, |keys|);
    var t := Ranks(keys);
    forall v | 0 <= v < |t| ensures t[order[v]] == v && v in t {
      ScatterAt(order, |keys|, v);
    }
    forall a | 0 <= a < |t| ensures 0 <= t[a] < |t| && order[t[a]] == a {
      assert a in order;
      var v :| 0 <= v < |order| && order[v] == a;
    }
    forall a, b | 0 <= a < |t| && 0 <= b < |t| ensures t[a] < t[b] <==> KeyLess(keys, a, b) {
      var ka, kb := t[a], t[b];
      if kb < ka {
        assert KeyLess(keys, order[kb], order[ka]);
      }
    }
  }

  /** Two labels compare by rank as the stable sort orders them. */
  lemma RankOrder(keys: seq<int>, a: int, b: int)
    requires 0 <= a < |keys| && 0 <= b < |keys|
    ensures |Ranks(keys)| == |keys|
    ensures Ranks(keys)[a] < Ranks(keys)[b] <==> KeyLess(keys, a, b)
  {
    RanksOf(keys);
  }

  /** The objects `find_objects` reports. */
  function Objects(img: array2<int>): (os: seq<Option<Box>>)
    reads img
    ensures |os| == LabelCount(img) && forall l :: 1 <= l <= |os| ==> os[l - 1] == LabelExtent(img, l)
  {
    seq(LabelCount(img), k reads img => LabelExtent(img, k + 1))
  }

  /** The boxes, when no label is missing. */
  function AllPresent(os: seq<Option<Box>>): (r: Option<seq<Box>>)
    ensures r.Some? <==> forall k :: 0 <= k < |os| ==> os[k].Some?
    ensures r.Some? ==> |r.value| == |os| && forall k :: 0 <= k < |os| ==> os[k] == Some(r.value[k])
  {
    if os == [] then Some([])
    else
      match AllPresent(os[..|os| - 1])
      case None => None
      case Some(bs) =>
        match os[|os| - 1]
        case None => None
        case Some(b) => Some(bs + [b])
  }

  /** Twice `xc(o)` for the background's empty slice and each object: the
      sum of the column bounds orders the objects as their mean does. */
  function XKeys(boxes: seq<Box>): (xs: seq<int>)
    ensures |xs| == |boxes| + 1 && xs[0] == 0
    ensures forall k :: 0 <= k < |boxes| ==> xs[k + 1] == boxes[k].c0 + boxes[k].c1
  {
    [0] + seq(|boxes|, k requires 0 <= k < |boxes| => boxes[k].c0 + boxes[k].c1)
  }

  /** The table `segmap` of `renumber_by_xcenter`, or the error raised
      while building it. */
  function XcenterTable(seg: array2<int>): Result<seq<int>>
    reads seg
  {
    match AllPresent(Objects(seg))
    case None => Err(TypeError)
    case Some(boxes) => RankTable(seg, boxes)
  }

  /** `segmap` once the boxes are known: `amax(seg)` fails on an empty
      image, `zeros` on a negative size, and the loop on an empty table. */
  function RankTable(seg: array2<int>, boxes: seq<Box>): Result<seq<int>>
    reads seg
  {
    if seg.Length0 == 0 || seg.Length1 == 0 then Err(ValueError)
    else if PixelMax(seg) < -1 then Err(ValueError)
    else if PixelMax(seg) == -1 then Err(IndexError)
    else Ok(Ranks(XKeys(boxes)))
  }

  /** `segmap[v]` for a pixel v, with Python's negative indices. */
  function Lookup(segmap: seq<int>, v: int): int
  {
    match PyIndex(v, |segmap|)
    case Some(k) => segmap[k]
    case None => 0
  }

  /** A non-negative largest pixel is the number of labels. */
  lemma PixelMaxCount(img: array2<int>)
    requires img.Length0 > 0 && img.Length1 > 0 && PixelMax(img) >= 0
    ensures PixelMax(img) == LabelCount(img)
  {
    var i, j :| 0 <= i < img.Length0 && 0 <= j < img.Length1 && img[i, j] == PixelMax(img);
    if LabelCount(img) > 0 {
      var i2, j2 :| At(img, i2, j2, LabelCount(img));
    }
  }

  /** The loop `for i,j in enumerate(order): segmap[j] = i` of
      `renumber_by_xcenter`, over a fresh table of n zeros. */
  method Enumerate(order: seq<int>, n: nat) returns (segmap: array<int>)
    requires forall k :: 0 <= k < |order| ==> 0 <= order[k] < n
    ensures fresh(segmap) && segmap[..] == Scatter(order, n)
  {
    segmap := new int[n](_ => 0);
    for i := 0 to |order|
      invariant segmap[..] == Scatter(order[..i], n)
    {
      assert order[..i + 1][..i] == order[..i];
      segmap[order[i]] := i;
    }
    assert order[..|order|] == order;
  }

  /** `segmap[seg]`: every pixel looked up in the table, or IndexError
      when a pixel lies outside it. */
  method Relabel(seg: array2<int>, segmap: seq<int>) returns (r: Result<array2<int>>)
    ensures r.Ok? <==> forall i, j :: 0 <= i < seg.Length0 && 0 <= j < seg.Length1 ==> -|segmap| <= seg[i, j] < |segmap|
    ensures r.Err? ==> r.error == IndexError
    ensures r.Ok? ==>
      fresh(r.value) && r.value.Length0 == seg.Length0 && r.value.Length1 == seg.Length1 &&
      forall i, j :: 0 <= i < seg.Length0 && 0 <= j < seg.Length1 ==> r.value[i, j] == Lookup(segmap, seg[i, j])
  {
    if exists i, j :: 0 <= i < seg.Length0 && 0 <= j < seg.Length1 && !(-|segmap| <= seg[i, j] < |segmap|) {
      return Err(IndexError);
    }
    var out := new int[seg.Length0, seg.Length1]((i, j) reads seg =>
      if 0 <= i < seg.Length0 && 0 <= j < seg.Length1 then Lookup(segmap, seg[i, j]) else 0);
    return Ok(out);
  }

  /** The part of `renumber_by_xcenter` that builds `segmap`. */
  method XcenterSegmap(seg: array2<int>) returns (r: Result<seq<int>>)
    ensures r == XcenterTable(seg)
  {
    var objects := FindObjects(seg);
    assert objects == Objects(seg);
    var present := AllPresent(objects);
    if present.None? {
      return Err(TypeError);
    }
    r := RankSegmap(seg, present.value);
  }

  /** The sort and the loop of `renumber_by_xcenter`. */
  method RankSegmap(seg: array2<int>, boxes: seq<Box>) returns (r: Result<seq<int>>)
    requires |boxes| == LabelCount(seg)
    ensures r == RankTable(seg, boxes)
  {
    var xs := XKeys(boxes);
    var order := PyArgSort(xs);
    ArgSortFromOf(xs, |xs|);
    if seg.Length0 == 0 || seg.Length1 == 0 {
      return Err(ValueError);
    }
    var top := PixelMax(seg);
    if top + 1 < 0 {
      return Err(ValueError);
    }
    if top + 1 == 0 {
      return Err(IndexError);
    }
    PixelMaxCount(seg);
    assert forall k :: 0 <= k < |order| ==> order[k] in order;
    var segmap := Enumerate(order, top + 1);
    return Ok(segmap[..]);
  }

  /** `renumber_by_xcenter`: every label is replaced by its rank by box
      x-centre, the background first. */
  method RenumberByXcenter(seg: array2<int>) returns (r: Result<array2<int>>)
    ensures XcenterTable(seg).Err? ==> r == Err(XcenterTable(seg).error)
    ensures XcenterTable(seg).Ok? ==>
      var segmap := XcenterTable(seg).value;
      && (r.Ok? <==> forall i, j :: 0 <= i < seg.Length0 && 0 <= j < seg.Length1 ==> -|segmap| <= seg[i, j] < |segmap|)
      && (r.Err? ==> r.error == IndexError)
      && (r.Ok? ==>
            fresh(r.value) && r.value.Length0 == seg.Length0 && r.value.Length1 == seg.Length1 &&
            forall i, j :: 0 <= i < seg.Length0 && 0 <= j < seg.Length1 ==>
              r.value[i, j] == Lookup(segmap, seg[i, j]))
  {
    var table := XcenterSegmap(seg);
    if table.Err? {
      return Err(table.error);
    }
    r := Relabel(seg, table.value);
  }

  /** The table is a permutation of the labels 0 .. N. */
  lemma XcenterPermutation(seg: array2<int>)
    requires XcenterTable(seg).Ok?
    ensures var segmap := XcenterTable(seg).value;
      var n := LabelCount(seg);
      && |segmap| == n + 1
      && (forall a :: 0 <= a <= n ==> 0 <= segmap[a] <= n)
      && (forall v :: 0 <= v <= n ==> v in segmap)
  {
    RanksOf(XKeys(AllPresent(Objects(seg)).value));
  }

  /** The table ranks labels 1 .. N by the x-centre of their boxes, ties
      by label. */
  lemma XcenterOrder(seg: array2<int>, a: int, b: int)
    requires XcenterTable(seg).Ok? && 1 <= a <= LabelCount(seg) && 1 <= b <= LabelCount(seg)
    ensures var segmap := XcenterTable(seg).value;
      var ba, bb := LabelExtent(seg, a).value, LabelExtent(seg, b).value;
      segmap[a] < segmap[b] <==> ba.c0 + ba.c1 < bb.c0 + bb.c1 || (ba.c0 + ba.c1 == bb.c0 + bb.c1 && a < b)
  {
    var boxes := AllPresent(Objects(seg)).value;
    var xs := XKeys(boxes);
    RankOrder(xs, a, b);
    assert xs[a] == boxes[a - 1].c0 + boxes[a - 1].c1 && xs[b] == boxes[b - 1].c0 + boxes[b - 1].c1;
    assert boxes[a - 1] == LabelExtent(seg, a).value && boxes[b - 1] == LabelExtent(seg, b).value;
  }

  /** The table sends the background to 0: every object box has a
      positive column sum. */
  lemma XcenterBackground(seg: array2<int>)
    requires XcenterTable(seg).Ok?
    ensures XcenterTable(seg).value[0] == 0
  {
    var boxes := AllPresent(Objects(seg)).value;
    var xs := XKeys(boxes);
    assert XcenterTable(seg).value == Ranks(xs);
    var n := LabelCount(seg);
    forall a | 1 <= a < |xs| ensures xs[a] >= 1 {
      LabelExtentTight(seg, a);
      var b := boxes[a - 1];
      var i :| At(seg, i, b.c0, a);
    }
    RankOfLeast(xs);
  }

  /** A key 0 below all the other keys gets rank 0. */
  lemma RankOfLeast(xs: seq<int>)
    requires |xs| >= 1 && xs[0] == 0
    requires forall a :: 1 <= a < |xs| ==> xs[a] >= 1
    ensures Ranks(xs)[0] == 0
  {
    var segmap := Ranks(xs);
    RanksOf(xs);
    forall a | 1 <= a < |xs| ensures segmap[0] < segmap[a] {
      assert KeyLess(xs, 0, a);
    }
    assert 0 in segmap;
  }
}
