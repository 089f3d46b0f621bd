/** Candidate groups of a line segmentation: runs of 1 .. maxrange
    consecutive component labels, filtered by the gap, aspect and width rules
    of `Grouper.setSegmentation` (ocrolib/grouper.py). Label l (1-based) has
    the box `boxes[l-1]`, so the labels are 1 .. |boxes|. */
module Grouping {
  import opened Wrappers
  import opened Boxes
  import opened Sorting
  import opened Text

  /** A group: its bounding box and its component labels. */
  datatype Group = Group(box: Box, labels: seq<int>)

  /** A classification hypothesis of a group: its cost and its class text. */
  datatype Hyp = Hyp(cost: Cost, cls: Text)

  /** A space cost pair: the cost of a space after the group, and of none. */
  datatype SpaceCost = SpaceCost(yes: Cost, no: Cost)

  /** The Grouper's lattice data: group i has hypotheses costs[i] and space costs spaceCosts[i]. */
  datatype Store = Store(groups: seq<Group>, costs: seq<seq<Hyp>>, spaceCosts: seq<SpaceCost>)

  /** The three lists are parallel, as every Grouper operation keeps them. */
  predicate Parallel(st: Store)
  {
    |st.costs| == |st.groups| && |st.spaceCosts| == |st.groups|
  }

  datatype Params = Params(maxrange: nat, maxdist: int, maxaspect: real, maxwidth: real)

  /** The defaults set by the Grouper's constructor. */
  const Defaults := Params(4, 2, 2.5, 2.5)

  /** `range(a, b)` */
  function Range(a: int, b: int): (s: seq<int>)
    requires a <= b
    ensures |s| == b - a && forall k :: 0 <= k < |s| ==> s[k] == a + k
  {
    seq(b - a, k => a + k)
  }

  /** The labels are `[l, l+1, ..., l+len-1]` for some l >= 1 with l+len-1 <= n. */
  predicate Contiguous(labels: seq<int>, n: int)
  {
    |labels| >= 1 && labels[0] >= 1 && labels[0] + |labels| - 1 <= n &&
    forall k :: 0 <= k < |labels| ==> labels[k] == labels[0] + k
  }

  /** How many labels of the run starting at i of up to r labels exist. */
  function Avail(n: nat, i: int, r: nat): nat
    requires 1 <= i <= n
  {
    if r <= n - i + 1 then r else n - i + 1
  }

  /** The union of the boxes of labels i .. i+m-1. */
  function SpanBox(boxes: seq<Box>, i: int, m: nat): Box
    requires 1 <= i && 1 <= m && i + m - 1 <= |boxes|
  {
    if m == 1 then boxes[i - 1] else Union(SpanBox(boxes, i, m - 1), boxes[i + m - 2])
  }

  /** The largest gap between a box and the union of the boxes before it in the run. */
  function SpanGap(boxes: seq<Box>, i: int, m: nat): (g: int)
    requires 1 <= i && 1 <= m && i + m - 1 <= |boxes|
    ensures g >= 0
  {
    if m == 1 then 0
    else
      var g := SpanGap(boxes, i, m - 1);
      var d := boxes[i + m - 2].c0 - SpanBox(boxes, i, m - 1).c1;
      if d > g then d else g
  }

  /** The group of the run starting at label i of up to r labels. */
  function Candidate(boxes: seq<Box>, i: int, r: nat): (g: Group)
    requires 1 <= i <= |boxes| && r >= 1
    ensures Key(g) == (i, Avail(|boxes|, i, r)) && Contiguous(g.labels, |boxes|)
  {
    var m := Avail(|boxes|, i, r);
    Group(SpanBox(boxes, i, m), Range(i, i + m))
  }

  /** Whether run (i, r) is kept; dividing by a zero aspect raises. */
  function Keep(boxes: seq<Box>, p: Params, aspect: Box -> real, i: int, r: nat): Result<bool>
    requires 1 <= i <= |boxes| && r >= 1
  {
    var m := Avail(|boxes|, i, r);
    if r == 1 then Ok(true)
    else if m != r then Ok(false)
    else if SpanGap(boxes, i, m) > p.maxdist then Ok(false)
    else
      var a := aspect(SpanBox(boxes, i, m));
      if a == 0.0 then Err(ZeroDivisionError) else Ok(!(1.0 / a > p.maxaspect))
  }

  /** The groups kept for start label i and lengths 1 .. r. */
  function Row(boxes: seq<Box>, p: Params, aspect: Box -> real, i: int, r: nat): Result<seq<Group>>
    requires 1 <= i <= |boxes|
  {
    if r == 0 then Ok([])
    else
      var prev :- Row(boxes, p, aspect, i, r - 1);
      var keep :- Keep(boxes, p, aspect, i, r);
      Ok(if keep then prev + [Candidate(boxes, i, r)] else prev)
  }

  /** The groups kept for start labels 1 .. i-1. */
  function Rows(boxes: seq<Box>, p: Params, aspect: Box -> real, i: int): Result<seq<Group>>
    requires 1 <= i <= |boxes| + 1
    decreases i
  {
    if i == 1 then Ok([])
    else
      var prev :- Rows(boxes, p, aspect, i - 1);
      var row :- Row(boxes, p, aspect, i - 1, p.maxrange);
      Ok(prev + row)
  }

  /** All candidates, before the width filter. */
  function Candidates(boxes: seq<Box>, p: Params, aspect: Box -> real): Result<seq<Group>>
  {
    Rows(boxes, p, aspect, |boxes| + 1)
  }

  function Heights(gs: seq<Group>): (h: seq<int>)
    ensures |h| == |gs| && forall k :: 0 <= k < |gs| ==> h[k] == Dim0(gs[k].box)
  {
    if gs == [] then [] else Heights(gs[..|gs| - 1]) + [Dim0(gs[|gs| - 1].box)]
  }

  /** A multi-label group survives when its width is below maxwidth times mw. */
  predicate NarrowEnough(g: Group, p: Params, mw: real)
  {
    |g.labels| == 1 || (Dim1(g.box) as real) < p.maxwidth * mw
  }

  function Filter(gs: seq<Group>, p: Params, mw: real): (r: seq<Group>)
    ensures forall g :: g in r <==> g in gs && NarrowEnough(g, p, mw)
    ensures Subsequence(r, gs)
  {
    if gs == [] then []
    else
      var t := Filter(gs[..|gs| - 1], p, mw);
      assert gs == gs[..|gs| - 1] + [gs[|gs| - 1]];
      if NarrowEnough(gs[|gs| - 1], p, mw) then t + [gs[|gs| - 1]] else t
  }

  /** The median height of all candidates; none when there are no candidates. */
  function MedianHeight(gs: seq<Group>): real
  {
    if gs == [] then 0.0 else Median(Heights(gs))
  }

  /** The groups `setSegmentation` keeps. */
  function Groups(boxes: seq<Box>, p: Params, aspect: Box -> real): Result<seq<Group>>
  {
    var gs :- Candidates(boxes, p, aspect);
    Ok(Filter(gs, p, MedianHeight(gs)))
  }

  // ---------------------------------------------------------------
  // Properties
  // ---------------------------------------------------------------

  /** What identifies a run: its first label and its length. */
  function Key(g: Group): (int, int)
  {
    (if g.labels == [] then 0 else g.labels[0], |g.labels|)
  }

  function Keys(gs: seq<Group>): (k: seq<(int, int)>)
    ensures |k| == |gs| && forall j :: 0 <= j < |gs| ==> k[j] == Key(gs[j])
  {
    seq(|gs|, j requires 0 <= j < |gs| => Key(gs[j]))
  }

  /** Every group is a run of contiguous labels of length at most maxrange,
      whose box is the union of its labels' boxes. */
  predicate Shaped(gs: seq<Group>, boxes: seq<Box>, maxrange: nat)
  {
    forall g :: g in gs ==>
      Contiguous(g.labels, |boxes|) && |g.labels| <= maxrange &&
      g.box == SpanBox(boxes, g.labels[0], |g.labels|)
  }

  lemma KeysAppend(gs: seq<Group>, g: Group)
    ensures Keys(gs + [g]) == Keys(gs) + [Key(g)]
  {
  }

  lemma {:induction false} RowShape(boxes: seq<Box>, p: Params, aspect: Box -> real, i: int, r: nat, gs: seq<Group>)
    requires 1 <= i <= |boxes|
    requires Row(boxes, p, aspect, i, r) == Ok(gs)
    ensures Shaped(gs, boxes, r)
  {
    if r > 0 {
      var prev := Row(boxes, p, aspect, i, r - 1).value;
      RowShape(boxes, p, aspect, i, r - 1, prev);
      var keep := Keep(boxes, p, aspect, i, r).value;
      if keep {
        var c := Candidate(boxes, i, r);
        assert |c.labels| == r;
        assert gs == prev + [c];
      } else {
        assert gs == prev;
      }
    }
  }

  /** The runs kept for start label i start at i and are 1 .. r labels long. */
  lemma {:induction false} RowKeyRange(boxes: seq<Box>, p: Params, aspect: Box -> real, i: int, r: nat, gs: seq<Group>)
    requires 1 <= i <= |boxes|
    requires Row(boxes, p, aspect, i, r) == Ok(gs)
    ensures forall g :: g in gs ==> Key(g).0 == i && 1 <= Key(g).1 <= r
  {
    if r > 0 {
      var prev := Row(boxes, p, aspect, i, r - 1).value;
      RowKeyRange(boxes, p, aspect, i, r - 1, prev);
      var keep := Keep(boxes, p, aspect, i, r).value;
      if keep {
        var c := Candidate(boxes, i, r);
        assert |c.labels| == r;
        assert gs == prev + [c];
      } else {
        assert gs == prev;
      }
    }
  }

  lemma {:induction false} RowSorted(boxes: seq<Box>, p: Params, aspect: Box -> real, i: int, r: nat, gs: seq<Group>)
    requires 1 <= i <= |boxes|
    requires Row(boxes, p, aspect, i, r) == Ok(gs)
    ensures StrictlySorted(Keys(gs), PairLess)
  {
    if r > 0 {
      var prev := Row(boxes, p, aspect, i, r - 1).value;
      RowSorted(boxes, p, aspect, i, r - 1, prev);
      RowKeyRange(boxes, p, aspect, i, r - 1, prev);
      var keep := Keep(boxes, p, aspect, i, r).value;
      if keep {
        var c := Candidate(boxes, i, r);
        assert Avail(|boxes|, i, r) == r;
        assert gs == prev + [c];
        KeysAppend(prev, c);
        forall k | 0 <= k < |prev| ensures PairLess(Keys(prev)[k], (i, r)) {
          assert prev[k] in prev;
        }
      } else {
        assert gs == prev;
      }
    }
  }

  lemma {:induction false} RowKeys(boxes: seq<Box>, p: Params, aspect: Box -> real, i: int, r: nat, gs: seq<Group>)
    requires 1 <= i <= |boxes|
    requires Row(boxes, p, aspect, i, r) == Ok(gs)
    ensures forall q :: (i, q) in Keys(gs) <==> 1 <= q <= r && Keep(boxes, p, aspect, i, q) == Ok(true)
  {
    if r > 0 {
      var prev := Row(boxes, p, aspect, i, r - 1).value;
      RowKeys(boxes, p, aspect, i, r - 1, prev);
      RowKeyRange(boxes, p, aspect, i, r - 1, prev);
      var ks := Keys(prev);
      assert forall q :: (i, q) in ks ==> q <= r - 1 by {
        forall q | (i, q) in ks ensures q <= r - 1 {
          var k :| 0 <= k < |prev| && ks[k] == (i, q);
          assert prev[k] in prev;
        }
      }
      var keep := Keep(boxes, p, aspect, i, r).value;
      if keep {
        var c := Candidate(boxes, i, r);
        assert Avail(|boxes|, i, r) == r;
        assert gs == prev + [c];
        KeysAppend(prev, c);
        assert forall q :: (i, q) in Keys(gs) <==> (i, q) in ks || q == r;
      } else {
        assert gs == prev;
      }
    }
  }

  lemma SortedConcat(a: seq<(int, int)>, b: seq<(int, int)>, c: int)
    requires StrictlySorted(a, PairLess) && StrictlySorted(b, PairLess)
    requires forall k :: 0 <= k < |a| ==> a[k].0 < c
    requires forall k :: 0 <= k < |b| ==> b[k].0 == c
    ensures StrictlySorted(a + b, PairLess)
  {
    forall x, y | 0 <= x < y < |a + b| ensures PairLess((a + b)[x], (a + b)[y]) {
      if y < |a| {
        assert (a + b)[x] == a[x] && (a + b)[y] == a[y];
      } else if x >= |a| {
        assert (a + b)[x] == b[x - |a|] && (a + b)[y] == b[y - |a|];
      } else {
        assert (a + b)[x] == a[x] && (a + b)[y] == b[y - |a|];
      }
    }
  }

  lemma {:induction false} RowsShaped(boxes: seq<Box>, p: Params, aspect: Box -> real, i: int, gs: seq<Group>)
    requires 1 <= i <= |boxes| + 1
    requires Rows(boxes, p, aspect, i) == Ok(gs)
    ensures Shaped(gs, boxes, p.maxrange)
    decreases i
  {
    if i > 1 {
      var prev := Rows(boxes, p, aspect, i - 1).value;
      RowsShaped(boxes, p, aspect, i - 1, prev);
      var row := Row(boxes, p, aspect, i - 1, p.maxrange).value;
      RowShape(boxes, p, aspect, i - 1, p.maxrange, row);
      assert gs == prev + row;
      forall g | g in gs ensures g in prev || g in row { }
    }
  }

  lemma {:induction false} RowsBelow(boxes: seq<Box>, p: Params, aspect: Box -> real, i: int, gs: seq<Group>)
    requires 1 <= i <= |boxes| + 1
    requires Rows(boxes, p, aspect, i) == Ok(gs)
    ensures forall g :: g in gs ==> Key(g).0 < i
    decreases i
  {
    if i > 1 {
      var prev := Rows(boxes, p, aspect, i - 1).value;
      RowsBelow(boxes, p, aspect, i - 1, prev);
      var row := Row(boxes, p, aspect, i - 1, p.maxrange).value;
      RowKeyRange(boxes, p, aspect, i - 1, p.maxrange, row);
      assert gs == prev + row;
      forall g | g in gs ensures Key(g).0 < i { assert g in prev || g in row; }
    }
  }

  lemma {:induction false} RowsSorted(boxes: seq<Box>, p: Params, aspect: Box -> real, i: int, gs: seq<Group>)
    requires 1 <= i <= |boxes| + 1
    requires Rows(boxes, p, aspect, i) == Ok(gs)
    ensures StrictlySorted(Keys(gs), PairLess)
    decreases i
  {
    if i > 1 {
      var prev := Rows(boxes, p, aspect, i - 1).value;
      RowsSorted(boxes, p, aspect, i - 1, prev);
      RowsBelow(boxes, p, aspect, i - 1, prev);
      var row := Row(boxes, p, aspect, i - 1, p.maxrange).value;
      RowKeyRange(boxes, p, aspect, i - 1, p.maxrange, row);
      RowSorted(boxes, p, aspect, i - 1, p.maxrange, row);
      assert gs == prev + row;
      KeysConcat(prev, row);
      KeysStartBelow(prev, i - 1);
      KeysStartAt(row, i - 1);
      SortedConcat(Keys(prev), Keys(row), i - 1);
    }
  }

  lemma KeysConcat(a: seq<Group>, b: seq<Group>)
    ensures Keys(a + b) == Keys(a) + Keys(b)
  {
  }

  lemma KeysStartBelow(gs: seq<Group>, c: int)
    requires forall g :: g in gs ==> Key(g).0 < c
    ensures forall k :: 0 <= k < |Keys(gs)| ==> Keys(gs)[k].0 < c
  {
    forall k | 0 <= k < |gs| ensures Keys(gs)[k].0 < c { assert gs[k] in gs; }
  }

  lemma KeysStartAt(gs: seq<Group>, c: int)
    requires forall g :: g in gs ==> Key(g).0 == c
    ensures forall k :: 0 <= k < |Keys(gs)| ==> Keys(gs)[k].0 == c
  {
    forall k | 0 <= k < |gs| ensures Keys(gs)[k].0 == c { assert gs[k] in gs; }
  }

  lemma {:induction false} RowsKeys(boxes: seq<Box>, p: Params, aspect: Box -> real, i: int, gs: seq<Group>)
    requires 1 <= i <= |boxes| + 1
    requires Rows(boxes, p, aspect, i) == Ok(gs)
    ensures forall s, q :: (s, q) in Keys(gs) <==>
      1 <= s < i && 1 <= q <= p.maxrange && Keep(boxes, p, aspect, s, q) == Ok(true)
    decreases i
  {
    if i > 1 {
      var prev := Rows(boxes, p, aspect, i - 1).value;
      RowsKeys(boxes, p, aspect, i - 1, prev);
      var row := Row(boxes, p, aspect, i - 1, p.maxrange).value;
      RowKeyRange(boxes, p, aspect, i - 1, p.maxrange, row);
      RowKeys(boxes, p, aspect, i - 1, p.maxrange, row);
      assert gs == prev + row;
      KeysOfConcat(prev, row, i - 1);
    }
  }

  lemma KeysOfConcat(prev: seq<Group>, row: seq<Group>, c: int)
    requires forall g :: g in row ==> Key(g).0 == c
    ensures forall s, q :: (s, q) in Keys(prev + row) <==>
      (s, q) in Keys(prev) || (s == c && (c, q) in Keys(row))
  {
    assert Keys(prev + row) == Keys(prev) + Keys(row);
    forall s, q | (s, q) in Keys(row) ensures s == c {
      var k :| 0 <= k < |row| && Keys(row)[k] == (s, q);
      assert row[k] in row;
    }
  }

  /** The candidates come in order of (start label, length), and the run
      (i, r) is among them exactly when `Keep` accepts it. */
  lemma CandidatesProps(boxes: seq<Box>, p: Params, aspect: Box -> real, gs: seq<Group>)
    requires Candidates(boxes, p, aspect) == Ok(gs)
    ensures Shaped(gs, boxes, p.maxrange)
    ensures StrictlySorted(Keys(gs), PairLess)
    ensures forall i, r :: (i, r) in Keys(gs) <==>
      1 <= i <= |boxes| && 1 <= r <= p.maxrange && Keep(boxes, p, aspect, i, r) == Ok(true)
  {
    RowsShaped(boxes, p, aspect, |boxes| + 1, gs);
    RowsSorted(boxes, p, aspect, |boxes| + 1, gs);
    RowsKeys(boxes, p, aspect, |boxes| + 1, gs);
  }

  /** Every single label is a candidate, whatever the parameters. */
  lemma SinglesKept(boxes: seq<Box>, p: Params, aspect: Box -> real, gs: seq<Group>, i: int)
    requires Candidates(boxes, p, aspect) == Ok(gs)
    requires 1 <= i <= |boxes| && p.maxrange >= 1
    ensures Group(boxes[i - 1], [i]) in gs
  {
    CandidatesProps(boxes, p, aspect, gs);
    assert (i, 1) in Keys(gs);
    var k :| 0 <= k < |gs| && Keys(gs)[k] == (i, 1);
    assert gs[k].labels == [gs[k].labels[0]];
  }

  /** After the width filter, a group is kept exactly when it is a candidate
      and it is a single label or narrower than maxwidth times the median height. */
  lemma GroupsProps(boxes: seq<Box>, p: Params, aspect: Box -> real, gs: seq<Group>, cands: seq<Group>)
    requires Candidates(boxes, p, aspect) == Ok(cands)
    requires Groups(boxes, p, aspect) == Ok(gs)
    ensures Shaped(gs, boxes, p.maxrange)
    ensures forall g :: g in gs <==> g in cands && NarrowEnough(g, p, MedianHeight(cands))
    ensures forall g :: g in cands && |g.labels| == 1 ==> g in gs
    ensures Subsequence(gs, cands) && StrictlySorted(Keys(gs), PairLess)
  {
    CandidatesProps(boxes, p, aspect, cands);
    SubsequenceKeys(gs, cands);
  }

  /** Leaving groups out keeps the (start, length) order of the rest. */
  lemma {:induction false} SubsequenceKeys(r: seq<Group>, gs: seq<Group>)
    requires Subsequence(r, gs) && StrictlySorted(Keys(gs), PairLess)
    ensures StrictlySorted(Keys(r), PairLess)
    ensures forall g :: g in r ==> g in gs
    decreases |gs|
  {
    if gs != [] {
      var gs' := gs[..|gs| - 1];
      assert StrictlySorted(Keys(gs'), PairLess) by {
        forall i, j | 0 <= i < j < |gs'| ensures PairLess(Keys(gs')[i], Keys(gs')[j]) {
          assert Keys(gs)[i] == Keys(gs')[i] && Keys(gs)[j] == Keys(gs')[j];
        }
      }
      if r != [] && r[|r| - 1] == gs[|gs| - 1] && Subsequence(r[..|r| - 1], gs') {
        var r' := r[..|r| - 1];
        SubsequenceKeys(r', gs');
        forall i, j | 0 <= i < j < |r| ensures PairLess(Keys(r)[i], Keys(r)[j]) {
          if j < |r| - 1 {
            assert Keys(r)[i] == Keys(r')[i] && Keys(r)[j] == Keys(r')[j];
          } else {
            assert r[i] == r'[i] && r'[i] in gs';
            var a :| 0 <= a < |gs'| && gs'[a] == r[i];
            assert Keys(gs)[a] == Keys(r)[i] && Keys(gs)[|gs| - 1] == Keys(r)[j];
          }
        }
        forall g | g in r ensures g in gs {
          if g != r[|r| - 1] {
            assert g in r';
          }
        }
      } else {
        SubsequenceKeys(r, gs');
      }
    }
  }

  /** Once a row raises, the longer rows raise the same way. */
  lemma {:induction false} RowErrStays(boxes: seq<Box>, p: Params, aspect: Box -> real, i: int, r: nat, r2: nat)
    requires 1 <= i <= |boxes| && r <= r2
    requires Row(boxes, p, aspect, i, r).Err?
    ensures Row(boxes, p, aspect, i, r2) == Row(boxes, p, aspect, i, r)
    decreases r2
  {
    if r2 > r {
      RowErrStays(boxes, p, aspect, i, r, r2 - 1);
    }
  }

  /** Once the rows before label i raise, the rows before every later label raise the same way. */
  lemma {:induction false} RowsErrStays(boxes: seq<Box>, p: Params, aspect: Box -> real, i: int, i2: int)
    requires 1 <= i <= i2 <= |boxes| + 1
    requires Rows(boxes, p, aspect, i).Err?
    ensures Rows(boxes, p, aspect, i2) == Rows(boxes, p, aspect, i)
    decreases i2
  {
    if i2 > i {
      RowsErrStays(boxes, p, aspect, i, i2 - 1);
    }
  }
}
