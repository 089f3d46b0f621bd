/** `compute_alignment` of ocrolib/common.py after the beam search: the
    decoder's input labels `ins` (packed (start << 16) + end segment ids),
    output codes `outs` and step costs are merged into tokens, one per run
    of a non-epsilon output followed by epsilon outputs; a label -> token
    table `rmap` is painted from the tokens' segments, and every pixel of
    the raw segmentation is remapped through it. */
module OcrolibAlign {
  import opened Wrappers
  import opened Text
  import opened PyOps
  import opened Boxes
  import opened SegMaps

  /** `lig.chr`: the text of a code, where the ligature table has one;
      for any other code `lig.chr` gives None, and joining it raises
      TypeError. */
  type LigChr = map<int, Text>

  /** One merged output element: its text, its cost and its (start, end)
      segment range. */
  datatype Token = Token(text: Text, cost: Cost, seg: (int, int))

  // ---------------------------------------------------------------
  // runs
  // ---------------------------------------------------------------

  /** The end of the run starting at i: the first later entry whose output
      is not epsilon, or the end of the arrays. */
  function RunEnd(outs: seq<int>, i: nat): (j: nat)
    requires i < |outs|
    ensures i < j <= |outs|
    ensures forall k :: i < k < j ==> outs[k] == 0
    ensures j < |outs| ==> outs[j] != 0
    decreases |outs| - i
  {
    if i + 1 == |outs| || outs[i + 1] != 0 then i + 1 else RunEnd(outs, i + 1)
  }

  /** The segment range of the run [i, j): the range of entry i, widened to
      the start and end of every later entry of the run with a nonzero
      input label. */
  function RunSeg(ins: seq<int>, i: nat, j: nat): (int, int)
    requires i < j <= |ins|
    decreases j - i
  {
    if j == i + 1 then (Shr16(ins[i]), Low16(ins[i]))
    else
      var p := RunSeg(ins, i, j - 1);
      if ins[j - 1] != 0 then (Min(p.0, Shr16(ins[j - 1])), Max(p.1, Low16(ins[j - 1]))) else p
  }

  /** A run's segment range is the smallest range holding the ranges of
      its leading entry and of every later entry with a nonzero label. */
  lemma {:induction false} RunSegBounds(ins: seq<int>, i: nat, j: nat)
    requires i < j <= |ins|
    ensures RunSeg(ins, i, j).0 <= Shr16(ins[i]) && Low16(ins[i]) <= RunSeg(ins, i, j).1
    ensures forall k :: i < k < j && ins[k] != 0 ==> RunSeg(ins, i, j).0 <= Shr16(ins[k]) && Low16(ins[k]) <= RunSeg(ins, i, j).1
    ensures RunSeg(ins, i, j).0 == Shr16(ins[i]) || exists k :: i < k < j && ins[k] != 0 && RunSeg(ins, i, j).0 == Shr16(ins[k])
    ensures RunSeg(ins, i, j).1 == Low16(ins[i]) || exists k :: i < k < j && ins[k] != 0 && RunSeg(ins, i, j).1 == Low16(ins[k])
    decreases j - i
  {
    if j > i + 1 {
      RunSegBounds(ins, i, j - 1);
    }
  }

  /** The runs from i on, in order. */
  function Runs(outs: seq<int>, i: nat): (rs: seq<(nat, nat)>)
    requires i <= |outs|
    ensures RunsIn(rs, |outs|)
    decreases |outs| - i
  {
    if i == |outs| then [] else [(i, RunEnd(outs, i))] + Runs(outs, RunEnd(outs, i))
  }

  /** rs cuts [lo, hi) into consecutive non-empty pieces. */
  predicate Tiling(rs: seq<(nat, nat)>, lo: nat, hi: nat)
    decreases |rs|
  {
    if rs == [] then lo == hi else rs[0].0 == lo < rs[0].1 && Tiling(rs[1..], rs[0].1, hi)
  }

  /** The runs tile the arrays, each is one non-epsilon entry followed by
      epsilon entries only, and the next run starts with a non-epsilon entry. */
  lemma {:induction false} RunsTile(outs: seq<int>, i: nat)
    requires i <= |outs|
    ensures Tiling(Runs(outs, i), i, |outs|)
    ensures forall t :: 0 <= t < |Runs(outs, i)| ==> Runs(outs, i)[t].1 == RunEnd(outs, Runs(outs, i)[t].0)
    decreases |outs| - i
  {
    if i < |outs| {
      var j := RunEnd(outs, i);
      RunsTile(outs, j);
      assert Runs(outs, i)[1..] == Runs(outs, j);
    }
  }

  /** The piece of a tiling that holds position k. */
  function PieceAt(rs: seq<(nat, nat)>, lo: nat, hi: nat, k: nat): (t: nat)
    requires Tiling(rs, lo, hi) && lo <= k < hi
    ensures t < |rs| && rs[t].0 <= k < rs[t].1
    decreases |rs|
  {
    if k < rs[0].1 then 0 else 1 + PieceAt(rs[1..], rs[0].1, hi, k)
  }

  /** The pieces of a tiling lie inside [lo, hi), in order, without overlap. */
  lemma {:induction false} TilingOrdered(rs: seq<(nat, nat)>, lo: nat, hi: nat)
    requires Tiling(rs, lo, hi)
    ensures lo <= hi
    ensures forall t, u :: 0 <= t < u < |rs| ==> rs[t].1 <= rs[u].0
    ensures forall t :: 0 <= t < |rs| ==> lo <= rs[t].0 < rs[t].1 <= hi
    decreases |rs|
  {
    if rs != [] {
      var rest := rs[1..];
      TilingOrdered(rest, rs[0].1, hi);
      assert forall t :: 1 <= t < |rs| ==> rs[t] == rest[t - 1];
    }
  }

  /** Every run but the first starts with a non-epsilon output. */
  lemma {:induction false} RunHeads(outs: seq<int>, i: nat)
    requires i <= |outs|
    ensures forall t :: 0 <= t < |Runs(outs, i)| ==> Runs(outs, i)[t].0 == i || outs[Runs(outs, i)[t].0] != 0
    decreases |outs| - i
  {
    if i < |outs| {
      var j := RunEnd(outs, i);
      RunHeads(outs, j);
      assert Runs(outs, i)[1..] == Runs(outs, j);
    }
  }

  /** The decoder output [65, 0, 66, 0] ("A", epsilon, "B", epsilon) has
      two runs, so it gives two tokens. */
  lemma TwoRunsExample()
    ensures Runs([65, 0, 66, 0], 0) == [(0, 2), (2, 4)]
  {
    var outs := [65, 0, 66, 0];
    assert RunEnd(outs, 0) == 2;
    assert RunEnd(outs, 2) == 4;
    assert Runs(outs, 4) == [];
  }

  // ---------------------------------------------------------------
  // tokens
  // ---------------------------------------------------------------

  /** Every run is a run of the arrays. */
  predicate RunsIn(rs: seq<(nat, nat)>, n: nat)
  {
    forall t :: 0 <= t < |rs| ==> rs[t].0 < rs[t].1 <= n
  }

  /** The token of run r: since the inner loop only runs over epsilon
      outputs, its `cls.append` never happens, and the text is that of the
      leading entry alone; the cost is `sum(costs[i:j])`. */
  function TokenOf(ins: seq<int>, outs: seq<int>, costs: seq<Cost>, chr: LigChr, r: (nat, nat)): Result<Token>
    requires r.0 < r.1 <= |ins| == |outs|
  {
    if outs[r.0] !in chr then Err(TypeError)
    else Ok(Token(chr[outs[r.0]], Sum(Slice(costs, r.0, r.1)), RunSeg(ins, r.0, r.1)))
  }

  /** The merge loop over the runs rs: each run's token is appended when
      its text is not empty; the first unknown code fails. */
  function Toks(ins: seq<int>, outs: seq<int>, costs: seq<Cost>, chr: LigChr, rs: seq<(nat, nat)>): Result<seq<Token>>
    requires |ins| == |outs| && RunsIn(rs, |outs|)
  {
    if rs == [] then Ok([])
    else MergeStep(Toks(ins, outs, costs, chr, rs[..|rs| - 1]), TokenOf(ins, outs, costs, chr, rs[|rs| - 1]))
  }

  /** One iteration of the merge: an earlier failure stays, a failed
      lookup fails, an empty text is dropped, and any other token is appended. */
  function MergeStep(acc: Result<seq<Token>>, tok: Result<Token>): Result<seq<Token>>
  {
    if acc.Err? then acc
    else if tok.Err? then Err(tok.error)
    else if tok.value.text == [] then acc
    else Ok(acc.value + [tok.value])
  }

  /** The tokens of all runs, dropped or not, when every code is known. */
  function AllTokens(ins: seq<int>, outs: seq<int>, costs: seq<Cost>, chr: LigChr, rs: seq<(nat, nat)>): (ts: seq<Token>)
    requires |ins| == |outs| && RunsIn(rs, |outs|) && Known(outs, chr, rs)
    ensures |ts| == |rs|
    ensures forall t :: 0 <= t < |rs| ==> ts[t] == TokenOf(ins, outs, costs, chr, rs[t]).value
  {
    if rs == [] then []
    else
      assert Known(outs, chr, rs[..|rs| - 1]);
      AllTokens(ins, outs, costs, chr, rs[..|rs| - 1]) + [TokenOf(ins, outs, costs, chr, rs[|rs| - 1]).value]
  }

  /** The tokens with a non-empty text, in order. */
  function DropEmpty(ts: seq<Token>): (r: seq<Token>)
    ensures |r| <= |ts|
    ensures forall k :: 0 <= k < |r| ==> r[k].text != []
  {
    if ts == [] then []
    else if ts[0].text == [] then DropEmpty(ts[1..])
    else [ts[0]] + DropEmpty(ts[1..])
  }

  lemma {:induction false} DropEmptyAppend(ts: seq<Token>, t: Token)
    ensures t.text == [] ==> DropEmpty(ts + [t]) == DropEmpty(ts)
    ensures t.text != [] ==> DropEmpty(ts + [t]) == DropEmpty(ts) + [t]
    decreases |ts|
  {
    if ts == [] {
      assert [t][1..] == [];
    } else {
      assert (ts + [t])[1..] == ts[1..] + [t];
      DropEmptyAppend(ts[1..], t);
    }
  }

  /** Every run's leading code has an entry in the ligature table. */
  predicate Known(outs: seq<int>, chr: LigChr, rs: seq<(nat, nat)>)
    requires RunsIn(rs, |outs|)
  {
    forall t :: 0 <= t < |rs| ==> outs[rs[t].0] in chr
  }

  /** The merge fails, with TypeError, exactly when some run's leading
      code is unknown. */
  lemma {:induction false} ToksFails(ins: seq<int>, outs: seq<int>, costs: seq<Cost>, chr: LigChr, rs: seq<(nat, nat)>)
    requires |ins| == |outs| && RunsIn(rs, |outs|)
    ensures Toks(ins, outs, costs, chr, rs).Err? <==> !Known(outs, chr, rs)
    ensures Toks(ins, outs, costs, chr, rs).Err? ==> Toks(ins, outs, costs, chr, rs).error == TypeError
  {
    if rs != [] {
      var q := rs[..|rs| - 1];
      ToksFails(ins, outs, costs, chr, q);
      assert forall t :: 0 <= t < |q| ==> q[t] == rs[t];
      assert Known(outs, chr, rs) <==> Known(outs, chr, q) && outs[rs[|rs| - 1].0] in chr;
    }
  }

  /** Otherwise it yields the tokens of all runs, with the empty ones dropped. */
  lemma {:induction false} ToksDrops(ins: seq<int>, outs: seq<int>, costs: seq<Cost>, chr: LigChr, rs: seq<(nat, nat)>)
    requires |ins| == |outs| && RunsIn(rs, |outs|) && Known(outs, chr, rs)
    ensures Toks(ins, outs, costs, chr, rs) == Ok(DropEmpty(AllTokens(ins, outs, costs, chr, rs)))
  {
    if rs != [] {
      var q := rs[..|rs| - 1];
      var last := rs[|rs| - 1];
      assert Known(outs, chr, q);
      ToksDrops(ins, outs, costs, chr, q);
      var t := TokenOf(ins, outs, costs, chr, last).value;
      var pre := AllTokens(ins, outs, costs, chr, q);
      assert AllTokens(ins, outs, costs, chr, rs) == pre + [t];
      assert TokenOf(ins, outs, costs, chr, last) == Ok(t);
      assert Toks(ins, outs, costs, chr, rs) == MergeStep(Ok(DropEmpty(pre)), Ok(t));
      DropEmptyAppend(pre, t);
      if t.text == [] {
        assert DropEmpty(pre + [t]) == DropEmpty(pre);
      } else {
        assert DropEmpty(pre + [t]) == DropEmpty(pre) + [t];
      }
    }
  }

  /** Once a prefix of the runs fails, the whole merge fails the same way. */
  lemma {:induction false} ToksErrStays(ins: seq<int>, outs: seq<int>, costs: seq<Cost>, chr: LigChr, rs: seq<(nat, nat)>, k: nat)
    requires |ins| == |outs| && RunsIn(rs, |outs|) && k <= |rs|
    requires Toks(ins, outs, costs, chr, rs[..k]).Err?
    ensures Toks(ins, outs, costs, chr, rs) == Toks(ins, outs, costs, chr, rs[..k])
    decreases |rs| - k
  {
    if k < |rs| {
      assert rs[..k + 1][..k] == rs[..k];
      ToksErrStays(ins, outs, costs, chr, rs, k + 1);
    } else {
      assert rs[..k] == rs;
    }
  }

  // ---------------------------------------------------------------
  // the merge loop
  // ---------------------------------------------------------------

  /** `result_l`, `costs_l` and `segs`: each starts with the sentinel
      ("", 0.0, (-1, -1)) and then holds one entry per token. */
  datatype Merged = Merged(output_l: seq<Text>, costs_l: seq<Cost>, segs: seq<(int, int)>)

  function WithSentinel(ts: seq<Token>): (m: Merged)
    ensures |m.output_l| == |m.costs_l| == |m.segs| == |ts| + 1
  {
    if ts == [] then Merged([[]], [0], [(-1, -1)])
    else
      var m := WithSentinel(ts[..|ts| - 1]);
      var t := ts[|ts| - 1];
      Merged(m.output_l + [t.text], m.costs_l + [t.cost], m.segs + [t.seg])
  }

  /** The lists hold the sentinel first and then the tokens' entries in order. */
  lemma {:induction false} SentinelAt(ts: seq<Token>)
    ensures WithSentinel(ts).output_l[0] == [] && WithSentinel(ts).costs_l[0] == 0 && WithSentinel(ts).segs[0] == (-1, -1)
    ensures forall k :: 0 <= k < |ts| ==>
      WithSentinel(ts).output_l[k + 1] == ts[k].text && WithSentinel(ts).costs_l[k + 1] == ts[k].cost && WithSentinel(ts).segs[k + 1] == ts[k].seg
  {
    if ts != [] {
      SentinelAt(ts[..|ts| - 1]);
    }
  }

  /** The inner loop over the epsilon outputs after entry i. */
  method ScanRun(ins: seq<int>, outs: seq<int>, i: nat) returns (j: nat, start: int, end: int)
    requires i < |outs| == |ins|
    ensures j == RunEnd(outs, i) && (start, end) == RunSeg(ins, i, j)
  {
    j := i + 1;
    start, end := Shr16(ins[i]), Low16(ins[i]);
    while j < |outs| && outs[j] == 0
      invariant i < j <= |outs|
      invariant forall k :: i < k < j ==> outs[k] == 0
      invariant (start, end) == RunSeg(ins, i, j)
      invariant RunEnd(outs, i) >= j
      decreases |outs| - j
    {
      if ins[j] != 0 {
        start := Min(start, Shr16(ins[j]));
        end := Max(end, Low16(ins[j]));
      }
      j := j + 1;
    }
  }

  /** One more run for the merge: it fails on an unknown code, and
      otherwise appends the run's token unless its text is empty. */
  lemma ToksSnoc(ins: seq<int>, outs: seq<int>, costs: seq<Cost>, chr: LigChr, done: seq<(nat, nat)>, r: (nat, nat), ts: seq<Token>)
    requires |ins| == |outs| && RunsIn(done, |outs|) && r.0 < r.1 <= |outs|
    requires Toks(ins, outs, costs, chr, done) == Ok(ts)
    ensures RunsIn(done + [r], |outs|)
    ensures outs[r.0] !in chr ==> Toks(ins, outs, costs, chr, done + [r]) == Err(TypeError)
    ensures outs[r.0] in chr && chr[outs[r.0]] == [] ==> Toks(ins, outs, costs, chr, done + [r]) == Ok(ts)
    ensures outs[r.0] in chr && chr[outs[r.0]] != [] ==>
      Toks(ins, outs, costs, chr, done + [r]) == Ok(ts + [Token(chr[outs[r.0]], Sum(Slice(costs, r.0, r.1)), RunSeg(ins, r.0, r.1))])
  {
    assert (done + [r])[..|done|] == done;
  }

  /** Taking the run at i off the runs still to do. */
  lemma RunsSplit(outs: seq<int>, i: nat, done: seq<(nat, nat)>, all: seq<(nat, nat)>)
    requires i < |outs| && all == done + Runs(outs, i) && RunsIn(done, |outs|)
    ensures all == (done + [(i, RunEnd(outs, i))]) + Runs(outs, RunEnd(outs, i))
    ensures all[..|done| + 1] == done + [(i, RunEnd(outs, i))]
    ensures RunsIn(all, |outs|) && RunsIn(done + [(i, RunEnd(outs, i))], |outs|)
  {
    assert Runs(outs, i) == [(i, RunEnd(outs, i))] + Runs(outs, RunEnd(outs, i));
  }

  /** Appending a token appends one entry to each list. */
  lemma SentinelSnoc(ts: seq<Token>, t: Token)
    ensures WithSentinel(ts + [t]) ==
      Merged(WithSentinel(ts).output_l + [t.text], WithSentinel(ts).costs_l + [t.cost], WithSentinel(ts).segs + [t.seg])
  {
    assert (ts + [t])[..|ts|] == ts;
  }

  /** One pass of the merge loop: the run at i moves to the runs done,
      and the merge of the runs done fails or grows as that run says. */
  lemma MergePass(ins: seq<int>, outs: seq<int>, costs: seq<Cost>, chr: LigChr,
                  done: seq<(nat, nat)>, all: seq<(nat, nat)>, i: nat, ts: seq<Token>)
    requires |ins| == |outs| && i < |outs| && all == done + Runs(outs, i) && RunsIn(done, |outs|)
    requires Toks(ins, outs, costs, chr, done) == Ok(ts)
    ensures all == (done + [(i, RunEnd(outs, i))]) + Runs(outs, RunEnd(outs, i))
    ensures RunsIn(done + [(i, RunEnd(outs, i))], |outs|)
    ensures outs[i] !in chr ==> Toks(ins, outs, costs, chr, all) == Err(TypeError)
    ensures outs[i] in chr && chr[outs[i]] == [] ==> Toks(ins, outs, costs, chr, done + [(i, RunEnd(outs, i))]) == Ok(ts)
    ensures outs[i] in chr && chr[outs[i]] != [] ==>
      Toks(ins, outs, costs, chr, done + [(i, RunEnd(outs, i))])
        == Ok(ts + [Token(chr[outs[i]], Sum(Slice(costs, i, RunEnd(outs, i))), RunSeg(ins, i, RunEnd(outs, i)))])
  {
    RunsSplit(outs, i, done, all);
    ToksSnoc(ins, outs, costs, chr, done, (i, RunEnd(outs, i)), ts);
    if outs[i] !in chr {
      ToksErrStays(ins, outs, costs, chr, all, |done| + 1);
    }
  }

  /** The run-merging loop of `compute_alignment`. */
  method MergeRuns(ins: seq<int>, outs: seq<int>, costs: seq<Cost>, chr: LigChr) returns (r: Result<Merged>)
    requires |ins| == |outs|
    ensures r == match Toks(ins, outs, costs, chr, Runs(outs, 0))
                 case Ok(ts) => Ok(WithSentinel(ts))
                 case Err(e) => Err(e)
  {
    var n := |ins|;
    var resultL: seq<Text> := [[]];
    var costsL: seq<Cost> := [0];
    var segs: seq<(int, int)> := [(-1, -1)];
    ghost var tokens: seq<Token> := [];
    ghost var done: seq<(nat, nat)> := [];
    ghost var all := Runs(outs, 0);
    var i := 0;
    while i < n
      invariant i <= n && all == done + Runs(outs, i) && RunsIn(done, n)
      invariant Toks(ins, outs, costs, chr, done) == Ok(tokens)
      invariant Merged(resultL, costsL, segs) == WithSentinel(tokens)
      decreases n - i
    {
      var j, start, end := ScanRun(ins, outs, i);
      MergePass(ins, outs, costs, chr, done, all, i, tokens);
      if outs[i] !in chr {
        return Err(TypeError);
      }
      var cls := chr[outs[i]];
      if cls != [] {
        var c := Sum(Slice(costs, i, j));
        SentinelSnoc(tokens, Token(cls, c, (start, end)));
        resultL := resultL + [cls];
        costsL := costsL + [c];
        segs := segs + [(start, end)];
        tokens := tokens + [Token(cls, c, (start, end))];
      }
      done := done + [(i, j)];
      i := j;
    }
    assert done == all;
    return Ok(Merged(resultL, costsL, segs));
  }

  // ---------------------------------------------------------------
  // costs
  // ---------------------------------------------------------------

  /** The total cost of runs: `sum(costs[i:j])` per run, added up. */
  function RunCost(costs: seq<Cost>, rs: seq<(nat, nat)>): Cost
  {
    if rs == [] then 0 else RunCost(costs, rs[..|rs| - 1]) + Sum(Slice(costs, rs[|rs| - 1].0, rs[|rs| - 1].1))
  }

  lemma {:induction false} RunCostCons(costs: seq<Cost>, r: (nat, nat), rs: seq<(nat, nat)>)
    ensures RunCost(costs, [r] + rs) == Sum(Slice(costs, r.0, r.1)) + RunCost(costs, rs)
    decreases |rs|
  {
    if rs != [] {
      assert ([r] + rs)[..|rs|] == [r] + rs[..|rs| - 1];
      RunCostCons(costs, r, rs[..|rs| - 1]);
    } else {
      assert [r][..0] == [];
    }
  }

  /** The costs of a tiling's pieces add up to the cost of the whole range. */
  lemma {:induction false} TilingSum(costs: seq<Cost>, rs: seq<(nat, nat)>, lo: nat, hi: nat)
    requires Tiling(rs, lo, hi) && lo <= hi <= |costs|
    ensures RunCost(costs, rs) == Sum(costs[lo..hi])
    decreases |rs|
  {
    if rs != [] {
      TilingOrdered(rs, lo, hi);
      var m := rs[0].1;
      TilingSum(costs, rs[1..], m, hi);
      assert rs == [rs[0]] + rs[1..];
      RunCostCons(costs, rs[0], rs[1..]);
      assert costs[lo..hi] == costs[lo..m] + costs[m..hi];
      SumAppend(costs[lo..m], costs[m..hi]);
    } else {
      assert costs[lo..hi] == [];
    }
  }

  /** The sum of a list of tokens' costs. */
  function TokenCost(ts: seq<Token>): Cost
  {
    if ts == [] then 0 else TokenCost(ts[..|ts| - 1]) + ts[|ts| - 1].cost
  }

  /** `sum(costs_l)` is the tokens' cost: the sentinel costs nothing. */
  lemma {:induction false} SentinelCost(ts: seq<Token>)
    ensures Sum(WithSentinel(ts).costs_l) == TokenCost(ts)
  {
    if ts != [] {
      SentinelCost(ts[..|ts| - 1]);
    } else {
      assert Sum([0]) == Sum([]) + 0;
    }
  }

  /** Without drops, the tokens cost what their runs cost. */
  lemma {:induction false} RunCosts(ins: seq<int>, outs: seq<int>, costs: seq<Cost>, chr: LigChr, rs: seq<(nat, nat)>)
    requires |ins| == |outs| && RunsIn(rs, |outs|) && Known(outs, chr, rs)
    ensures TokenCost(AllTokens(ins, outs, costs, chr, rs)) == RunCost(costs, rs)
  {
    if rs != [] {
      var q := rs[..|rs| - 1];
      assert Known(outs, chr, q);
      RunCosts(ins, outs, costs, chr, q);
      assert AllTokens(ins, outs, costs, chr, rs)[..|rs| - 1] == AllTokens(ins, outs, costs, chr, q);
    }
  }

  /** When every non-epsilon code (and the first one) is known, every code
      the merge looks up is known. */
  lemma HeadsKnown(outs: seq<int>, chr: LigChr)
    requires forall k :: 0 <= k < |outs| && (k == 0 || outs[k] != 0) ==> outs[k] in chr
    ensures RunsIn(Runs(outs, 0), |outs|) && Known(outs, chr, Runs(outs, 0))
  {
    RunHeads(outs, 0);
  }

  /** When every looked-up code is known and has a non-empty text, the
      merge keeps every run, and `sum(costs_l)` is the runs' total cost. */
  lemma {:induction false} NothingDropped(ins: seq<int>, outs: seq<int>, costs: seq<Cost>, chr: LigChr, rs: seq<(nat, nat)>)
    requires |ins| == |outs| && RunsIn(rs, |outs|) && Known(outs, chr, rs)
    requires forall t :: 0 <= t < |rs| ==> chr[outs[rs[t].0]] != []
    ensures Toks(ins, outs, costs, chr, rs) == Ok(AllTokens(ins, outs, costs, chr, rs))
    ensures Sum(WithSentinel(AllTokens(ins, outs, costs, chr, rs)).costs_l) == RunCost(costs, rs)
  {
    ToksDrops(ins, outs, costs, chr, rs);
    var all := AllTokens(ins, outs, costs, chr, rs);
    NoneEmpty(all);
    SentinelCost(all);
    RunCosts(ins, outs, costs, chr, rs);
  }

  /** When every code is known and no text is empty, no run is dropped, and
      the total `sum(costs_l)` is the cost of the whole decoder path. */
  lemma MergedCost(ins: seq<int>, outs: seq<int>, costs: seq<Cost>, chr: LigChr)
    requires |ins| == |outs| <= |costs|
    requires forall k :: 0 <= k < |outs| && outs[k] in chr ==> chr[outs[k]] != []
    requires forall k :: 0 <= k < |outs| && (k == 0 || outs[k] != 0) ==> outs[k] in chr
    ensures Toks(ins, outs, costs, chr, Runs(outs, 0)).Ok?
    ensures Sum(WithSentinel(Toks(ins, outs, costs, chr, Runs(outs, 0)).value).costs_l) == Sum(costs[..|outs|])
  {
    var rs := Runs(outs, 0);
    HeadsKnown(outs, chr);
    NothingDropped(ins, outs, costs, chr, rs);
    RunsTile(outs, 0);
    TilingSum(costs, rs, 0, |outs|);
  }

  /** Consecutive pieces of a tiling meet. */
  lemma {:induction false} RunsConsecutive(rs: seq<(nat, nat)>, lo: nat, hi: nat, t: nat)
    requires Tiling(rs, lo, hi) && 0 < t < |rs|
    ensures rs[t].0 == rs[t - 1].1
    decreases t
  {
    if t > 1 {
      RunsConsecutive(rs[1..], rs[0].1, hi, t - 1);
    }
  }

  lemma {:induction false} NoneEmpty(ts: seq<Token>)
    ensures (forall k :: 0 <= k < |ts| ==> ts[k].text != []) ==> DropEmpty(ts) == ts
  {
    if ts != [] {
      NoneEmpty(ts[1..]);
      assert forall k :: 1 <= k < |ts| ==> ts[1..][k - 1] == ts[k];
    }
  }

  // ---------------------------------------------------------------
  // output text
  // ---------------------------------------------------------------

  /** The decoder's non-epsilon codes, in order. */
  function Codes(outs: seq<int>): seq<int>
  {
    if outs == [] then [] else Codes(outs[..|outs| - 1]) + (if outs[|outs| - 1] == 0 then [] else [outs[|outs| - 1]])
  }

  /** A ligature table that spells every code of outs as itself and
      epsilon as nothing. */
  predicate Plain(chr: LigChr, outs: seq<int>)
  {
    forall k :: 0 <= k < |outs| ==>
      outs[k] in chr && (outs[k] == 0 ==> chr[outs[k]] == []) && (outs[k] != 0 ==> |chr[outs[k]]| == 1 && chr[outs[k]][0] == outs[k])
  }

  lemma {:induction false} ConcatSnoc(lines: seq<Text>, l: Text)
    ensures Concat(lines + [l]) == Concat(lines) + l
    decreases |lines|
  {
    if lines == [] {
      assert [l][1..] == [];
    } else {
      assert (lines + [l])[1..] == lines[1..] + [l];
      ConcatSnoc(lines[1..], l);
    }
  }

  /** The codes of a run are those of its leading entry. */
  lemma {:induction false} RunCodes(outs: seq<int>, i: nat, j: nat)
    requires i < j <= |outs| && forall k :: i < k < j ==> outs[k] == 0
    ensures Codes(outs[..j]) == Codes(outs[..i]) + (if outs[i] == 0 then [] else [outs[i]])
    decreases j - i
  {
    if j > i + 1 {
      RunCodes(outs, i, j - 1);
      assert outs[..j][..j - 1] == outs[..j - 1];
    } else {
      assert outs[..j][..i] == outs[..i];
    }
  }

  /** One run of the merge with a plain ligature table. */
  lemma OutputStep(ins: seq<int>, outs: seq<int>, costs: seq<Cost>, chr: LigChr, i: nat, done: seq<(nat, nat)>, ts: seq<Token>)
    returns (ts': seq<Token>)
    requires |ins| == |outs| && Plain(chr, outs) && i < |outs| && RunsIn(done, |outs|)
    requires Toks(ins, outs, costs, chr, done) == Ok(ts)
    requires Concat(WithSentinel(ts).output_l) == Codes(outs[..i])
    ensures RunsIn(done + [(i, RunEnd(outs, i))], |outs|)
    ensures Toks(ins, outs, costs, chr, done + [(i, RunEnd(outs, i))]) == Ok(ts')
    ensures Concat(WithSentinel(ts').output_l) == Codes(outs[..RunEnd(outs, i)])
  {
    var j := RunEnd(outs, i);
    ToksSnoc(ins, outs, costs, chr, done, (i, j), ts);
    RunCodes(outs, i, j);
    var text := chr[outs[i]];
    ts' := ts;
    if text != [] {
      var t := Token(text, Sum(Slice(costs, i, j)), RunSeg(ins, i, j));
      SentinelSnoc(ts, t);
      ConcatSnoc(WithSentinel(ts).output_l, text);
      assert text == [outs[i]];
      ts' := ts + [t];
    }
  }

  /** The merge from run i on, given the tokens of the runs before it. */
  lemma {:induction false} OutputFrom(ins: seq<int>, outs: seq<int>, costs: seq<Cost>, chr: LigChr, i: nat,
                                      done: seq<(nat, nat)>, ts: seq<Token>, all: seq<(nat, nat)>)
    requires |ins| == |outs| && Plain(chr, outs) && i <= |outs| && RunsIn(done, |outs|)
    requires all == done + Runs(outs, i) && RunsIn(all, |outs|)
    requires Toks(ins, outs, costs, chr, done) == Ok(ts)
    requires Concat(WithSentinel(ts).output_l) == Codes(outs[..i])
    ensures Toks(ins, outs, costs, chr, all).Ok?
    ensures Concat(WithSentinel(Toks(ins, outs, costs, chr, all).value).output_l) == Codes(outs)
    decreases |outs| - i
  {
    if i == |outs| {
      assert all == done;
      assert outs[..i] == outs;
    } else {
      var j := RunEnd(outs, i);
      RunsSplit(outs, i, done, all);
      var ts' := OutputStep(ins, outs, costs, chr, i, done, ts);
      OutputFrom(ins, outs, costs, chr, j, done + [(i, j)], ts', all);
    }
  }

  /** With a plain ligature table, `"".join(result_l)` is the decoder's
      non-epsilon codes, in order: ligature merging loses and adds nothing. */
  lemma OutputIsCodes(ins: seq<int>, outs: seq<int>, costs: seq<Cost>, chr: LigChr)
    requires |ins| == |outs| && Plain(chr, outs)
    ensures Toks(ins, outs, costs, chr, Runs(outs, 0)).Ok?
    ensures Concat(WithSentinel(Toks(ins, outs, costs, chr, Runs(outs, 0)).value).output_l) == Codes(outs)
  {
    assert WithSentinel([]).output_l == [[]];
    assert Concat([[]]) == [];
    assert [] + Runs(outs, 0) == Runs(outs, 0);
    OutputFrom(ins, outs, costs, chr, 0, [], [], Runs(outs, 0));
  }

  // ---------------------------------------------------------------
  // the label table and the cseg
  // ---------------------------------------------------------------

  /** `amax(rseg)`, which fails on an empty image. */
  function MaxLabelOf(rseg: array2<int>): (r: Option<int>)
    reads rseg
    ensures r.None? <==> rseg.Length0 == 0 || rseg.Length1 == 0
    ensures r.Some? ==> forall i, j :: 0 <= i < rseg.Length0 && 0 <= j < rseg.Length1 ==> rseg[i, j] <= r.value
    ensures r.Some? ==> exists i, j :: 0 <= i < rseg.Length0 && 0 <= j < rseg.Length1 && rseg[i, j] == r.value
  {
    if rseg.Length0 == 0 || rseg.Length1 == 0 then None else Some(PixelMax(rseg))
  }

  /** The merged lists and the label table `rmap` of `compute_alignment`,
      given `amax(rseg)` (None for an empty image), or the error raised
      before the cseg is built. */
  function AlignTable(ins: seq<int>, outs: seq<int>, costs: seq<Cost>, chr: LigChr, maxLabel: Option<int>): (r: Result<(Merged, seq<int>)>)
    ensures |ins| != |outs| ==> r == Err(AssertionError("len(ins)==len(outs)"))
    ensures r.Ok? ==> var (m, rmap) := r.value;
      && |m.output_l| == |m.costs_l| == |m.segs| >= 1
      && m.output_l[0] == [] && m.costs_l[0] == 0 && m.segs[0] == (-1, -1)
      && maxLabel.Some? && |rmap| == maxLabel.value + 1 >= 1 && rmap[0] == 0
      && forall p :: 0 <= p < |rmap| ==> 0 <= rmap[p] < |m.segs|
  {
    if |ins| != |outs| then Err(AssertionError("len(ins)==len(outs)"))
    else
      match Toks(ins, outs, costs, chr, Runs(outs, 0))
      case Err(e) => Err(e)
      case Ok(ts) =>
        SentinelAt(ts);
        RmapTable(WithSentinel(ts), maxLabel)
  }

  /** The label table painted from the merged segments, or the error
      raised while building it. */
  function RmapTable(m: Merged, maxLabel: Option<int>): (r: Result<(Merged, seq<int>)>)
    requires |m.segs| >= 1
    ensures r.Ok? ==> r.value.0 == m && maxLabel.Some? && |r.value.1| == maxLabel.value + 1 >= 1 && r.value.1[0] == 0
    ensures r.Ok? ==> forall p :: 0 <= p < |r.value.1| ==> 0 <= r.value.1[p] < |m.segs|
  {
    if maxLabel.None? || maxLabel.value + 1 < 0 then Err(ValueError)
    else
      var rmap := Painted(maxLabel.value + 1, m.segs[1..], true);
      PaintedRange(maxLabel.value + 1, m.segs[1..], true);
      if |rmap| == 0 then Err(IndexError)
      else if rmap[0] != 0 then Err(AssertionError("rmap[0]==0"))
      else Ok((m, rmap))
  }

  /** The result record of `compute_alignment`. */
  datatype Alignment = Alignment(output_l: seq<Text>, segs: seq<(int, int)>, costs: seq<Cost>, output: Text, cost: Cost, cseg: array2<int>)

  /** `compute_alignment` after the beam search, whose path (`ins`,
      `outs`, `costs`) is given. */
  method ComputeAlignment(ins: seq<int>, outs: seq<int>, costs: seq<Cost>, chr: LigChr, rseg: array2<int>) returns (r: Result<Alignment>)
    ensures var spec := AlignTable(ins, outs, costs, chr, MaxLabelOf(rseg));
      (spec.Err? ==> r == Err(spec.error)) &&
      (spec.Ok? ==> (r.Ok? <==> Indexable(rseg, |spec.value.1|))) &&
      (spec.Ok? && r.Err? ==> r.error == IndexError) &&
      (r.Ok? ==>
         spec.Ok? && fresh(r.value.cseg) && RemapOf(r.value.cseg, rseg, spec.value.1) &&
         r.value.output_l == spec.value.0.output_l && r.value.segs == spec.value.0.segs &&
         r.value.costs == spec.value.0.costs_l && r.value.output == Concat(spec.value.0.output_l) &&
         r.value.cost == Sum(spec.value.0.costs_l))
  {
    var t := ComputeTable(ins, outs, costs, chr, rseg);
    if t.Err? {
      return Err(t.error);
    }
    var m, rmap := t.value.0, t.value.1;
    var cseg := Remap(rseg, rmap);
    if cseg.Err? {
      return Err(cseg.error);
    }
    return Ok(Alignment(m.output_l, m.segs, m.costs_l, Concat(m.output_l), Sum(m.costs_l), cseg.value));
  }

  /** The steps of `compute_alignment` up to the label table. */
  method ComputeTable(ins: seq<int>, outs: seq<int>, costs: seq<Cost>, chr: LigChr, rseg: array2<int>) returns (t: Result<(Merged, seq<int>)>)
    ensures t == AlignTable(ins, outs, costs, chr, MaxLabelOf(rseg))
  {
    if |ins| != |outs| {
      return Err(AssertionError("len(ins)==len(outs)"));
    }
    var merged := MergeRuns(ins, outs, costs, chr);
    if merged.Err? {
      return Err(merged.error);
    }
    t := PaintTable(merged.value, rseg);
  }

  /** `rmap` of `compute_alignment`, painted from the merged segments. */
  method PaintTable(m: Merged, rseg: array2<int>) returns (t: Result<(Merged, seq<int>)>)
    requires |m.segs| >= 1
    ensures t == RmapTable(m, MaxLabelOf(rseg))
  {
    if rseg.Length0 == 0 || rseg.Length1 == 0 {
      return Err(ValueError);
    }
    var size := PixelMax(rseg) + 1;
    if size < 0 {
      return Err(ValueError);
    }
    var rmap := Paint(size, m.segs[1..], true);
    if rmap.Length == 0 {
      return Err(IndexError);
    }
    if rmap[0] != 0 {
      return Err(AssertionError("rmap[0]==0"));
    }
    return Ok((m, rmap[..]));
  }

  /** With non-negative input labels, every token's range is non-negative. */
  lemma {:induction false} RunSegNonNegative(ins: seq<int>, i: nat, j: nat)
    requires i < j <= |ins| && forall k :: 0 <= k < |ins| ==> ins[k] >= 0
    ensures RunSeg(ins, i, j).0 >= 0 && RunSeg(ins, i, j).1 >= 0
    decreases j - i
  {
    if j > i + 1 {
      RunSegNonNegative(ins, i, j - 1);
    }
  }

  lemma {:induction false} ToksNonNegative(ins: seq<int>, outs: seq<int>, costs: seq<Cost>, chr: LigChr, rs: seq<(nat, nat)>)
    requires |ins| == |outs| && RunsIn(rs, |outs|) && forall k :: 0 <= k < |ins| ==> ins[k] >= 0
    requires Toks(ins, outs, costs, chr, rs).Ok?
    ensures forall k :: 0 <= k < |Toks(ins, outs, costs, chr, rs).value| ==>
      Toks(ins, outs, costs, chr, rs).value[k].seg.0 >= 0 && Toks(ins, outs, costs, chr, rs).value[k].seg.1 >= 0
  {
    if rs != [] {
      var q := rs[..|rs| - 1];
      var last := rs[|rs| - 1];
      ToksNonNegative(ins, outs, costs, chr, q);
      RunSegNonNegative(ins, last.0, last.1);
    }
  }

  /** The `assert rmap[0]==0` cannot fail on a beam search path whose input
      labels are non-negative: a token whose range starts at 0 is skipped,
      and any other starts at label 1 or above. */
  lemma RmapZero(ins: seq<int>, outs: seq<int>, costs: seq<Cost>, chr: LigChr, maxLabel: Option<int>)
    requires forall k :: 0 <= k < |ins| ==> ins[k] >= 0
    ensures AlignTable(ins, outs, costs, chr, maxLabel) != Err(AssertionError("rmap[0]==0"))
  {
    if |ins| == |outs| {
      ToksFails(ins, outs, costs, chr, Runs(outs, 0));
    }
    if |ins| == |outs| && Toks(ins, outs, costs, chr, Runs(outs, 0)).Ok? && maxLabel.Some? && maxLabel.value + 1 > 0 {
      var ts := Toks(ins, outs, costs, chr, Runs(outs, 0)).value;
      ToksNonNegative(ins, outs, costs, chr, Runs(outs, 0));
      var n: nat := maxLabel.value + 1;
      var segs := WithSentinel(ts).segs[1..];
      SentinelAt(ts);
      forall k | 0 <= k < |segs| ensures !Writes(segs[k], true, n, 0) {
        assert segs[k] == ts[k].seg;
        assert segs[k].0 >= 0;
        if !Skipped(segs[k], true) {
          assert Clip(segs[k].0, n) == Min(segs[k].0, n) >= 1;
        }
      }
      PaintedAt(n, segs, true, 0);
    }
  }
}
