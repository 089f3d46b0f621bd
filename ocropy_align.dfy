/** `compute_alignment` and the cseg part of `recognize_and_align` of
    ocropy/common.py, after the beam search: here every positive output
    code is one character with the segment range of its own input label,
    and epsilon outputs are dropped. */
module OcropyAlign {
  import opened Wrappers
  import opened Text
  import opened PyOps
  import opened SegMaps

  /** The entries with a positive output code: the code and its
      (start, end) segment range, in order. */
  function Kept(ins: seq<int>, outs: seq<int>): (r: seq<(int, (int, int))>)
    requires |ins| == |outs|
    ensures |r| <= |outs|
  {
    if outs == [] then []
    else
      var n := |outs| - 1;
      Kept(ins[..n], outs[..n]) + (if outs[n] <= 0 then [] else [(outs[n], (Shr16(ins[n]), Low16(ins[n])))])
  }

  /** The segment ranges of the kept entries. */
  function SegsOf(kept: seq<(int, (int, int))>): (r: seq<(int, int)>)
    ensures |r| == |kept| && forall k :: 0 <= k < |kept| ==> r[k] == kept[k].1
  {
    seq(|kept|, k requires 0 <= k < |kept| => kept[k].1)
  }

  /** Every start and every end of the ranges, for `amax(segs)`. */
  function Bounds(segs: seq<(int, int)>): (r: seq<int>)
    ensures |r| == 2 * |segs|
    ensures forall k :: 0 <= k < |segs| ==> segs[k].0 in r && segs[k].1 in r
    ensures forall x :: x in r ==> exists k :: 0 <= k < |segs| && (x == segs[k].0 || x == segs[k].1)
  {
    if segs == [] then []
    else
      var q := Bounds(segs[..|segs| - 1]);
      assert forall k :: 0 <= k < |segs| - 1 ==> segs[..|segs| - 1][k] == segs[k];
      q + [segs[|segs| - 1].0, segs[|segs| - 1].1]
  }

  /** The text, the segment ranges and the label table `rmap` of
      `compute_alignment`, or the error raised before the cseg is built. */
  function AlignmentTable(ins: seq<int>, outs: seq<int>): Result<(Text, seq<(int, int)>, seq<int>)>
  {
    match AsUnicode(outs, ValueError)
    case Err(e) => Err(e)
    case Ok(text) =>
      if |ins| != |outs| then Err(AssertionError("len(ins)==len(outs)"))
      else
        var segs := SegsOf(Kept(ins, outs));
        if |segs| == 0 then Err(AssertionError("len(segs)>0"))
        else if MaxOf(Bounds(segs)) + 1 < 0 then Err(ValueError)
        else Ok((text, segs, Painted(MaxOf(Bounds(segs)) + 1, segs, false)))
  }

  /** The kept entries of an encodable output are its characters: the
      text `intarray_as_unicode` gives is the text the loop rebuilds. */
  lemma {:induction false} KeptIsText(ins: seq<int>, outs: seq<int>)
    requires |ins| == |outs| && AsUnicode(outs, ValueError).Ok?
    ensures |Kept(ins, outs)| == |AsUnicode(outs, ValueError).value|
    ensures forall k :: 0 <= k < |Kept(ins, outs)| ==> Kept(ins, outs)[k].0 == AsUnicode(outs, ValueError).value[k]
  {
    if outs != [] {
      var n := |outs| - 1;
      assert AsUnicode(outs[..n], ValueError).Ok?;
      KeptIsText(ins[..n], outs[..n]);
      AsUnicodeOk(outs, ValueError);
      assert outs[n] == 0 || IsCode(outs[n]);
    }
  }

  /** `assert len(segs)>0` fails exactly on an encodable all-epsilon output. */
  lemma {:induction false} NoneKept(ins: seq<int>, outs: seq<int>)
    requires |ins| == |outs| && Encodable(outs)
    ensures |Kept(ins, outs)| == 0 <==> forall k :: 0 <= k < |outs| ==> outs[k] == 0
  {
    if outs != [] {
      var n := |outs| - 1;
      assert Encodable(outs[..n]) by {
        forall k | 0 <= k < n ensures outs[..n][k] == 0 || IsCode(outs[..n][k]) { assert outs[..n][k] == outs[k]; }
      }
      NoneKept(ins[..n], outs[..n]);
      assert forall k :: 0 <= k < n ==> outs[..n][k] == outs[k];
    }
  }

  /** The loop of `compute_alignment` that keeps the positive outputs. */
  method Collect(ins: seq<int>, outs: seq<int>) returns (text: Text, segs: seq<(int, int)>)
    requires |ins| == |outs| && Encodable(outs)
    ensures |text| == |segs| == |Kept(ins, outs)|
    ensures forall k :: 0 <= k < |segs| ==> text[k] == Kept(ins, outs)[k].0 && segs[k] == Kept(ins, outs)[k].1
  {
    text, segs := [], [];
    for i := 0 to |outs|
      invariant |text| == |segs| == |Kept(ins[..i], outs[..i])|
      invariant forall k :: 0 <= k < |segs| ==> text[k] == Kept(ins[..i], outs[..i])[k].0 && segs[k] == Kept(ins[..i], outs[..i])[k].1
    {
      assert ins[..i + 1][..i] == ins[..i] && outs[..i + 1][..i] == outs[..i];
      if outs[i] > 0 {
        assert IsCode(outs[i]);
        text := text + [outs[i] as CodePoint];
        segs := segs + [(Shr16(ins[i]), Low16(ins[i]))];
      }
    }
    assert ins[..|ins|] == ins && outs[..|outs|] == outs;
  }

  /** The result record of `compute_alignment`. */
  datatype Alignment = Alignment(output: Text, segs: seq<(int, int)>, costs: seq<Cost>, cost: Cost, cseg: array2<int>)

  /** `compute_alignment` after the beam search, whose path (`ins`,
      `outs`, `costs`) is given. */
  method ComputeAlignment(ins: seq<int>, outs: seq<int>, costs: seq<Cost>, rseg: array2<int>) returns (r: Result<Alignment>)
    ensures var spec := AlignmentTable(ins, outs);
      (spec.Err? ==> r == Err(spec.error)) &&
      (spec.Ok? ==> (r.Ok? <==> Indexable(rseg, |spec.value.2|))) &&
      (spec.Ok? && r.Err? ==> r.error == IndexError) &&
      (r.Ok? ==>
         spec.Ok? && fresh(r.value.cseg) && RemapOf(r.value.cseg, rseg, spec.value.2) &&
         r.value.output == spec.value.0 && r.value.segs == spec.value.1 &&
         r.value.costs == costs && r.value.cost == Sum(costs))
  {
    var result := IntArrayAsUnicode(outs, ValueError);
    if result.Err? {
      return Err(result.error);
    }
    if |ins| != |outs| {
      return Err(AssertionError("len(ins)==len(outs)"));
    }
    AsUnicodeOk(outs, ValueError);
    KeptIsText(ins, outs);
    var text, segs := Collect(ins, outs);
    assert text == result.value;
    assert segs == SegsOf(Kept(ins, outs));
    if |segs| == 0 {
      return Err(AssertionError("len(segs)>0"));
    }
    var size := MaxOf(Bounds(segs)) + 1;
    if size < 0 {
      return Err(ValueError);
    }
    var rmap := Paint(size, segs, false);
    var cseg := Remap(rseg, rmap[..]);
    if cseg.Err? {
      return Err(cseg.error);
    }
    return Ok(Alignment(text, segs, costs, Sum(costs), cseg.value));
  }

  /** The k-th output character belongs to the k-th range, and the table
      sends a label to the number of the last character whose range
      (clipped to the table) holds it, or to 0 when none does; a range
      ending at 0 is skipped. */
  lemma TableLabels(ins: seq<int>, outs: seq<int>, id: nat)
    requires AlignmentTable(ins, outs).Ok? && id < |AlignmentTable(ins, outs).value.2|
    ensures var (text, segs, rmap) := AlignmentTable(ins, outs).value;
      |text| == |segs| &&
      (rmap[id] == 0 <==> forall k :: 0 <= k < |segs| ==> !Writes(segs[k], false, |rmap|, id)) &&
      (rmap[id] != 0 ==>
         1 <= rmap[id] <= |segs| && Writes(segs[rmap[id] - 1], false, |rmap|, id) &&
         forall k :: rmap[id] - 1 < k < |segs| ==> !Writes(segs[k], false, |rmap|, id))
  {
    var t := AlignmentTable(ins, outs).value;
    var segs := SegsOf(Kept(ins, outs));
    var n := MaxOf(Bounds(segs)) + 1;
    assert t.1 == segs && t.2 == Painted(n, segs, false);
    KeptIsText(ins, outs);
    assert |t.0| == |segs|;
    PaintedAt(n, segs, false, id);
  }

  // ---------------------------------------------------------------
  // recognize_and_align
  // ---------------------------------------------------------------

  /** The result record of `recognize_and_align`, without the image, the
      raw segmentation and the lattice it passes through. */
  datatype Recognized = Recognized(output: Text, costs: seq<Cost>, cseg: Option<array2<int>>, cost: Cost)

  /** The label table of `recognize_and_align`, and whether it builds a cseg. */
  function CsegTable(ins: seq<int>, outs: seq<int>, nocseg: bool): Result<(Text, Option<seq<int>>)>
  {
    match AsUnicode(outs, ValueError)
    case Err(e) => Err(e)
    case Ok(text) =>
      match RsegMapOf(ins)
      case Err(e) => Err(e)
      case Ok(rmap) => Ok((text, if !nocseg && |rmap| > 1 then Some(rmap) else None))
  }

  /** `recognize_and_align` after the line recognizer and the beam search. */
  method RecognizeAndAlign(ins: seq<int>, outs: seq<int>, costs: seq<Cost>, rseg: array2<int>, nocseg: bool) returns (r: Result<Recognized>)
    ensures var spec := CsegTable(ins, outs, nocseg);
      (spec.Err? ==> r == Err(spec.error)) &&
      (spec.Ok? && spec.value.1.None? ==> r == Ok(Recognized(spec.value.0, costs, None, Sum(costs)))) &&
      (spec.Ok? && spec.value.1.Some? ==>
         (r.Ok? <==> Indexable(rseg, |spec.value.1.value|)) && (r.Err? ==> r.error == IndexError) &&
         (r.Ok? ==>
            r.value.output == spec.value.0 && r.value.costs == costs && r.value.cost == Sum(costs) &&
            r.value.cseg.Some? && fresh(r.value.cseg.value) && RemapOf(r.value.cseg.value, rseg, spec.value.1.value)))
  {
    var result := IntArrayAsUnicode(outs, ValueError);
    if result.Err? {
      return Err(result.error);
    }
    var rmap := RsegMap(ins);
    if rmap.Err? {
      return Err(rmap.error);
    }
    if !nocseg && |rmap.value| > 1 {
      var cseg := Remap(rseg, rmap.value);
      if cseg.Err? {
        return Err(cseg.error);
      }
      return Ok(Recognized(result.value, costs, Some(cseg.value), Sum(costs)));
    }
    return Ok(Recognized(result.value, costs, None, Sum(costs)));
  }

  /** The cseg is missing exactly when it is switched off, or when no
      input label names a segment: with non-negative labels, `rseg_map`
      gives a table of one entry exactly when every end is 0. */
  lemma {:induction false} NoCseg(ins: seq<int>, outs: seq<int>, nocseg: bool)
    requires |ins| > 0 && forall k :: 0 <= k < |ins| ==> ins[k] >= 0
    requires CsegTable(ins, outs, nocseg).Ok?
    ensures CsegTable(ins, outs, nocseg).value.1.None? <==>
      nocseg || forall k :: 0 <= k < |ins| ==> Low16(ins[k]) == 0
  {
    RsegMapPainted(ins);
    var segs := Decode(ins);
    var n := MaxOf(Ends(segs)) + 1;
    assert |Ends(segs)| == |ins|;
    assert forall k :: 0 <= k < |ins| ==> Ends(segs)[k] == Low16(ins[k]);
    if forall k :: 0 <= k < |ins| ==> Low16(ins[k]) == 0 {
      assert Ends(segs)[0] == 0;
      assert n == 1;
    } else {
      var k :| 0 <= k < |ins| && Low16(ins[k]) != 0;
      assert Ends(segs)[k] in Ends(segs);
      assert n > 1;
    }
  }
}
