/** The pieces the two `compute_alignment`s, `rseg_map` and
    `recognize_and_align` share: turning decoder outputs into characters
    (`intarray_as_unicode`), painting a label -> token table with numpy
    slice assignments, remapping every pixel of a raw segmentation through
    such a table, and `rseg_map` itself. */
module SegMaps {
  import opened Wrappers
  import opened Text
  import opened PyOps

  // ---------------------------------------------------------------
  // intarray_as_unicode
  // ---------------------------------------------------------------

  /** A code `unichr` accepts. */
  predicate IsCode(v: int) { 0 <= v < 0x110000 }

  /** `intarray_as_unicode`: one character per nonzero entry, in order; an
      entry that is no code point fails with `bad` (an assertion in
      ocrolib, the ValueError of `unichr` in ocropy). */
  function AsUnicode(a: seq<int>, bad: Error): Result<Text>
  {
    if a == [] then Ok([])
    else
      match AsUnicode(a[..|a| - 1], bad)
      case Err(e) => Err(e)
      case Ok(t) =>
        var v := a[|a| - 1];
        if v == 0 then Ok(t)
        else if IsCode(v) then Ok(t + [v as CodePoint])
        else Err(bad)
  }

  /** Every nonzero entry is a code point. */
  predicate Encodable(a: seq<int>)
  {
    forall i :: 0 <= i < |a| ==> a[i] == 0 || IsCode(a[i])
  }

  /** The conversion succeeds exactly on encodable arrays, then yields one
      character per nonzero entry, and otherwise fails with `bad`. */
  lemma {:induction false} AsUnicodeOk(a: seq<int>, bad: Error)
    ensures AsUnicode(a, bad).Ok? <==> Encodable(a)
    ensures AsUnicode(a, bad).Ok? ==> |AsUnicode(a, bad).value| == |a| - multiset(a)[0]
    ensures AsUnicode(a, bad).Err? ==> AsUnicode(a, bad).error == bad
  {
    if a != [] {
      var p := a[..|a| - 1];
      AsUnicodeOk(p, bad);
      assert a == p + [a[|a| - 1]];
      assert multiset(a) == multiset(p) + multiset{a[|a| - 1]};
      assert Encodable(a) ==> Encodable(p) by {
        if Encodable(a) {
          forall i | 0 <= i < |p| ensures p[i] == 0 || IsCode(p[i]) { assert p[i] == a[i]; }
        }
      }
    }
  }

  /** Converting a concatenation converts the parts and joins them. */
  lemma {:induction false} AsUnicodeAppend(a: seq<int>, b: seq<int>, bad: Error)
    requires AsUnicode(a, bad).Ok? && AsUnicode(b, bad).Ok?
    ensures AsUnicode(a + b, bad) == Ok(AsUnicode(a, bad).value + AsUnicode(b, bad).value)
    decreases |b|
  {
    if b == [] {
      assert a + b == a;
      assert AsUnicode(a, bad).value + [] == AsUnicode(a, bad).value;
    } else {
      var q := b[..|b| - 1];
      assert (a + b)[..|a + b| - 1] == a + q;
      assert (a + b)[|a + b| - 1] == b[|b| - 1];
      assert AsUnicode(q, bad).Ok?;
      AsUnicodeAppend(a, q, bad);
      var v := b[|b| - 1];
      if v != 0 {
        var x, y := AsUnicode(a, bad).value, AsUnicode(q, bad).value;
        assert x + y + [v as CodePoint] == x + (y + [v as CodePoint]);
      }
    }
  }

  /** A single entry: nothing for 0, its character for a code point. */
  lemma AsUnicodeSingle(v: int, bad: Error)
    ensures AsUnicode([v], bad) == if v == 0 then Ok([]) else if IsCode(v) then Ok([v as CodePoint]) else Err(bad)
  {
    assert [v][..0] == [];
    if IsCode(v) {
      assert [] + [v as CodePoint] == [v as CodePoint];
    }
  }

  /** Once a prefix fails, the whole conversion fails the same way. */
  lemma {:induction false} AsUnicodeErrStays(a: seq<int>, k: nat, bad: Error)
    requires k <= |a| && AsUnicode(a[..k], bad).Err?
    ensures AsUnicode(a, bad) == AsUnicode(a[..k], bad)
    decreases |a| - k
  {
    if k < |a| {
      assert a[..k + 1][..k] == a[..k];
      AsUnicodeErrStays(a, k + 1, bad);
    } else {
      assert a[..k] == a;
    }
  }

  /** The loop of `intarray_as_unicode`. */
  method IntArrayAsUnicode(a: seq<int>, bad: Error) returns (r: Result<Text>)
    ensures r == AsUnicode(a, bad)
  {
    var result: Text := [];
    for i := 0 to |a|
      invariant AsUnicode(a[..i], bad) == Ok(result)
    {
      assert a[..i + 1][..i] == a[..i];
      if a[i] != 0 {
        if !IsCode(a[i]) {
          AsUnicodeErrStays(a, i + 1, bad);
          return Err(bad);
        }
        result := result + [a[i] as CodePoint];
      }
    }
    assert a[..|a|] == a;
    return Ok(result);
  }

  // ---------------------------------------------------------------
  // label -> token tables
  // ---------------------------------------------------------------

  /** A numpy slice bound for an array of length n: a negative bound counts
      from the end, and the bound is then clipped to 0..n. */
  function Clip(i: int, n: nat): (r: nat)
    ensures r <= n
    ensures 0 <= i ==> r == Min(i, n)
    ensures i < 0 ==> r == Max(i + n, 0)
  {
    if i < 0 then (if i + n < 0 then 0 else i + n)
    else if i > n then n
    else i
  }

  /** numpy slice assignment `m[lo:hi] = v`. */
  function Fill(m: seq<int>, lo: int, hi: int, v: int): (r: seq<int>)
    ensures |r| == |m|
  {
    seq(|m|, k requires 0 <= k < |m| => if Clip(lo, |m|) <= k < Clip(hi, |m|) then v else m[k])
  }

  /** `a[lo:hi] = v` on an array. */
  method FillSlice(a: array<int>, lo: int, hi: int, v: int)
    modifies a
    ensures a[..] == Fill(old(a[..]), lo, hi, v)
  {
    ghost var m := a[..];
    var s, e := Clip(lo, a.Length), Clip(hi, a.Length);
    if s < e {
      for k := s to e
        invariant forall q :: 0 <= q < a.Length ==> a[q] == if s <= q < k then v else m[q]
      {
        a[k] := v;
      }
    }
    assert a[..] == Fill(m, lo, hi, v);
  }

  /** Whether the token with segment seg writes table position p, in a
      table of size n: tokens whose end is 0 (and, where skipStart holds,
      whose start is 0) are skipped; the others write [start, end]. */
  predicate Writes(seg: (int, int), skipStart: bool, n: nat, p: int)
  {
    !Skipped(seg, skipStart) && Clip(seg.0, n) <= p < Clip(seg.1 + 1, n)
  }

  predicate Skipped(seg: (int, int), skipStart: bool)
  {
    seg.1 == 0 || (skipStart && seg.0 == 0)
  }

  /** The table after the loop `rmap[start:end+1] = k` over the tokens, the
      k-th token (from 1) writing its number k. */
  function Painted(n: nat, segs: seq<(int, int)>, skipStart: bool): (m: seq<int>)
    ensures |m| == n
  {
    if segs == [] then seq(n, _ => 0)
    else
      var m := Painted(n, segs[..|segs| - 1], skipStart);
      var s := segs[|segs| - 1];
      if Skipped(s, skipStart) then m else Fill(m, s.0, s.1 + 1, |segs|)
  }

  /** Later tokens overwrite earlier ones: position p holds the number of
      the last token that writes it, and 0 when no token does. */
  lemma {:induction false} PaintedAt(n: nat, segs: seq<(int, int)>, skipStart: bool, p: nat)
    requires p < n
    ensures var m := Painted(n, segs, skipStart);
      (m[p] == 0 <==> forall k :: 0 <= k < |segs| ==> !Writes(segs[k], skipStart, n, p)) &&
      (m[p] != 0 ==>
        1 <= m[p] <= |segs| && Writes(segs[m[p] - 1], skipStart, n, p) &&
        forall k :: m[p] - 1 < k < |segs| ==> !Writes(segs[k], skipStart, n, p))
  {
    if segs != [] {
      var q := segs[..|segs| - 1];
      PaintedAt(n, q, skipStart, p);
      assert forall k :: 0 <= k < |q| ==> segs[k] == q[k];
    }
  }

  /** Every entry of the table is 0 or the number of a token. */
  lemma PaintedRange(n: nat, segs: seq<(int, int)>, skipStart: bool)
    ensures forall p :: 0 <= p < n ==> 0 <= Painted(n, segs, skipStart)[p] <= |segs|
  {
    forall p | 0 <= p < n ensures 0 <= Painted(n, segs, skipStart)[p] <= |segs| {
      PaintedAt(n, segs, skipStart, p);
    }
  }

  /** The painting loop of both `compute_alignment`s. */
  method Paint(n: nat, segs: seq<(int, int)>, skipStart: bool) returns (rmap: array<int>)
    ensures fresh(rmap) && rmap[..] == Painted(n, segs, skipStart)
  {
    rmap := new int[n](_ => 0);
    assert rmap[..] == Painted(n, [], skipStart);
    for k := 0 to |segs|
      invariant rmap[..] == Painted(n, segs[..k], skipStart)
    {
      assert segs[..k + 1][..k] == segs[..k];
      var s := segs[k];
      if !Skipped(s, skipStart) {
        FillSlice(rmap, s.0, s.1 + 1, k + 1);
      }
    }
    assert segs[..|segs|] == segs;
  }

  // ---------------------------------------------------------------
  // the pixel remap
  // ---------------------------------------------------------------

  /** Every pixel of rseg is an index Python accepts into a table of size n. */
  ghost predicate Indexable(rseg: array2<int>, n: nat)
    reads rseg
  {
    forall i, j :: 0 <= i < rseg.Length0 && 0 <= j < rseg.Length1 ==> PyIndex(rseg[i, j], n).Some?
  }

  /** cseg is rseg with every pixel looked up in rmap. */
  ghost predicate RemapOf(cseg: array2<int>, rseg: array2<int>, rmap: seq<int>)
    reads cseg, rseg
  {
    cseg.Length0 == rseg.Length0 && cseg.Length1 == rseg.Length1 &&
    forall i, j :: 0 <= i < rseg.Length0 && 0 <= j < rseg.Length1 ==>
      match PyIndex(rseg[i, j], |rmap|)
      case Some(p) => cseg[i, j] == rmap[p]
      case None => false
  }

  /** One row of `cseg[i,j] = rmap[rseg[i,j]]`; false at the first pixel
      that is no index into rmap. */
  method RemapRow(rseg: array2<int>, rmap: seq<int>, cseg: array2<int>, i: nat) returns (ok: bool)
    requires cseg != rseg && cseg.Length0 == rseg.Length0 && cseg.Length1 == rseg.Length1
    requires i < rseg.Length0
    modifies cseg
    ensures ok <==> forall j :: 0 <= j < rseg.Length1 ==> PyIndex(rseg[i, j], |rmap|).Some?
    ensures forall ii, j :: 0 <= ii < cseg.Length0 && 0 <= j < cseg.Length1 && ii != i ==> cseg[ii, j] == old(cseg[ii, j])
    ensures ok ==> forall j :: 0 <= j < rseg.Length1 ==> cseg[i, j] == rmap[PyIndex(rseg[i, j], |rmap|).value]
  {
    for j := 0 to rseg.Length1
      invariant forall jj :: 0 <= jj < j ==> PyIndex(rseg[i, jj], |rmap|).Some?
      invariant forall ii, jj :: 0 <= ii < cseg.Length0 && 0 <= jj < cseg.Length1 && ii != i ==> cseg[ii, jj] == old(cseg[ii, jj])
      invariant forall jj :: 0 <= jj < j ==> cseg[i, jj] == rmap[PyIndex(rseg[i, jj], |rmap|).value]
    {
      var p := PyIndex(rseg[i, j], |rmap|);
      if p.None? {
        return false;
      }
      cseg[i, j] := rmap[p.value];
    }
    return true;
  }

  /** `cseg = zeros(rseg.shape); cseg[i,j] = rmap[rseg[i,j]]` for every
      pixel, with Python's IndexError for a pixel outside the table. */
  method Remap(rseg: array2<int>, rmap: seq<int>) returns (r: Result<array2<int>>)
    ensures r.Ok? <==> Indexable(rseg, |rmap|)
    ensures r.Err? ==> r.error == IndexError
    ensures r.Ok? ==> fresh(r.value) && RemapOf(r.value, rseg, rmap)
  {
    var cseg := new int[rseg.Length0, rseg.Length1]((_, _) => 0);
    for i := 0 to rseg.Length0
      invariant forall ii, j :: 0 <= ii < i && 0 <= j < rseg.Length1 ==> PyIndex(rseg[ii, j], |rmap|).Some?
      invariant forall ii, j :: 0 <= ii < i && 0 <= j < rseg.Length1 ==> cseg[ii, j] == rmap[PyIndex(rseg[ii, j], |rmap|).value]
    {
      var ok := RemapRow(rseg, rmap, cseg, i);
      if !ok {
        return Err(IndexError);
      }
    }
    return Ok(cseg);
  }

  // ---------------------------------------------------------------
  // rseg_map
  // ---------------------------------------------------------------

  /** The (start, end) pair `(v >> 16, v & 0xffff)` of each input label. */
  function Decode(inputs: seq<int>): seq<(int, int)>
  {
    seq(|inputs|, i requires 0 <= i < |inputs| => (Shr16(inputs[i]), Low16(inputs[i])))
  }

  function Ends(segs: seq<(int, int)>): seq<int>
  {
    seq(|segs|, i requires 0 <= i < |segs| => segs[i].1)
  }

  /** `for j in range(lo, hi + 1): m[j] = v` with Python indexing: None
      at the first j that is no index into m. */
  function WriteRange(m: seq<int>, lo: int, hi: int, v: int): (r: Option<seq<int>>)
    ensures r.Some? ==> |r.value| == |m|
    decreases hi - lo
  {
    if hi < lo then Some(m)
    else
      match WriteRange(m, lo, hi - 1, v)
      case None => None
      case Some(w) =>
        match PyIndex(hi, |w|)
        case None => None
        case Some(p) => Some(w[p := v])
  }

  /** The loop succeeds unless it runs below -|m| or up to |m|; every
      position some j of [lo, hi] names (directly or from the end) gets v. */
  lemma {:induction false} WriteRangeOf(m: seq<int>, lo: int, hi: int, v: int)
    ensures WriteRange(m, lo, hi, v).Some? <==> hi < lo || (-|m| <= lo && hi < |m|)
    ensures WriteRange(m, lo, hi, v).Some? ==> forall p :: 0 <= p < |m| ==>
      WriteRange(m, lo, hi, v).value[p] == if lo <= p <= hi || lo <= p - |m| <= hi then v else m[p]
    decreases hi - lo
  {
    if lo <= hi {
      WriteRangeOf(m, lo, hi - 1, v);
    }
  }

  /** Inside the table, the index loop is a slice assignment. */
  lemma WriteRangeIsFill(m: seq<int>, lo: int, hi: int, v: int)
    requires 0 < lo && 0 <= hi < |m|
    ensures WriteRange(m, lo, hi, v) == Some(Fill(m, lo, hi + 1, v))
  {
    WriteRangeOf(m, lo, hi, v);
    var w := WriteRange(m, lo, hi, v).value;
    forall p | 0 <= p < |m| ensures w[p] == Fill(m, lo, hi + 1, v)[p] {
      assert Clip(lo, |m|) == Min(lo, |m|) && Clip(hi + 1, |m|) == hi + 1;
    }
    assert w == Fill(m, lo, hi + 1, v);
  }

  /** The pairs `rseg_map` numbers: both parts nonzero. */
  function Counted(segs: seq<(int, int)>): (c: seq<(int, int)>)
    ensures forall k :: 0 <= k < |c| ==> c[k] in segs && c[k].0 != 0 && c[k].1 != 0
  {
    if segs == [] then []
    else
      var c := Counted(segs[..|segs| - 1]);
      var s := segs[|segs| - 1];
      if s.0 == 0 || s.1 == 0 then c else c + [s]
  }

  /** The map after the numbering loop over the first k pairs, with the
      count reached; None once an index fails. */
  function Numbered(m: seq<int>, segs: seq<(int, int)>, k: nat): Option<(seq<int>, nat)>
    requires k <= |segs|
  {
    if k == 0 then Some((m, 0))
    else
      match Numbered(m, segs, k - 1)
      case None => None
      case Some(mc) =>
        var s := segs[k - 1];
        if s.0 == 0 || s.1 == 0 then Some(mc)
        else
          match WriteRange(mc.0, s.0, s.1, mc.1 + 1)
          case None => None
          case Some(w) => Some((w, mc.1 + 1))
  }

  /** `rseg_map` (and ocrolib's identical `OLD_rseg_map`): a table of size
      max(end) + 1 in which the k-th pair with both parts nonzero writes k
      over its labels start..end; `amax` of no inputs raises ValueError. */
  function RsegMapOf(inputs: seq<int>): Result<seq<int>>
  {
    if inputs == [] then Err(ValueError)
    else
      var segs := Decode(inputs);
      var n := MaxOf(Ends(segs)) + 1;
      match Numbered(seq(if n < 0 then 0 else n, _ => 0), segs, |segs|)
      case None => Err(IndexError)
      case Some(mc) => Ok(mc.0)
  }

  /** The inner loop of `rseg_map`. */
  method WriteIndices(table: array<int>, lo: int, hi: int, v: int) returns (ok: bool)
    modifies table
    ensures ok <==> WriteRange(old(table[..]), lo, hi, v).Some?
    ensures ok ==> table[..] == WriteRange(old(table[..]), lo, hi, v).value
  {
    ghost var m := table[..];
    if hi < lo {
      return true;
    }
    var j := lo;
    while j <= hi
      invariant lo <= j <= hi + 1
      invariant WriteRange(m, lo, j - 1, v) == Some(table[..])
      decreases hi - j
    {
      var p := PyIndex(j, table.Length);
      if p.None? {
        WriteRangeFails(m, lo, j, hi, v);
        return false;
      }
      table[p.value] := v;
      j := j + 1;
    }
    return true;
  }

  lemma {:induction false} WriteRangeFails(m: seq<int>, lo: int, j: int, hi: int, v: int)
    requires lo <= j <= hi
    requires WriteRange(m, lo, j, v).None?
    ensures WriteRange(m, lo, hi, v).None?
    decreases hi - j
  {
    if j < hi {
      WriteRangeFails(m, lo, j + 1, hi, v);
    }
  }

  /** The first loop of `rseg_map`: the decoded pairs. */
  method DecodeAll(inputs: seq<int>) returns (segs: seq<(int, int)>)
    ensures segs == Decode(inputs)
  {
    segs := [];
    for i := 0 to |inputs|
      invariant |segs| == i
      invariant forall k :: 0 <= k < i ==> segs[k] == (Shr16(inputs[k]), Low16(inputs[k]))
    {
      segs := segs + [(Shr16(inputs[i]), Low16(inputs[i]))];
    }
  }

  /** The numbering loop of `rseg_map` over a table holding m0. */
  method NumberPairs(table: array<int>, segs: seq<(int, int)>) returns (ok: bool)
    modifies table
    ensures ok <==> Numbered(old(table[..]), segs, |segs|).Some?
    ensures ok ==> table[..] == Numbered(old(table[..]), segs, |segs|).value.0
  {
    ghost var m0 := table[..];
    var count := 0;
    for i := 0 to |segs|
      invariant Numbered(m0, segs, i) == Some((table[..], count))
    {
      var s := segs[i];
      if s.0 != 0 && s.1 != 0 {
        count := count + 1;
        var done := WriteIndices(table, s.0, s.1, count);
        if !done {
          NumberedFails(m0, segs, i + 1, |segs|);
          return false;
        }
      }
    }
    return true;
  }

  /** The loops of `rseg_map`. */
  method RsegMap(inputs: seq<int>) returns (r: Result<seq<int>>)
    ensures r == RsegMapOf(inputs)
  {
    var segs := DecodeAll(inputs);
    if segs == [] {
      return Err(ValueError);
    }
    var n := MaxOf(Ends(segs)) + 1;
    var table := new int[if n < 0 then 0 else n](_ => 0);
    assert table[..] == seq(if n < 0 then 0 else n, _ => 0);
    var ok := NumberPairs(table, segs);
    if !ok {
      return Err(IndexError);
    }
    return Ok(table[..]);
  }

  lemma {:induction false} NumberedFails(m: seq<int>, segs: seq<(int, int)>, k: nat, l: nat)
    requires k <= l <= |segs| && Numbered(m, segs, k).None?
    ensures Numbered(m, segs, l).None?
    decreases l - k
  {
    if k < l {
      NumberedFails(m, segs, k, l - 1);
    }
  }

  /** For labels that decode with no negative start, `rseg_map` succeeds and
      is the table painted by the numbered pairs alone: label p holds the
      number of the last numbered pair whose range holds p, or 0. */
  lemma RsegMapPainted(inputs: seq<int>)
    requires inputs != [] && forall i :: 0 <= i < |inputs| ==> inputs[i] >= 0
    ensures RsegMapOf(inputs).Ok?
    ensures var segs := Decode(inputs);
      RsegMapOf(inputs).value == Painted(MaxOf(Ends(segs)) + 1, Counted(segs), true)
  {
    var segs := Decode(inputs);
    var n := DecodedBounds(inputs);
    var z := seq(if n < 0 then 0 else n, _ => 0);
    assert RsegMapOf(inputs) == match Numbered(z, segs, |segs|)
      case None => Err(IndexError)
      case Some(mc) => Ok(mc.0);
    NumberedPainted(n, z, segs, |segs|);
    assert segs[..|segs|] == segs;
  }

  /** Non-negative labels decode to non-negative starts and to ends below
      the table size. */
  lemma DecodedBounds(inputs: seq<int>) returns (n: nat)
    requires inputs != [] && forall i :: 0 <= i < |inputs| ==> inputs[i] >= 0
    ensures n == MaxOf(Ends(Decode(inputs))) + 1
    ensures forall k :: 0 <= k < |inputs| ==> 0 <= Decode(inputs)[k].0 && 0 <= Decode(inputs)[k].1 < n
  {
    var segs := Decode(inputs);
    var e := Ends(segs);
    assert e[0] in e;
    n := MaxOf(e) + 1;
    forall k | 0 <= k < |inputs| ensures 0 <= segs[k].0 && 0 <= segs[k].1 < n {
      assert e[k] == segs[k].1 && e[k] in e;
    }
  }

  lemma {:induction false} NumberedPainted(n: nat, z: seq<int>, segs: seq<(int, int)>, k: nat)
    requires |z| == n && forall i :: 0 <= i < n ==> z[i] == 0
    requires k <= |segs|
    requires forall i :: 0 <= i < |segs| ==> 0 <= segs[i].0 && 0 <= segs[i].1 < n
    ensures Numbered(z, segs, k) == Some((Painted(n, Counted(segs[..k]), true), |Counted(segs[..k])|))
  {
    if k == 0 {
      assert segs[..0] == [];
      assert Painted(n, [], true) == z;
    } else {
      NumberedPainted(n, z, segs, k - 1);
      var c := Counted(segs[..k - 1]);
      var s := segs[k - 1];
      CountedSnoc(segs, k);
      if s.0 != 0 && s.1 != 0 {
        NumberedPaintsNext(n, z, segs, k, c);
      } else {
        NumberedSkips(z, segs, k);
      }
    }
  }

  /** The step of NumberedPainted for a pair with both parts nonzero. */
  lemma NumberedPaintsNext(n: nat, z: seq<int>, segs: seq<(int, int)>, k: nat, c: seq<(int, int)>)
    requires 0 < k <= |segs| && 0 < segs[k - 1].0 && 0 < segs[k - 1].1 < n
    requires Numbered(z, segs, k - 1) == Some((Painted(n, c, true), |c|))
    requires Counted(segs[..k]) == c + [segs[k - 1]]
    ensures Numbered(z, segs, k) == Some((Painted(n, Counted(segs[..k]), true), |Counted(segs[..k])|))
  {
    var s := segs[k - 1];
    var m := Painted(n, c, true);
    PaintedSnoc(n, c, s);
    WriteRangeIsFill(m, s.0, s.1, |c| + 1);
    NumberedWrites(z, segs, k, m, |c|);
  }

  /** A pair with a zero part is skipped. */
  lemma NumberedSkips(m0: seq<int>, segs: seq<(int, int)>, k: nat)
    requires 0 < k <= |segs| && (segs[k - 1].0 == 0 || segs[k - 1].1 == 0)
    ensures Numbered(m0, segs, k) == Numbered(m0, segs, k - 1)
  {
  }

  /** The counted pairs of the first k: those of the first k-1, and pair
      k-1 when both its parts are nonzero. */
  lemma CountedSnoc(segs: seq<(int, int)>, k: nat)
    requires 0 < k <= |segs|
    ensures var s := segs[k - 1];
      Counted(segs[..k]) == if s.0 == 0 || s.1 == 0 then Counted(segs[..k - 1]) else Counted(segs[..k - 1]) + [s]
  {
    assert segs[..k][..k - 1] == segs[..k - 1];
  }

  /** A numbered pair k-1 writes its range with the next number. */
  lemma NumberedWrites(m0: seq<int>, segs: seq<(int, int)>, k: nat, m: seq<int>, count: nat)
    requires 0 < k <= |segs| && segs[k - 1].0 != 0 && segs[k - 1].1 != 0
    requires Numbered(m0, segs, k - 1) == Some((m, count))
    requires WriteRange(m, segs[k - 1].0, segs[k - 1].1, count + 1).Some?
    ensures Numbered(m0, segs, k) == Some((WriteRange(m, segs[k - 1].0, segs[k - 1].1, count + 1).value, count + 1))
  {
  }

  /** A numbered pair paints its range with its number over the earlier ones. */
  lemma PaintedSnoc(n: nat, c: seq<(int, int)>, s: (int, int))
    requires s.0 != 0 && s.1 != 0
    ensures Painted(n, c + [s], true) == Fill(Painted(n, c, true), s.0, s.1 + 1, |c| + 1)
  {
    assert (c + [s])[..|c|] == c;
    assert !Skipped(s, true);
  }
}
