/** Integer and sequence operations with Python's semantics where they
    differ from Dafny's: floor division, shifts and masks on packed
    segment ids, negative indexing, clipped slicing and sums. */
module PyOps {
  import opened Wrappers

  /** Python's `a // b` (rounds toward negative infinity). Dafny's `/` is
      Euclidean, which agrees with floor division only for b > 0. */
  function FloorDiv(a: int, b: int): (q: int)
    requires b != 0
    ensures b > 0 ==> q * b <= a < q * b + b
    ensures b < 0 ==> q * b + b < a <= q * b
  {
    if b > 0 then a / b else (-a) / (-b)
  }

  /** Python's `v >> 16`: floor division by 65536, also for negative v. */
  function Shr16(v: int): int { v / 65536 }

  /** Python's `v & 0xffff`: the low 16 bits, never negative. */
  function Low16(v: int): (r: int)
    ensures 0 <= r < 65536
  {
    v % 65536
  }

  /** The packed segment id `(start<<16)+end` written on every character transition. */
  function Pack(start: int, end: int): int { start * 65536 + end }

  /** `>>16` and `&0xffff` recover `(start, end)` from the packed id exactly
      when `end` fits in 16 bits: the packing is reversible. */
  lemma {:induction false} UnpackPack(start: int, end: int)
    requires 0 <= end < 65536
    ensures Shr16(Pack(start, end)) == start && Low16(Pack(start, end)) == end
  {
    var v := Pack(start, end);
    assert v == start * 65536 + end;
    assert v / 65536 == start && v % 65536 == end by {
      LemmaDivModUnique(v, 65536, start, end);
    }
  }

  /** If end does not fit in 16 bits the low half no longer gives it back. */
  lemma PackLosesWideEnd(start: int, end: int)
    requires end >= 65536
    ensures Low16(Pack(start, end)) != end
  {
  }

  lemma LemmaDivModUnique(a: int, d: int, q: int, r: int)
    requires d > 0 && 0 <= r < d && a == q * d + r
    ensures a / d == q && a % d == r
  {
    var q', r' := a / d, a % d;
    assert a == q' * d + r' && 0 <= r' < d;
    assert (q - q') * d == r' - r;
    LemmaSmallMultiple(q - q', d);
  }

  lemma LemmaSmallMultiple(k: int, d: int)
    requires d > 0 && -d < k * d < d
    ensures k == 0
  {
  }

  /** Python list indexing `s[i]`: negative indices count from the end;
      an index outside `-|s| <= i < |s|` raises IndexError. */
  function PyAt<T>(s: seq<T>, i: int): (r: Option<T>)
    ensures r.Some? <==> -|s| <= i < |s|
    ensures 0 <= i < |s| ==> r == Some(s[i])
    ensures -|s| <= i < 0 ==> r == Some(s[|s| + i])
  {
    if 0 <= i < |s| then Some(s[i])
    else if -|s| <= i < 0 then Some(s[|s| + i])
    else None
  }

  /** The position that Python indexing `s[i]` touches in a sequence of length n. */
  function PyIndex(i: int, n: nat): (r: Option<nat>)
    ensures r.Some? <==> -(n as int) <= i < n
    ensures r.Some? ==> r.value < n && (r.value == i || r.value == n + i)
  {
    if 0 <= i < n then Some(i)
    else if -(n as int) <= i < 0 then Some(n + i)
    else None
  }

  /** Python slicing `s[a:b]` for non-negative bounds: bounds are clipped
      to the length, and an empty slice results when a >= b. */
  function Slice<T>(s: seq<T>, a: nat, b: nat): (r: seq<T>)
    ensures b <= |s| && a <= b ==> r == s[a..b]
    ensures |r| <= |s|
  {
    var hi := if b < |s| then b else |s|;
    var lo := if a < hi then a else hi;
    s[lo..hi]
  }

  function Sum(s: seq<int>): int
  {
    if s == [] then 0 else Sum(s[..|s| - 1]) + s[|s| - 1]
  }

  lemma {:induction false} SumAppend(s: seq<int>, t: seq<int>)
    ensures Sum(s + t) == Sum(s) + Sum(t)
  {
    if t == [] {
      assert s + t == s;
    } else {
      assert (s + t)[..|s + t| - 1] == s + t[..|t| - 1];
      SumAppend(s, t[..|t| - 1]);
    }
  }

  function MaxOf(s: seq<int>): (m: int)
    requires |s| > 0
    ensures m in s && forall x :: x in s ==> x <= m
  {
    if |s| == 1 then s[0]
    else
      var m := MaxOf(s[..|s| - 1]);
      assert forall x :: x in s ==> x in s[..|s| - 1] || x == s[|s| - 1];
      if s[|s| - 1] > m then s[|s| - 1] else m
  }

  function MinOf(s: seq<int>): (m: int)
    requires |s| > 0
    ensures m in s && forall x :: x in s ==> m <= x
  {
    if |s| == 1 then s[0]
    else
      var m := MinOf(s[..|s| - 1]);
      assert forall x :: x in s ==> x in s[..|s| - 1] || x == s[|s| - 1];
      if s[|s| - 1] < m then s[|s| - 1] else m
  }

  function Min(a: int, b: int): int { if a <= b then a else b }
  function Max(a: int, b: int): int { if a >= b then a else b }
}
