/** Text as the sources handle it: strings as sequences of code points,
    Python's `str.split()` and `str.split(":")`, `%d` and `%.4f`
    formatting, and `int()` / `float()` parsing.

    Costs are fixed-point integers in units of 1e-4, so that `%.4f`
    prints a cost exactly and `float()` of that text gives it back. */
module Text {
  import opened Wrappers

  /** A Unicode code point; `unichr` accepts exactly these (surrogates included). */
  type CodePoint = c: int | 0 <= c < 0x110000

  type Text = seq<CodePoint>

  /** A cost in units of 1e-4: the value 1000.0 is 10_000_000. */
  type Cost = int

  const Unit: Cost := 10000

  /** The code points of a string literal. */
  function Lit(s: string): (t: Text)
    ensures |t| == |s|
    ensures forall i :: 0 <= i < |s| ==> t[i] == s[i] as int
  {
    seq(|s|, i requires 0 <= i < |s| => s[i] as int)
  }

  const Tab: CodePoint := 9
  const Newline: CodePoint := 10
  const Space: CodePoint := 32
  const Plus: CodePoint := 43
  const Minus: CodePoint := 45
  const Dot: CodePoint := 46
  const Colon: CodePoint := 58

  /** The characters Python 2's `str.split()` treats as whitespace. */
  predicate IsSpace(c: CodePoint)
  {
    c == 32 || c == 9 || c == 10 || c == 11 || c == 12 || c == 13
  }

  predicate NoSpace(t: Text)
  {
    forall i :: 0 <= i < |t| ==> !IsSpace(t[i])
  }

  predicate AllSpace(t: Text)
  {
    forall i :: 0 <= i < |t| ==> IsSpace(t[i])
  }

  predicate IsDigit(c: CodePoint) { 48 <= c <= 57 }

  predicate AllDigits(t: Text)
  {
    forall i :: 0 <= i < |t| ==> IsDigit(t[i])
  }

  // ---------------------------------------------------------------
  // str.split() and str.split(":")
  // ---------------------------------------------------------------

  /** Length of the longest non-whitespace prefix. */
  function TokenLen(t: Text): (n: nat)
    ensures n <= |t| && NoSpace(t[..n])
    ensures n < |t| ==> IsSpace(t[n])
  {
    if t == [] || IsSpace(t[0]) then 0
    else
      var n := 1 + TokenLen(t[1..]);
      assert t[..n] == [t[0]] + t[1..][..n - 1];
      n
  }

  /** Python's `t.split()`: the maximal runs of non-whitespace, in order. */
  function Split(t: Text): (r: seq<Text>)
    ensures forall k :: 0 <= k < |r| ==> r[k] != [] && NoSpace(r[k])
    decreases |t|
  {
    if t == [] then []
    else if IsSpace(t[0]) then Split(t[1..])
    else
      var n := TokenLen(t);
      [t[..n]] + Split(t[n..])
  }

  lemma {:induction false} SplitSpaces(sep: Text, rest: Text)
    requires AllSpace(sep)
    ensures Split(sep + rest) == Split(rest)
    decreases |sep|
  {
    if sep == [] {
      assert sep + rest == rest;
    } else {
      assert (sep + rest)[0] == sep[0];
      assert (sep + rest)[1..] == sep[1..] + rest;
      SplitSpaces(sep[1..], rest);
    }
  }

  lemma {:induction false} TokenLenOf(tok: Text, rest: Text)
    requires NoSpace(tok)
    requires rest == [] || IsSpace(rest[0])
    ensures TokenLen(tok + rest) == |tok|
    decreases |tok|
  {
    if tok != [] {
      assert (tok + rest)[1..] == tok[1..] + rest;
      TokenLenOf(tok[1..], rest);
    }
  }

  /** A non-empty token followed by end-of-text or whitespace is the first field. */
  lemma SplitToken(tok: Text, rest: Text)
    requires tok != [] && NoSpace(tok)
    requires rest == [] || IsSpace(rest[0])
    ensures Split(tok + rest) == [tok] + Split(rest)
  {
    TokenLenOf(tok, rest);
    assert (tok + rest)[..|tok|] == tok;
    assert (tok + rest)[|tok|..] == rest;
  }

  /** Python's `t.split(c)`: the pieces between occurrences of c, empty ones included. */
  function SplitOn(t: Text, c: CodePoint): (r: seq<Text>)
    ensures |r| >= 1
    decreases |t|
  {
    if t == [] then [[]]
    else
      var r := SplitOn(t[1..], c);
      if t[0] == c then [[]] + r else [[t[0]] + r[0]] + r[1..]
  }

  lemma {:induction false} SplitOnNone(a: Text, c: CodePoint)
    requires c !in a
    ensures SplitOn(a, c) == [a]
    decreases |a|
  {
    if a != [] {
      SplitOnNone(a[1..], c);
      assert a == [a[0]] + a[1..];
    }
  }

  lemma {:induction false} SplitOnCons(a: Text, c: CodePoint, b: Text)
    requires c !in a
    ensures SplitOn(a + [c] + b, c) == [a] + SplitOn(b, c)
    decreases |a|
  {
    if a == [] {
      assert a + [c] + b == [c] + b;
      assert ([c] + b)[1..] == b;
    } else {
      assert (a + [c] + b)[1..] == a[1..] + [c] + b;
      SplitOnCons(a[1..], c, b);
      assert a == [a[0]] + a[1..];
    }
  }

  /** Separators the formats write between fields: tabs and spaces, at least one. */
  predicate Blank(t: Text)
  {
    t != [] && forall i :: 0 <= i < |t| ==> t[i] == Tab || t[i] == Space
  }

  /** Fields joined by the given separators: toks[0] + seps[0] + toks[1] + ... */
  function Join(toks: seq<Text>, seps: seq<Text>): Text
    requires |toks| >= 1 && |seps| == |toks| - 1
  {
    if |toks| == 1 then toks[0] else toks[0] + seps[0] + Join(toks[1..], seps[1..])
  }

  predicate Tokens(toks: seq<Text>)
  {
    forall k :: 0 <= k < |toks| ==> toks[k] != [] && NoSpace(toks[k])
  }

  /** Splitting a line of non-empty fields joined by blanks gives back the fields. */
  lemma {:induction false} SplitJoin(toks: seq<Text>, seps: seq<Text>)
    requires |toks| >= 1 && |seps| == |toks| - 1
    requires Tokens(toks) && forall k :: 0 <= k < |seps| ==> Blank(seps[k])
    ensures Split(Join(toks, seps)) == toks
    decreases |toks|
  {
    if |toks| == 1 {
      SplitToken(toks[0], []);
      assert toks[0] + [] == toks[0];
    } else {
      var rest := Join(toks[1..], seps[1..]);
      SplitJoin(toks[1..], seps[1..]);
      assert seps[0][0] == Tab || seps[0][0] == Space;
      assert (seps[0] + rest)[0] == seps[0][0];
      SplitToken(toks[0], seps[0] + rest);
      assert toks[0] + seps[0] + rest == toks[0] + (seps[0] + rest);
      SplitSpaces(seps[0], rest);
      assert toks == [toks[0]] + toks[1..];
    }
  }

  lemma {:induction false} JoinNoNewline(toks: seq<Text>, seps: seq<Text>)
    requires |toks| >= 1 && |seps| == |toks| - 1
    requires Tokens(toks) && forall k :: 0 <= k < |seps| ==> Blank(seps[k])
    ensures Newline !in Join(toks, seps)
    decreases |toks|
  {
    assert IsSpace(Newline);
    if |toks| > 1 {
      JoinNoNewline(toks[1..], seps[1..]);
      assert Newline !in toks[0] && Newline !in seps[0];
    }
  }

  // ---------------------------------------------------------------
  // readlines()
  // ---------------------------------------------------------------

  /** Python's `readlines()`: each line keeps its newline; a last piece without one
      is a line too. */
  function ReadLines(t: Text): seq<Text>
    decreases |t|
  {
    if t == [] then []
    else
      var k := Find(t, Newline);
      if k == |t| then [t] else [t[..k + 1]] + ReadLines(t[k + 1..])
  }

  function Concat(lines: seq<Text>): Text
  {
    if lines == [] then [] else lines[0] + Concat(lines[1..])
  }

  /** A line of the text formats: a body without newline, then a newline. */
  predicate IsLine(line: Text)
  {
    |line| >= 1 && line[|line| - 1] == Newline && Newline !in line[..|line| - 1]
  }

  /** `readlines()` of written lines gives back those lines. */
  lemma {:induction false} ReadLinesConcat(lines: seq<Text>)
    requires forall k :: 0 <= k < |lines| ==> IsLine(lines[k])
    ensures ReadLines(Concat(lines)) == lines
    decreases |lines|
  {
    if lines != [] {
      var l := lines[0];
      var rest := Concat(lines[1..]);
      var body := l[..|l| - 1];
      assert l == body + [Newline];
      assert Concat(lines) == body + [Newline] + rest;
      FindAfter(body, Newline, rest);
      assert (body + [Newline] + rest)[..|body| + 1] == l;
      assert (body + [Newline] + rest)[|body| + 1..] == rest;
      ReadLinesConcat(lines[1..]);
      assert lines == [l] + lines[1..];
    }
  }

  // ---------------------------------------------------------------
  // %d and int()
  // ---------------------------------------------------------------

  function Digit(d: nat): (c: CodePoint)
    requires d < 10
  {
    48 + d
  }

  /** The decimal digits of n, most significant first, without leading zeros. */
  function Digits(n: nat): (t: Text)
    ensures t != [] && AllDigits(t)
  {
    if n < 10 then [Digit(n)] else Digits(n / 10) + [Digit(n % 10)]
  }

  /** `"%d" % n` */
  function FormatInt(n: int): (t: Text)
    ensures t != [] && NoSpace(t) && Colon !in t && Dot !in t
  {
    var t := if n < 0 then [Minus] + Digits(-n) else Digits(n);
    assert forall i :: 0 <= i < |t| ==> t[i] == Minus || IsDigit(t[i]);
    t
  }

  /** The spaces `%4d` puts before n. */
  function Padding4(n: int): (t: Text)
    ensures forall i :: 0 <= i < |t| ==> t[i] == Space
  {
    var d := FormatInt(n);
    if |d| < 4 then seq(4 - |d|, _ => Space) else []
  }

  /** `"%4d" % n`: right-aligned in a field of width 4. */
  function FormatInt4(n: int): (t: Text)
    ensures var d := FormatInt(n);
      && |t| == (if |d| < 4 then 4 else |d|)
      && t[|t| - |d|..] == d
      && forall i :: 0 <= i < |t| - |d| ==> t[i] == Space
  {
    Padding4(n) + FormatInt(n)
  }

  /** The value of a run of decimal digits (0 for the empty run). */
  function DigitsValue(t: Text): (v: nat)
    requires AllDigits(t)
  {
    if t == [] then 0 else DigitsValue(t[..|t| - 1]) * 10 + (t[|t| - 1] - 48)
  }

  lemma {:induction false} DigitsValueOf(n: nat)
    ensures DigitsValue(Digits(n)) == n
  {
    if n >= 10 {
      var t := Digits(n);
      assert t[..|t| - 1] == Digits(n / 10);
      DigitsValueOf(n / 10);
    }
  }

  /** Python's `int(t)` on one field: an optional sign and at least one digit. */
  function ParseInt(t: Text): (r: Result<int>)
  {
    if |t| > 0 && (t[0] == Minus || t[0] == Plus) then
      if |t| > 1 && AllDigits(t[1..]) then
        Ok(if t[0] == Minus then -(DigitsValue(t[1..]) as int) else DigitsValue(t[1..]))
      else Err(ValueError)
    else if |t| > 0 && AllDigits(t) then Ok(DigitsValue(t))
    else Err(ValueError)
  }

  /** `int("%d" % n) == n` */
  lemma ParseFormatInt(n: int)
    ensures ParseInt(FormatInt(n)) == Ok(n)
  {
    var t := FormatInt(n);
    if n < 0 {
      var d := Digits(-n);
      assert t == [Minus] + d;
      assert t[1..] == d;
      DigitsValueOf(-n);
      assert ParseInt(t) == Ok(-(DigitsValue(d) as int));
    } else {
      assert t == Digits(n);
      assert IsDigit(t[0]);
      DigitsValueOf(n);
      assert ParseInt(t) == Ok(DigitsValue(t));
    }
  }

  // ---------------------------------------------------------------
  // %.4f and float()
  // ---------------------------------------------------------------

  /** The w low decimal digits of r, with leading zeros. */
  function PadDigits(r: nat, w: nat): (t: Text)
    ensures |t| == w && AllDigits(t)
  {
    if w == 0 then [] else PadDigits(r / 10, w - 1) + [Digit(r % 10)]
  }

  /** Four digits with leading zeros: the fraction part of `%.4f`. */
  function Pad4(r: nat): (t: Text)
    ensures |t| == 4 && AllDigits(t)
  {
    PadDigits(r, 4)
  }

  function UnsignedFixed(m: nat): Text
  {
    Digits(m / Unit) + [Dot] + Pad4(m % Unit)
  }

  /** `"%.4f" % (c / 10000.0)` for a fixed-point cost c. */
  function FormatFixed(c: Cost): (t: Text)
    ensures t != [] && NoSpace(t)
  {
    var t := if c < 0 then [Minus] + UnsignedFixed(-c) else UnsignedFixed(c);
    assert forall i :: 0 <= i < |t| ==> t[i] == Minus || t[i] == Dot || IsDigit(t[i]);
    t
  }

  /** Index of the first occurrence of c, or |t| when there is none. */
  function Find(t: Text, c: CodePoint): (k: nat)
    ensures k <= |t| && c !in t[..k]
    ensures k < |t| ==> t[k] == c
  {
    if t == [] || t[0] == c then 0
    else
      var k := 1 + Find(t[1..], c);
      assert t[..k] == [t[0]] + t[1..][..k - 1];
      k
  }

  function Pow10(e: nat): nat
  {
    if e == 0 then 1 else 10 * Pow10(e - 1)
  }

  /** `float(t)` without sign, as fixed point: digits, an optional point and
      at most four fraction digits, with at least one digit in all. */
  function ParseUnsignedFixed(t: Text): Result<nat>
  {
    var k := Find(t, Dot);
    var ip := t[..k];
    var fp := if k < |t| then t[k + 1..] else [];
    if (ip == [] && fp == []) || !AllDigits(ip) || !AllDigits(fp) || |fp| > 4 then Err(ValueError)
    else Ok(DigitsValue(ip) * Unit + DigitsValue(fp) * Pow10(4 - |fp|))
  }

  /** Python's `float(t)` for the decimal forms that `%.4f` writes. */
  function ParseFixed(t: Text): Result<Cost>
  {
    if |t| > 0 && (t[0] == Minus || t[0] == Plus) then
      match ParseUnsignedFixed(t[1..])
      case Ok(m) => Ok(if t[0] == Minus then -(m as int) else m)
      case Err(e) => Err(e)
    else ParseUnsignedFixed(t)
  }

  lemma {:induction false} ParseUnsignedFixedOf(m: nat)
    ensures ParseUnsignedFixed(UnsignedFixed(m)) == Ok(m)
  {
    var d := Digits(m / Unit);
    var t := UnsignedFixed(m);
    assert t == d + [Dot] + Pad4(m % Unit);
    assert Dot !in d;
    assert Find(t, Dot) == |d| by { FindAfter(d, Dot, Pad4(m % Unit)); }
    assert t[..|d|] == d;
    assert t[|d| + 1..] == Pad4(m % Unit);
    DigitsValueOf(m / Unit);
    Pad4Value(m % Unit);
  }

  lemma {:induction false} FindAfter(a: Text, c: CodePoint, b: Text)
    requires c !in a
    ensures Find(a + [c] + b, c) == |a|
    decreases |a|
  {
    if a != [] {
      assert (a + [c] + b)[1..] == a[1..] + [c] + b;
      FindAfter(a[1..], c, b);
    }
  }

  lemma {:induction false} PadDigitsValue(r: nat, w: nat)
    requires r < Pow10(w)
    ensures DigitsValue(PadDigits(r, w)) == r
  {
    if w > 0 {
      var t := PadDigits(r, w);
      assert t[..|t| - 1] == PadDigits(r / 10, w - 1);
      PadDigitsValue(r / 10, w - 1);
    }
  }

  lemma Pad4Value(r: nat)
    requires r < 10000
    ensures DigitsValue(Pad4(r)) == r
  {
    assert Pow10(4) == 10000;
    PadDigitsValue(r, 4);
  }

  /** `float("%.4f" % x) == x` for every fixed-point cost. */
  lemma ParseFormatFixed(c: Cost)
    ensures ParseFixed(FormatFixed(c)) == Ok(c)
  {
    if c < 0 {
      ParseFormatNegative(c);
    } else {
      ParseFormatNonNegative(c);
    }
  }

  lemma ParseFixedMinus(u: Text, m: nat)
    requires ParseUnsignedFixed(u) == Ok(m)
    ensures ParseFixed([Minus] + u) == Ok(-(m as int))
  {
    assert ([Minus] + u)[1..] == u;
  }

  lemma ParseFormatNegative(c: Cost)
    requires c < 0
    ensures ParseFixed(FormatFixed(c)) == Ok(c)
  {
    ParseUnsignedFixedOf(-c);
    ParseFixedMinus(UnsignedFixed(-c), -c);
    assert FormatFixed(c) == [Minus] + UnsignedFixed(-c);
  }

  lemma ParseFormatNonNegative(c: Cost)
    requires c >= 0
    ensures ParseFixed(FormatFixed(c)) == Ok(c)
  {
    var t := FormatFixed(c);
    assert t == UnsignedFixed(c);
    assert t[0] == Digits(c / Unit)[0];
    ParseUnsignedFixedOf(c);
  }
}
