/** The small string and list helpers of ocrolib/common.py: splitting a
    path into base and extensions, the ground-truth suffix of a file name
    and the file-variant naming rules, class-label validation, the
    histogram `chist`, and `rect_union`. */
module CommonHelpers {
  import opened Wrappers
  import opened Text
  import opened Sorting
  import opened PyOps

  const Slash: CodePoint := 47

  // ---------------------------------------------------------------
  // allsplitext
  // ---------------------------------------------------------------

  /** The index of the last occurrence of c, or -1 when there is none. */
  function LastIndex(t: Text, c: CodePoint): (k: int)
    ensures -1 <= k < |t|
    ensures k >= 0 ==> t[k] == c
    ensures forall m :: k < m < |t| ==> t[m] != c
  {
    if t == [] then -1
    else if t[|t| - 1] == c then |t| - 1
    else LastIndex(t[..|t| - 1], c)
  }

  /** The last occurrence is the one with no occurrence after it. */
  lemma {:induction false} LastIndexIs(t: Text, c: CodePoint, k: int)
    requires -1 <= k < |t| && (k >= 0 ==> t[k] == c)
    requires forall m :: k < m < |t| ==> t[m] != c
    ensures LastIndex(t, c) == k
  {
    if t != [] && k < |t| - 1 {
      var u := t[..|t| - 1];
      assert forall m :: k < m < |u| ==> u[m] == t[m];
      LastIndexIs(u, c, k);
    }
  }

  /** The last occurrence does not move when text after it is cut off. */
  lemma LastIndexPrefix(p: Text, c: CodePoint, d: int)
    requires LastIndex(p, c) < d <= |p|
    ensures LastIndex(p[..d], c) == LastIndex(p, c)
  {
    var k := LastIndex(p, c);
    var u := p[..d];
    assert forall m :: k < m < |u| ==> u[m] == p[m];
    assert k >= 0 ==> u[k] == p[k];
    LastIndexIs(u, c, k);
  }

  /** The last path component of t (after its last '/') holds no '.'. */
  predicate DotlessTail(t: Text)
  {
    forall i :: LastIndex(t, Slash) < i < |t| ==> t[i] != Dot
  }

  /** Where `allsplitext` cuts p: at the first '.' after the last '/', or at the end. */
  function ExtStart(p: Text): (d: nat)
    ensures LastIndex(p, Slash) < d <= |p|
    ensures forall i :: LastIndex(p, Slash) < i < d ==> p[i] != Dot
    ensures d < |p| ==> p[d] == Dot
  {
    var s := LastIndex(p, Slash) + 1;
    var k := Find(p[s..], Dot);
    assert forall i :: s <= i < s + k ==> p[i] == p[s..][..k][i - s];
    s + k
  }

  /** `allsplitext`: the path up to the first '.' after its last '/', and the
      rest, as "a/b.c.d" gives "a/b" and ".c.d". The pattern always matches,
      so the source's no-match branch is never taken. */
  function AllSplitExt(p: Text): (r: (Text, Text))
    ensures r.0 + r.1 == p
    ensures DotlessTail(r.0)
    ensures r.1 == [] || r.1[0] == Dot
    ensures forall i :: 0 <= i < |r.1| ==> r.1[i] != Slash
  {
    var d := ExtStart(p);
    AllSplitExtParts(p, d);
    (p[..d], p[d..])
  }

  /** The two parts of `allsplitext` at the cut d. */
  lemma AllSplitExtParts(p: Text, d: nat)
    requires LastIndex(p, Slash) < d <= |p|
    requires forall i :: LastIndex(p, Slash) < i < d ==> p[i] != Dot
    requires d < |p| ==> p[d] == Dot
    ensures p[..d] + p[d..] == p
    ensures DotlessTail(p[..d])
    ensures p[d..] == [] || p[d..][0] == Dot
    ensures forall i :: 0 <= i < |p[d..]| ==> p[d..][i] != Slash
  {
    var s := LastIndex(p, Slash);
    LastIndexPrefix(p, Slash, d);
    assert forall i :: s < i < |p[..d]| ==> p[..d][i] != Dot;
    NoneAfter(p, Slash, s, d);
  }

  /** A character absent after index s is absent from every tail that
      starts after s. */
  lemma NoneAfter(p: Text, c: CodePoint, s: int, d: int)
    requires -1 <= s < d <= |p|
    requires forall m :: s < m < |p| ==> p[m] != c
    ensures forall i :: 0 <= i < |p[d..]| ==> p[d..][i] != c
  {
    forall i | 0 <= i < |p[d..]| ensures p[d..][i] != c {
      assert p[d..][i] == p[d + i];
    }
  }

  /** The split is unique: a base whose last component has no '.', followed
      by extensions that are empty or start with '.' and hold no '/', is
      exactly what `allsplitext` returns for their concatenation. */
  lemma {:induction false} AllSplitExtOf(base: Text, ext: Text)
    requires DotlessTail(base)
    requires ext == [] || ext[0] == Dot
    requires forall i :: 0 <= i < |ext| ==> ext[i] != Slash
    ensures AllSplitExt(base + ext) == (base, ext)
  {
    var p := base + ext;
    var s := LastIndex(base, Slash);
    LastIndexIs(p, Slash, s);
    var d := ExtStart(p);
    assert forall i :: 0 <= i < |base| ==> p[i] == base[i];
    assert ext != [] ==> p[|base|] == ext[0];
    assert d == |base|;
    assert p[..d] == base && p[d..] == ext;
  }

  /** The example of the source's documentation. */
  lemma AllSplitExtExample()
    ensures AllSplitExt(Lit("a/b.c.d")) == (Lit("a/b"), Lit(".c.d"))
  {
    var base, ext := Lit("a/b"), Lit(".c.d");
    assert Lit("a/b.c.d") == base + ext;
    LastIndexIs(base, Slash, 1);
    AllSplitExtOf(base, ext);
  }

  // ---------------------------------------------------------------
  // gtext
  // ---------------------------------------------------------------

  predicate EndsWith(t: Text, suf: Text)
  {
    |suf| <= |t| && t[|t| - |suf|..] == suf
  }

  /** What `[^./]+` matches: a non-empty text with no '.' and no '/'. */
  predicate Suffix(g: Text)
  {
    g != [] && forall i :: 0 <= i < |g| ==> g[i] != Dot && g[i] != Slash
  }

  /** `\.([^./]+)` matched up to the end of s: the text before the last '.'
      of s and the segment after it, when that segment is a `Suffix`. */
  function DotSegment(s: Text): (r: Option<(Text, Text)>)
    ensures r.Some? ==> s == r.value.0 + [Dot] + r.value.1 && Suffix(r.value.1)
  {
    var k := LastIndex(s, Dot);
    if k < 0 then None
    else
      var g := s[k + 1..];
      if g == [] || Slash in g then None
      else
        assert s == s[..k] + [Dot] + g;
        assert forall i :: 0 <= i < |g| ==> g[i] == s[k + 1 + i];
        Some((s[..k], g))
  }

  lemma DotSegmentOf(a: Text, g: Text)
    requires Suffix(g)
    ensures DotSegment(a + [Dot] + g) == Some((a, g))
  {
    var s := a + [Dot] + g;
    LastIndexIs(s, Dot, |a|);
    assert s[|a| + 1..] == g && s[..|a|] == a;
    assert Slash !in g by {
      forall i | 0 <= i < |g| ensures g[i] != Slash { }
    }
  }

  /** A base from `allsplitext` has no `\.([^./]+)` at its end: any '.' in it
      lies before its last '/'. */
  lemma DotSegmentOfBase(base: Text)
    requires DotlessTail(base)
    ensures DotSegment(base).None?
  {
    var k := LastIndex(base, Dot);
    var sl := LastIndex(base, Slash);
    if k >= 0 {
      assert k < sl;
      assert base[k + 1..][sl - k - 1] == Slash;
    }
  }

  /** Nor does it end with any text that starts with '.' and holds no '/'. */
  lemma NoDottedEnd(base: Text, e: Text)
    requires DotlessTail(base)
    requires |e| > 0 && e[0] == Dot && forall i :: 0 <= i < |e| ==> e[i] != Slash
    ensures !EndsWith(base, e)
  {
    if |e| <= |base| {
      var k := |base| - |e|;
      var li := LastIndex(base, Slash);
      assert base[k] == base[k..][0];
      assert forall m :: k <= m < |base| ==> base[m] == base[k..][m - k];
      assert li >= k ==> base[li] == base[k..][li - k];
    }
  }

  /** A longer suffix can only match where its own end matches. */
  lemma EndsWithEnd(t: Text, a: Text, b: Text)
    requires EndsWith(t, a + b)
    ensures EndsWith(t, b)
  {
    assert t[|t| - |b|..] == t[|t| - |a + b|..][|a|..];
  }

  /** Whether t + e ends with suf only depends on e when suf is no longer than e. */
  lemma EndsWithAppend(t: Text, e: Text, suf: Text)
    requires |suf| <= |e|
    ensures EndsWith(t + e, suf) <==> EndsWith(e, suf)
  {
    assert (t + e)[|t + e| - |suf|..] == e[|e| - |suf|..];
  }

  /** The text has no '/'. */
  predicate NoSlash(t: Text)
  {
    forall i :: 0 <= i < |t| ==> t[i] != Slash
  }

  /** Whether t + e ends with s + e only depends on whether t ends with s. */
  lemma EndsWithStrip(t: Text, s: Text, e: Text)
    ensures EndsWith(t + e, s + e) <==> EndsWith(t, s)
  {
    if |s| <= |t| {
      var u := t[|t| - |s|..];
      assert (t + e)[|t + e| - |s + e|..] == u + e;
      assert (u + e)[..|s|] == u;
      assert (s + e)[..|s|] == s;
    }
  }

  // The names the patterns and the variant rules spell out, as code points.
  const Png: Text := [112, 110, 103]              // png
  const Rseg: Text := [114, 115, 101, 103]        // rseg
  const Cseg: Text := [99, 115, 101, 103]         // cseg
  const Costs: Text := [99, 111, 115, 116, 115]   // costs
  const Fst: Text := [102, 115, 116]              // fst
  const Txt: Text := [116, 120, 116]              // txt
  const Line: Text := [108, 105, 110, 101]        // line

  /** The extension ".name". */
  function Ext(name: Text): Text
  {
    [Dot] + name
  }

  lemma NamesAreSuffixes()
    ensures Suffix(Png) && Suffix(Rseg) && Suffix(Cseg) && Suffix(Costs) && Suffix(Fst) && Suffix(Txt)
  {
  }

  /** Ext(name) for a name without '.' or '/' holds no '/'. */
  lemma ExtNoSlash(name: Text)
    requires Suffix(name)
    ensures NoSlash(Ext(name))
  {
    assert forall i :: 1 <= i < |Ext(name)| ==> Ext(name)[i] == name[i - 1];
  }

  predicate SegName(n: Text) { n == Rseg || n == Cseg }

  /** The extensions of the third pattern. */
  predicate GtExtension(e: Text) { e == Png || e == Costs || e == Fst || e == Txt }

  /** The name ends with ".rseg.png" or ".cseg.png". */
  predicate SegPng(f: Text)
  {
    EndsWith(f, Ext(Rseg) + Ext(Png)) || EndsWith(f, Ext(Cseg) + Ext(Png))
  }

  /** `\.(rseg|cseg)\.([^./]+)\.png$` */
  function SegSuffixMatch(f: Text): Option<Text>
  {
    if !EndsWith(f, Ext(Png)) then None
    else match DotSegment(f[..|f| - 4])
      case None => None
      case Some(ag) =>
        if EndsWith(ag.0, Ext(Rseg)) || EndsWith(ag.0, Ext(Cseg)) then Some(ag.1) else None
  }

  /** `\.([^./]+)\.(rseg|cseg)\.png$` */
  function SuffixSegMatch(f: Text): Option<Text>
  {
    if !SegPng(f) then None
    else match DotSegment(f[..|f| - 9])
      case None => None
      case Some(ag) => Some(ag.1)
  }

  /** `\.([^./]+)\.(png|costs|fst|txt)$`: the extension has no '.', so it is
      everything after the last '.'. */
  function SuffixExtMatch(f: Text): Option<Text>
  {
    var k := LastIndex(f, Dot);
    if k < 0 || !GtExtension(f[k + 1..]) then None
    else match DotSegment(f[..k])
      case None => None
      case Some(ag) => Some(ag.1)
  }

  /** `gtext` as written: the three patterns in order, or "". */
  function GtextAsWritten(f: Text): Text
  {
    match SegSuffixMatch(f)
    case Some(g) => g
    case None =>
      match SuffixSegMatch(f)
      case Some(g) => g
      case None =>
        match SuffixExtMatch(f)
        case Some(g) => g
        case None => []
  }

  /** `gtext` as intended: a plain `.rseg.png` / `.cseg.png` name has no
      ground-truth suffix, so the third pattern must not read "rseg" or
      "cseg" as one. */
  function Gtext(f: Text): Text
  {
    match SegSuffixMatch(f)
    case Some(g) => g
    case None =>
      match SuffixSegMatch(f)
      case Some(g) => g
      case None =>
        if SegPng(f) then []
        else match SuffixExtMatch(f)
          case Some(g) => g
          case None => []
  }

  /** The two definitions differ only on names ending in `.rseg.png` or `.cseg.png`. */
  lemma GtextAgrees(f: Text)
    requires !SegPng(f)
    ensures Gtext(f) == GtextAsWritten(f)
  {
  }

  // ---------------------------------------------------------------
  // fvariant
  // ---------------------------------------------------------------

  /** The kinds `fvariant` knows. */
  predicate Kind(kind: Text)
  {
    kind == Line || kind == Png || kind == Rseg || kind == Cseg || kind == Costs || kind == Fst || kind == Txt
  }

  /** The name of variant `kind` of base with the (already dotted) suffix gt,
      or the exception for an unknown kind. */
  function VariantName(base: Text, kind: Text, gt: Text): (r: Result<Text>)
    ensures r.Ok? <==> Kind(kind)
    ensures r.Err? ==> r.error == UnknownKind
  {
    if kind == Line || kind == Png then Ok(base + gt + Ext(Png))
    else if kind == Rseg then Ok(base + Ext(Rseg) + gt + Ext(Png))
    else if kind == Cseg then Ok(base + Ext(Cseg) + gt + Ext(Png))
    else if kind == Costs then Ok(base + gt + Ext(Costs))
    else if kind == Fst then Ok(base + gt + Ext(Fst))
    else if kind == Txt then Ok(base + gt + Ext(Txt))
    else Err(UnknownKind)
  }

  /** A suffix with its separating '.', or nothing for the empty suffix. */
  function Dotted(g: Text): Text
  {
    if g == [] then [] else [Dot] + g
  }

  /** `fvariant` as written: an explicit gt gets its '.', but the default one
      taken from `gtext` does not. */
  function FvariantAsWritten(fname: Text, kind: Text, gt: Option<Text>): Result<Text>
  {
    var g := match gt case None => GtextAsWritten(fname) case Some(x) => Dotted(x);
    VariantName(AllSplitExt(fname).0, kind, g)
  }

  /** `fvariant` as intended: the suffix is dotted whichever way it was given,
      and the default is the intended `Gtext`. */
  function Fvariant(fname: Text, kind: Text, gt: Option<Text>): Result<Text>
  {
    var g := match gt case None => Gtext(fname) case Some(x) => x;
    VariantName(AllSplitExt(fname).0, kind, Dotted(g))
  }

  /** A suffix a variant name can carry and give back: empty, or a `Suffix`
      other than "rseg" and "cseg" (with those, the png variant of a
      ground-truth file and the plain rseg/cseg variant have the same name). */
  predicate CarriedSuffix(g: Text)
  {
    g == [] || (Suffix(g) && g != Rseg && g != Cseg)
  }

  /** A suffix directly in front of ".rseg" or ".cseg" at the end of a text is that name. */
  lemma SuffixBeforeSeg(base: Text, g: Text, seg: Text)
    requires Suffix(g) && DotlessTail(base) && SegName(seg)
    requires EndsWith(base + [Dot] + g, Ext(seg))
    ensures g == seg
  {
    var t := base + [Dot] + g;
    var k := |t| - 5;
    assert t[|base|] == Dot;
    forall m | |base| < m < |t| ensures t[m] != Dot {
      assert t[m] == g[m - |base| - 1];
    }
    LastIndexIs(t, Dot, |base|);
    var e := t[k..];
    assert e == Ext(seg);
    forall m | k < m < |t| ensures t[m] != Dot {
      assert t[m] == e[m - k];
    }
    assert t[k] == e[0] == Dot;
    LastIndexIs(t, Dot, k);
    assert g == t[|t| - 4..] == Ext(seg)[1..] == seg;
  }

  lemma SegSuffixOf(a: Text, seg: Text, g: Text)
    requires SegName(seg) && Suffix(g)
    ensures SegSuffixMatch(a + Ext(seg) + Dotted(g) + Ext(Png)) == Some(g)
  {
    var f := a + Ext(seg) + Dotted(g) + Ext(Png);
    assert f[..|f| - 4] == (a + Ext(seg)) + [Dot] + g;
    DotSegmentOf(a + Ext(seg), g);
    assert EndsWith(a + Ext(seg), Ext(seg));
  }

  lemma SegSuffixNone(base: Text, g: Text)
    requires DotlessTail(base) && (g == [] || Suffix(g))
    ensures SegSuffixMatch(base + Dotted(g) + Ext(Png)).None?
  {
    var s := base + Dotted(g);
    var f := s + Ext(Png);
    assert f[..|f| - 4] == s;
    NamesAreSuffixes();
    ExtNoSlash(Rseg);
    ExtNoSlash(Cseg);
    NoDottedEnd(base, Ext(Rseg));
    NoDottedEnd(base, Ext(Cseg));
    if g == [] {
      assert s == base;
      DotSegmentOfBase(base);
    } else {
      assert s == base + [Dot] + g;
      DotSegmentOf(base, g);
    }
  }

  lemma NotSegPng(base: Text, g: Text)
    requires DotlessTail(base) && CarriedSuffix(g)
    ensures !SegPng(base + Dotted(g) + Ext(Png))
  {
    var s := base + Dotted(g);
    EndsWithStrip(s, Ext(Rseg), Ext(Png));
    EndsWithStrip(s, Ext(Cseg), Ext(Png));
    if g == [] {
      assert s == base;
      NamesAreSuffixes();
      ExtNoSlash(Rseg);
      ExtNoSlash(Cseg);
      NoDottedEnd(base, Ext(Rseg));
      NoDottedEnd(base, Ext(Cseg));
    } else {
      assert s == base + [Dot] + g;
      if EndsWith(s, Ext(Rseg)) { SuffixBeforeSeg(base, g, Rseg); }
      if EndsWith(s, Ext(Cseg)) { SuffixBeforeSeg(base, g, Cseg); }
    }
  }

  /** The last '.' of s + ".name" is the one in front of name. */
  lemma LastDotOfExt(s: Text, name: Text)
    requires Suffix(name)
    ensures LastIndex(s + [Dot] + name, Dot) == |s|
  {
    LastIndexIs(s + [Dot] + name, Dot, |s|);
  }

  lemma SuffixExtOf(base: Text, g: Text, name: Text)
    requires DotlessTail(base) && (g == [] || Suffix(g)) && GtExtension(name)
    ensures SuffixExtMatch(base + Dotted(g) + Ext(name)) == if g == [] then None else Some(g)
  {
    var s := base + Dotted(g);
    NamesAreSuffixes();
    LastDotOfExt(s, name);
    var f := s + Ext(name);
    assert f == s + [Dot] + name;
    assert f[|s| + 1..] == name && f[..|s|] == s;
    if g == [] {
      assert s == base;
      DotSegmentOfBase(base);
    } else {
      assert s == base + [Dot] + g;
      DotSegmentOf(base, g);
    }
  }

  /** The png (and line) variant "base + suffix + .png" gives its suffix back. */
  lemma GtextPng(base: Text, g: Text)
    requires DotlessTail(base) && CarriedSuffix(g)
    ensures Gtext(base + Dotted(g) + Ext(Png)) == g
    ensures GtextAsWritten(base + Dotted(g) + Ext(Png)) == g
  {
    var f := base + Dotted(g) + Ext(Png);
    SegSuffixNone(base, g);
    NotSegPng(base, g);
    assert SuffixSegMatch(f).None?;
    SuffixExtOf(base, g, Png);
    GtextAgrees(f);
  }

  /** A plain base.rseg.png or base.cseg.png matches no pattern of `Gtext`. */
  lemma GtextSegPlain(base: Text, seg: Text)
    requires DotlessTail(base) && SegName(seg)
    ensures Gtext(base + Ext(seg) + Ext(Png)) == []
  {
    var f := base + Ext(seg) + Ext(Png);
    assert f[..|f| - 4] == base + [Dot] + seg;
    NamesAreSuffixes();
    DotSegmentOf(base, seg);
    ExtNoSlash(Rseg);
    ExtNoSlash(Cseg);
    NoDottedEnd(base, Ext(Rseg));
    NoDottedEnd(base, Ext(Cseg));
    assert SegSuffixMatch(f).None?;
    assert f == base + (Ext(seg) + Ext(Png));
    assert EndsWith(f, Ext(seg) + Ext(Png));
    assert f[..|f| - 9] == base;
    DotSegmentOfBase(base);
  }

  /** The rseg and cseg variants give their suffix back. */
  lemma GtextSeg(base: Text, seg: Text, g: Text)
    requires DotlessTail(base) && (g == [] || Suffix(g)) && SegName(seg)
    ensures Gtext(base + Ext(seg) + Dotted(g) + Ext(Png)) == g
  {
    if g == [] {
      assert base + Ext(seg) + Dotted(g) + Ext(Png) == base + Ext(seg) + Ext(Png);
      GtextSegPlain(base, seg);
    } else {
      SegSuffixOf(base, seg, g);
    }
  }

  /** A name ending in ".costs", ".fst" or ".txt" does not end in ".png". */
  lemma NotPngEnd(s: Text, name: Text)
    requires name == Costs || name == Fst || name == Txt
    ensures !EndsWith(s + Ext(name), Ext(Png)) && !SegPng(s + Ext(name))
  {
    var f := s + Ext(name);
    var e := Ext(name);
    EndsWithAppend(s, e, Ext(Png));
    assert e[|e| - 4..][1] == e[|e| - 3] != Ext(Png)[1];
    if EndsWith(f, Ext(Rseg) + Ext(Png)) { EndsWithEnd(f, Ext(Rseg), Ext(Png)); }
    if EndsWith(f, Ext(Cseg) + Ext(Png)) { EndsWithEnd(f, Ext(Cseg), Ext(Png)); }
  }

  /** The costs, fst and txt variants give their suffix back. */
  lemma GtextExtVariant(base: Text, name: Text, g: Text)
    requires DotlessTail(base) && (g == [] || Suffix(g))
    requires name == Costs || name == Fst || name == Txt
    ensures Gtext(base + Dotted(g) + Ext(name)) == g
    ensures GtextAsWritten(base + Dotted(g) + Ext(name)) == g
  {
    var f := base + Dotted(g) + Ext(name);
    NotPngEnd(base + Dotted(g), name);
    assert SegSuffixMatch(f).None? && SuffixSegMatch(f).None?;
    SuffixExtOf(base, g, name);
  }

  /** Round trip: the variant `fvariant` names carries the ground-truth
      suffix it was asked for, and `Gtext` reads it back. */
  lemma GtextOfFvariant(fname: Text, kind: Text, g: Text)
    requires Kind(kind) && CarriedSuffix(g)
    ensures Fvariant(fname, kind, Some(g)).Ok?
    ensures Gtext(Fvariant(fname, kind, Some(g)).value) == g
  {
    var base := AllSplitExt(fname).0;
    if kind == Line || kind == Png {
      GtextPng(base, g);
    } else if kind == Rseg || kind == Cseg {
      GtextSeg(base, kind, g);
    } else {
      GtextExtVariant(base, kind, g);
    }
  }

  /** "By default, the variant with the same ground truth suffix is
      produced": with no gt given, the variant's suffix is that of fname. */
  lemma FvariantKeepsSuffix(fname: Text, kind: Text)
    requires Kind(kind) && CarriedSuffix(Gtext(fname))
    ensures Fvariant(fname, kind, None).Ok?
    ensures Gtext(Fvariant(fname, kind, None).value) == Gtext(fname)
  {
    GtextOfFvariant(fname, kind, Gtext(fname));
  }

  /** Every variant name is the base followed by an extension part that
      starts with '.' and holds no '/'. */
  lemma VariantExt(base: Text, kind: Text, g: Text) returns (ext: Text)
    requires Kind(kind) && (g == [] || Suffix(g))
    ensures VariantName(base, kind, Dotted(g)) == Ok(base + ext)
    ensures ext != [] && ext[0] == Dot && NoSlash(ext)
  {
    var d := Dotted(g);
    assert NoSlash(d);
    NamesAreSuffixes();
    var tail := if kind == Line || kind == Png || kind == Rseg || kind == Cseg then Png else kind;
    ExtNoSlash(tail);
    if kind == Rseg || kind == Cseg {
      ExtNoSlash(kind);
      ext := Ext(kind) + d + Ext(tail);
      assert base + Ext(kind) + d + Ext(tail) == base + ext;
    } else {
      ext := d + Ext(tail);
      assert base + d + Ext(tail) == base + ext;
      assert ext[0] == Dot by { if g == [] { assert ext == Ext(tail); } }
    }
  }

  /** The variant keeps the base name: taking a variant of a variant is the
      same as taking it of the original name. */
  lemma FvariantBase(fname: Text, kind: Text, g: Text)
    requires Kind(kind) && (g == [] || Suffix(g))
    ensures Fvariant(fname, kind, Some(g)).Ok?
    ensures AllSplitExt(Fvariant(fname, kind, Some(g)).value).0 == AllSplitExt(fname).0
  {
    var base := AllSplitExt(fname).0;
    var ext := VariantExt(base, kind, g);
    AllSplitExtOf(base, ext);
  }

  /** `fvariant` raises for any kind it does not know, and only then. */
  lemma FvariantUnknownKind(fname: Text, kind: Text, gt: Option<Text>)
    ensures Fvariant(fname, kind, gt).Err? <==> !Kind(kind)
    ensures FvariantAsWritten(fname, kind, gt).Err? <==> !Kind(kind)
    ensures !Kind(kind) ==> Fvariant(fname, kind, gt) == Err(UnknownKind)
  {
  }

  // The two discrepancies between the code as written and its documentation.

  /** As written, the plain rseg variant of any name reads back with the
      ground-truth suffix "rseg" (as `gtext("a.rseg.png")` gives "rseg"); the
      intended `Gtext` reads it back as "". */
  lemma GtextAsWrittenReadsRseg(fname: Text)
    ensures Fvariant(fname, Rseg, Some([])).Ok?
    ensures GtextAsWritten(Fvariant(fname, Rseg, Some([])).value) == Rseg
    ensures Gtext(Fvariant(fname, Rseg, Some([])).value) == []
  {
    var base := AllSplitExt(fname).0;
    var f := base + Ext(Rseg) + Ext(Png);
    assert base + Ext(Rseg) + Dotted([]) == base + Ext(Rseg);
    assert Fvariant(fname, Rseg, Some([])) == Ok(f);
    GtextSeg(base, Rseg, []);
    assert f[..|f| - 4] == base + [Dot] + Rseg;
    NamesAreSuffixes();
    DotSegmentOf(base, Rseg);
    ExtNoSlash(Rseg);
    ExtNoSlash(Cseg);
    NoDottedEnd(base, Ext(Rseg));
    NoDottedEnd(base, Ext(Cseg));
    assert SegSuffixMatch(f).None?;
    assert f[..|f| - 9] == base;
    DotSegmentOfBase(base);
    assert SuffixSegMatch(f).None?;
    assert f == base + Dotted(Rseg) + Ext(Png);
    SuffixExtOf(base, Rseg, Png);
  }

  /** The base of base.g.txt is base. */
  lemma BaseOfGtTxt(base: Text, g: Text)
    requires DotlessTail(base) && Suffix(g)
    ensures AllSplitExt(base + Ext(g) + Ext(Txt)).0 == base
  {
    NamesAreSuffixes();
    ExtNoSlash(g);
    ExtNoSlash(Txt);
    var ext := Ext(g) + Ext(Txt);
    assert NoSlash(ext);
    assert base + Ext(g) + Ext(Txt) == base + ext;
    AllSplitExtOf(base, ext);
  }

  /** As written, a default suffix is pasted in without its '.': the png
      variant of base.g.txt comes out as base + g + ".png" (as
      `fvariant("a.gt.txt", "png")` gives "agt.png") instead of
      base.g.png. */
  lemma FvariantAsWrittenDropsDot(base: Text, g: Text)
    requires DotlessTail(base) && Suffix(g)
    ensures FvariantAsWritten(base + Ext(g) + Ext(Txt), Png, None) == Ok(base + g + Ext(Png))
    ensures Fvariant(base + Ext(g) + Ext(Txt), Png, None) == Ok(base + Ext(g) + Ext(Png))
    ensures base + g + Ext(Png) != base + Ext(g) + Ext(Png)
  {
    var f := base + Ext(g) + Ext(Txt);
    assert f == base + Dotted(g) + Ext(Txt);
    GtextExtVariant(base, Txt, g);
    BaseOfGtTxt(base, g);
    assert (base + g + Ext(Png))[|base|] == g[0];
    assert (base + Ext(g) + Ext(Png))[|base|] == Dot;
  }

  // ---------------------------------------------------------------
  // check_valid_class_label
  // ---------------------------------------------------------------

  /** A class label by its Python type: `unicode` (code points), `str`
      (bytes), or anything else. */
  datatype Label = UnicodeLabel(u: Text) | StrLabel(bytes: seq<int>) | OtherLabel

  /** `check_valid_class_label`: a unicode label may not hold a character in
      \0..\x20, a str label only characters in \x21..\x7e; any other type
      raises. */
  function CheckValidClassLabel(s: Label): (r: Outcome)
    ensures r.Fail? ==> r.error == BadClassLabel
  {
    match s
    case UnicodeLabel(u) => if exists i :: 0 <= i < |u| && u[i] <= 0x20 then Fail(BadClassLabel) else Pass
    case StrLabel(b) => if exists i :: 0 <= i < |b| && !(0x21 <= b[i] <= 0x7e) then Fail(BadClassLabel) else Pass
    case OtherLabel => Fail(BadClassLabel)
  }

  /** Accepting a character means it is a visible character: exactly
      the code points above space for unicode, the printable ASCII
      range without space for str. */
  lemma ValidLabelChars(s: Label)
    ensures CheckValidClassLabel(s).Pass? <==>
      (s.UnicodeLabel? && forall i :: 0 <= i < |s.u| ==> s.u[i] > 0x20) ||
      (s.StrLabel? && forall i :: 0 <= i < |s.bytes| ==> 0x21 <= s.bytes[i] <= 0x7e)
  {
  }

  /** A str label that passes also passes as the unicode label of the same
      characters, and a valid unicode label holds no whitespace, so it is a
      single token of the lattice text format. */
  lemma ValidLabelIsToken(s: Label)
    requires CheckValidClassLabel(s).Pass?
    ensures s.StrLabel? ==> forall i :: 0 <= i < |s.bytes| ==> 0 <= s.bytes[i] < 0x110000
    ensures s.StrLabel? ==> CheckValidClassLabel(UnicodeLabel(seq(|s.bytes|, i requires 0 <= i < |s.bytes| => s.bytes[i] as CodePoint))).Pass?
    ensures s.UnicodeLabel? ==> NoSpace(s.u)
  {
    ValidLabelChars(s);
    if s.StrLabel? {
      ValidLabelChars(UnicodeLabel(seq(|s.bytes|, i requires 0 <= i < |s.bytes| => s.bytes[i] as CodePoint)));
    }
  }

  // ---------------------------------------------------------------
  // chist
  // ---------------------------------------------------------------

  /** Python's order on (count, value) pairs, reversed. */
  predicate PairGreater(p: (int, int), q: (int, int))
  {
    PairLess(q, p)
  }

  lemma PairGreaterIsStrictTotal()
    ensures StrictTotalOrder(PairGreater)
  {
  }

  /** The (count, value) pair of every distinct value of l. */
  function Histogram(l: seq<int>): set<(int, int)>
  {
    set c | c in l :: (multiset(l)[c], c)
  }

  /** `chist`: counts the values of l in a dictionary, then sorts the
      (count, value) pairs of its items, largest first. The dictionary's
      keys are kept in the order they were first seen; the sorted result
      does not depend on that order. */
  method Chist(l: seq<int>) returns (hist: seq<(int, int)>)
    ensures StrictlySorted(hist, PairGreater)
    ensures Elems(hist) == Histogram(l)
  {
    var counts: map<int, int> := map[];
    var keys: seq<int> := [];
    for i := 0 to |l|
      invariant counts.Keys == Elems(l[..i]) == Elems(keys)
      invariant forall c :: c in counts ==> counts[c] == multiset(l[..i])[c]
    {
      var c := l[i];
      if c !in counts {
        keys := keys + [c];
      }
      counts := counts[c := (if c in counts then counts[c] else 0) + 1];
      assert l[..i + 1] == l[..i] + [c];
    }
    assert l[..|l|] == l;
    var items := seq(|keys|, j requires 0 <= j < |keys| => (counts[keys[j]], keys[j]));
    PairGreaterIsStrictTotal();
    hist := SortDistinct(items, PairGreater);
    assert Elems(items) == Histogram(l) by {
      forall p | p in Histogram(l) ensures p in Elems(items) {
        var c :| c in l && p == (multiset(l)[c], c);
        assert c in Elems(keys);
        var j :| 0 <= j < |keys| && keys[j] == c;
        assert items[j] == p;
      }
      forall j | 0 <= j < |keys| ensures items[j] in Histogram(l) {
        var c := keys[j];
        assert c in Elems(keys);
        assert c in l && items[j] == (multiset(l)[c], c);
      }
    }
  }

  // ---------------------------------------------------------------
  // rect_union
  // ---------------------------------------------------------------

  /** A box as `seg_boxes` lists it: (y0, y1, x0, x1). */
  type Rect4 = (int, int, int, int)

  function Column(rs: seq<Rect4>, j: nat): (c: seq<int>)
    requires j < 4
    ensures |c| == |rs|
  {
    seq(|rs|, k requires 0 <= k < |rs| => if j == 0 then rs[k].0 else if j == 1 then rs[k].1 else if j == 2 then rs[k].2 else rs[k].3)
  }

  /** `rect_union` as written: the minimum and maximum of the first column,
      the minimum of the second, and the maximum of the whole first row. */
  function RectUnionAsWritten(rs: seq<Rect4>): Rect4
  {
    if |rs| < 1 then (0, 0, -1, -1)
    else (MinOf(Column(rs, 0)), MaxOf(Column(rs, 0)), MinOf(Column(rs, 1)), MaxOf([rs[0].0, rs[0].1, rs[0].2, rs[0].3]))
  }

  /** `rect_union` as intended: the smallest box holding every box of rs,
      or (0, 0, -1, -1) when there is none. */
  function RectUnion(rs: seq<Rect4>): Rect4
  {
    if |rs| < 1 then (0, 0, -1, -1)
    else (MinOf(Column(rs, 0)), MaxOf(Column(rs, 1)), MinOf(Column(rs, 2)), MaxOf(Column(rs, 3)))
  }

  /** The box b holds the box inner. */
  predicate Holds(b: Rect4, inner: Rect4)
  {
    b.0 <= inner.0 && inner.1 <= b.1 && b.2 <= inner.2 && inner.3 <= b.3
  }

  /** The union holds every box. */
  lemma RectUnionHolds(rs: seq<Rect4>)
    ensures forall k :: 0 <= k < |rs| ==> Holds(RectUnion(rs), rs[k])
  {
    forall k | 0 <= k < |rs| ensures Holds(RectUnion(rs), rs[k]) {
      assert Column(rs, 0)[k] in Column(rs, 0) && Column(rs, 1)[k] in Column(rs, 1);
      assert Column(rs, 2)[k] in Column(rs, 2) && Column(rs, 3)[k] in Column(rs, 3);
    }
  }

  /** ... and it is the smallest such box. */
  lemma RectUnionLeast(rs: seq<Rect4>, b: Rect4)
    requires |rs| > 0 && forall k :: 0 <= k < |rs| ==> Holds(b, rs[k])
    ensures Holds(b, RectUnion(rs))
  {
    var c0, c1, c2, c3 := Column(rs, 0), Column(rs, 1), Column(rs, 2), Column(rs, 3);
    var k0 :| 0 <= k0 < |rs| && c0[k0] == MinOf(c0);
    var k1 :| 0 <= k1 < |rs| && c1[k1] == MaxOf(c1);
    var k2 :| 0 <= k2 < |rs| && c2[k2] == MinOf(c2);
    var k3 :| 0 <= k3 < |rs| && c3[k3] == MaxOf(c3);
    assert Holds(b, rs[k0]) && Holds(b, rs[k1]) && Holds(b, rs[k2]) && Holds(b, rs[k3]);
  }

  /** As written, the union of the single box (0, 2, 0, 3) comes out as
      (0, 0, 2, 3), which does not hold that box; the intended union is the box itself. */
  lemma RectUnionAsWrittenMixesColumns()
    ensures RectUnionAsWritten([(0, 2, 0, 3)]) == (0, 0, 2, 3)
    ensures RectUnion([(0, 2, 0, 3)]) == (0, 2, 0, 3)
  {
    var rs: seq<Rect4> := [(0, 2, 0, 3)];
    assert Column(rs, 0) == [0] && Column(rs, 1) == [2];
    assert Column(rs, 2) == [0] && Column(rs, 3) == [3];
    var row := [rs[0].0, rs[0].1, rs[0].2, rs[0].3];
    assert row == [0, 2, 0, 3] && row[3] in row;
    var top := MaxOf(row);
    assert top in row && top >= 3;
    assert MinOf([0]) in [0] && MaxOf([0]) in [0] && MinOf([2]) in [2];
    assert MaxOf([2]) in [2] && MinOf([3]) in [3] && MaxOf([3]) in [3];
  }
}
