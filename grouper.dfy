/** The Grouper component of ocrolib/grouper.py: candidate groups of a line
    segmentation, the hypotheses and space costs a recogniser attaches to
    them, their text format, and the lattice built from them. */
module GrouperClass {
  import opened Wrappers
  import opened Text
  import opened PyOps
  import opened Boxes
  import opened Sorting
  import opened Fst
  import opened Grouping
  import opened LatticeBuild
  import opened LatticeText

  /** A class as `setClass` receives it: a code, a string, or a value of another type. */
  datatype ClassArg = IntClass(code: int) | TextClass(text: Text) | OtherClass

  /** The string `setClass` stores: `chr`/`unichr` of a code, the string itself, or
      the exception raised. */
  function ClassText(cls: ClassArg): (r: Result<Text>)
    ensures cls.IntClass? ==> (r.Ok? <==> 0 <= cls.code < 0x110000)
    ensures cls.IntClass? && r.Ok? ==> r.value == [cls.code]
    ensures cls.IntClass? && cls.code >= 0x110000 ==> r == Err(ClassOutOfRange)
    ensures cls.TextClass? ==> r == Ok(cls.text)
    ensures cls.OtherClass? ==> r.Err?
  {
    match cls
    case IntClass(c) =>
      if c < 0 then Err(ValueError)          // chr of a negative code
      else if c < 0x110000 then Ok([c])      // chr below 256, unichr above
      else Err(ClassOutOfRange)
    case TextClass(t) => Ok(t)
    case OtherClass => Err(AssertionError("type(cls)==str or type(cls)==unicode"))
  }

  /** The pixel pairs `(preferred << 16) | segmentation` of the pixels of rows
      [0, i) and of row i up to column j, counted. */
  function PairCols(seg: array2<int>, pre: array2<int>, i: nat, j: nat): multiset<int>
    requires seg.Length0 == pre.Length0 && seg.Length1 == pre.Length1
    requires i < seg.Length0 && j <= seg.Length1
    reads seg, pre
    decreases i, 1, j
  {
    if j == 0 then PairRows(seg, pre, i)
    else PairCols(seg, pre, i, j - 1) + multiset{Pack(pre[i, j - 1], seg[i, j - 1])}
  }

  function PairRows(seg: array2<int>, pre: array2<int>, i: nat): multiset<int>
    requires seg.Length0 == pre.Length0 && seg.Length1 == pre.Length1
    requires i <= seg.Length0
    reads seg, pre
    decreases i, 0, 0
  {
    if i == 0 then multiset{} else PairCols(seg, pre, i - 1, seg.Length1)
  }

  /** The `Counter` of the combined image. */
  function PairCounts(seg: array2<int>, pre: array2<int>): multiset<int>
    requires seg.Length0 == pre.Length0 && seg.Length1 == pre.Length1
    reads seg, pre
  {
    PairRows(seg, pre, seg.Length0)
  }

  /** `pre2seg`: the (preferred, segment) pairs of the combined values seen more than
      five times. */
  function Correspondences(counts: multiset<int>): set<(int, int)>
  {
    set k | k in counts && counts[k] > 5 :: (Shr16(k), Low16(k))
  }

  /** The image whose pixels all lie in [0, 32000). */
  ghost predicate SmallLabels(img: array2<int>)
    reads img
  {
    forall i, j :: 0 <= i < img.Length0 && 0 <= j < img.Length1 ==> 0 <= img[i, j] < 32000
  }

  /** Every combined value unpacks to the pair it was packed from. */
  ghost predicate Unpackable(counts: multiset<int>)
  {
    forall k :: k in counts ==> k == Pack(Shr16(k), Low16(k))
  }

  lemma {:induction false} PairColsUnpack(seg: array2<int>, pre: array2<int>, i: nat, j: nat)
    requires seg.Length0 == pre.Length0 && seg.Length1 == pre.Length1
    requires i < seg.Length0 && j <= seg.Length1
    requires SmallLabels(seg)
    ensures Unpackable(PairCols(seg, pre, i, j))
    decreases i, j
  {
    if j == 0 {
      if i > 0 { PairColsUnpack(seg, pre, i - 1, seg.Length1); }
    } else {
      PairColsUnpack(seg, pre, i, j - 1);
      var a, b := pre[i, j - 1], seg[i, j - 1];
      assert 0 <= b < 32000;
      UnpackPack(a, b);
      assert PairCols(seg, pre, i, j) == PairCols(seg, pre, i, j - 1) + multiset{Pack(a, b)};
    }
  }

  /** With segment labels in [0, 32000), `pre2seg` holds exactly the pairs
      (preferred label, segment label) that cover more than five pixels. */
  lemma CorrespondencesExact(seg: array2<int>, pre: array2<int>, a: int, b: int)
    requires seg.Length0 == pre.Length0 && seg.Length1 == pre.Length1
    requires SmallLabels(seg)
    requires 0 <= b < 32000
    ensures (a, b) in Correspondences(PairCounts(seg, pre)) <==> PairCounts(seg, pre)[Pack(a, b)] > 5
  {
    var counts := PairCounts(seg, pre);
    if seg.Length0 > 0 {
      PairColsUnpack(seg, pre, seg.Length0 - 1, seg.Length1);
    }
    assert Unpackable(counts);
    UnpackPack(a, b);
    var k := Pack(a, b);
    if counts[k] > 5 {
      assert (Shr16(k), Low16(k)) in Correspondences(counts);
    }
    if (a, b) in Correspondences(counts) {
      var k' :| k' in counts && counts[k'] > 5 && (Shr16(k'), Low16(k')) == (a, b);
      assert k' == k;
    }
  }

  /** What `setSegmentation` does with a preferred segmentation: nothing without one;
      otherwise both images must have labels below 32000 (`amax` of an empty image
      raises), and the result is the new `pre2seg`. */
  function PreferredOf(img: array2<int>, pre: array2?<int>): Result<Option<set<(int, int)>>>
    requires pre != null ==> pre.Length0 == img.Length0 && pre.Length1 == img.Length1
    reads img, pre
  {
    if pre == null then Ok(None)
    else if img.Length0 == 0 || img.Length1 == 0 then Err(ValueError)
    else if !(PixelMax(img) < 32000 && PixelMax(pre) < 32000) then Err(AssertionError("labels below 32000"))
    else Ok(Some(Correspondences(PairCounts(img, pre))))
  }

  class Grouper {
    /** maxrange, maxdist, maxaspect and maxwidth */
    var params: Params
    /** `self.lig.ord`: the ligature table. */
    var lig: LigOrd
    /** `self.pre2seg`: None until a preferred segmentation is given. */
    var pre2seg: Option<set<(int, int)>>
    /** `self.segmentation`: null for None. */
    var segmentation: array2?<int>
    var groups: seq<Group>
    var costs: seq<seq<Hyp>>
    var spaceCosts: seq<SpaceCost>

    /** The lattice data as a value. */
    function Data(): Store
      reads this
    {
      Store(groups, costs, spaceCosts)
    }

    /** The per-group lists are parallel. */
    predicate Valid()
      reads this
    {
      Parallel(Data())
    }

    constructor (lig: LigOrd)
      ensures params == Defaults && this.lig == lig && pre2seg == None && segmentation == null
      ensures Data() == NoGroups && Valid()
    {
      params := Defaults;
      this.lig := lig;
      pre2seg := None;
      segmentation := null;
      groups := [];
      costs := [];
      spaceCosts := [];
    }

    /** One empty hypothesis list and the unset space costs (999999, 999999) per group. */
    method ClearLattice()
      modifies this
      ensures groups == old(groups) && params == old(params) && lig == old(lig)
      ensures pre2seg == old(pre2seg) && segmentation == old(segmentation)
      ensures |costs| == |groups| && forall i :: 0 <= i < |costs| ==> costs[i] == []
      ensures |spaceCosts| == |groups| && forall i :: 0 <= i < |spaceCosts| ==> spaceCosts[i] == SpaceCost(Unset, Unset)
      ensures Valid()
    {
      costs := seq(|groups|, _ => []);
      spaceCosts := seq(|groups|, _ => SpaceCost(Unset, Unset));
    }

    /** `setClass`: appends (cost, class) to the hypotheses of group i and touches
        nothing else; a bad class or index raises before anything changes. */
    method SetClass(i: int, cls: ClassArg, cost: Cost) returns (r: Outcome)
      modifies this
      ensures groups == old(groups) && spaceCosts == old(spaceCosts) && params == old(params)
      ensures lig == old(lig) && pre2seg == old(pre2seg) && segmentation == old(segmentation)
      ensures r == Pass <==> ClassText(cls).Ok? && PyIndex(i, |old(costs)|).Some?
      ensures r.Fail? ==> costs == old(costs)
      ensures r.Fail? && ClassText(cls).Err? ==> r.error == ClassText(cls).error
      ensures ClassText(cls).Ok? && PyIndex(i, |old(costs)|).None? ==> r == Fail(IndexError)
      ensures r == Pass ==>
        var k := PyIndex(i, |old(costs)|).value;
        costs == old(costs)[k := old(costs)[k] + [Hyp(cost, ClassText(cls).value)]]
    {
      var t := ClassText(cls);
      if t.Err? {
        return Fail(t.error);
      }
      var k := PyIndex(i, |costs|);
      if k.None? {
        return Fail(IndexError);
      }
      costs := costs[k.value := costs[k.value] + [Hyp(cost, t.value)]];
      r := Pass;
    }

    /** `setSpaceCost`: replaces the space costs of group i, and nothing else. */
    method SetSpaceCost(i: int, yes: Cost, no: Cost) returns (r: Outcome)
      modifies this
      ensures groups == old(groups) && costs == old(costs) && params == old(params)
      ensures lig == old(lig) && pre2seg == old(pre2seg) && segmentation == old(segmentation)
      ensures r == Pass <==> PyIndex(i, |old(spaceCosts)|).Some?
      ensures r.Fail? ==> r.error == IndexError && spaceCosts == old(spaceCosts)
      ensures r == Pass ==> spaceCosts == old(spaceCosts)[PyIndex(i, |old(spaceCosts)|).value := SpaceCost(yes, no)]
    {
      var k := PyIndex(i, |spaceCosts|);
      if k.None? {
        return Fail(IndexError);
      }
      spaceCosts := spaceCosts[k.value := SpaceCost(yes, no)];
      r := Pass;
    }

    /** `start(i)`: the smallest label of group i. */
    function Start(i: int): (r: Result<int>)
      reads this
      ensures r.Ok? <==> PyAt(groups, i).Some? && PyAt(groups, i).value.labels != []
      ensures r.Ok? ==> var s := PyAt(groups, i).value.labels;
        r.value in s && forall l :: l in s ==> r.value <= l
    {
      match PyAt(groups, i)
      case None => Err(IndexError)
      case Some(g) => if g.labels == [] then Err(ValueError) else Ok(MinOf(g.labels))
    }

    /** `end(i)`: the largest label of group i. */
    function End(i: int): (r: Result<int>)
      reads this
      ensures r.Ok? <==> PyAt(groups, i).Some? && PyAt(groups, i).value.labels != []
      ensures r.Ok? ==> var s := PyAt(groups, i).value.labels;
        r.value in s && forall l :: l in s ==> l <= r.value
    {
      match PyAt(groups, i)
      case None => Err(IndexError)
      case Some(g) => if g.labels == [] then Err(ValueError) else Ok(MaxOf(g.labels))
    }

    /** The preferred segments that share pixels with group i. */
    function Preferred(p: set<(int, int)>, s: seq<int>): set<int>
    {
      set c | c in p && c.1 in s :: c.0
    }

    /** The regular segments that share pixels with the preferred segments q. */
    function Regular(p: set<(int, int)>, q: set<int>): set<int>
    {
      set c | c in p && c.0 in q :: c.1
    }

    /** `isCombined(i)`: group i covers parts of two or more preferred segments. */
    function IsCombined(i: int): (r: Result<bool>)
      reads this
      ensures pre2seg.None? ==> r == Ok(false)
      ensures r.Err? <==> pre2seg.Some? && PyAt(groups, i).None?
      ensures r.Err? ==> r.error == IndexError
      ensures pre2seg.Some? && PyAt(groups, i).Some? ==>
        var p, s := pre2seg.value, PyAt(groups, i).value.labels;
        && ((exists a, b :: a in Preferred(p, s) && b in Preferred(p, s) && a != b) ==> r == Ok(true))
        && (r == Ok(true) ==> forall x :: !(Preferred(p, s) <= {x}))
    {
      match pre2seg
      case None => Ok(false)
      case Some(p) =>
        match PyAt(groups, i)
        case None => Err(IndexError)
        case Some(g) =>
          TwoMembers(Preferred(p, g.labels));
          Ok(|Preferred(p, g.labels)| >= 2)
    }

    /** `isSplit(i)`: group i lies within one preferred segment (or none) but is not
        exactly the segments of that preferred segment. */
    function IsSplit(i: int): (r: Result<bool>)
      reads this
      ensures pre2seg.None? ==> r == Ok(false)
      ensures r.Err? <==> IsCombined(i).Err?
      ensures r.Err? ==> r.error == IndexError
      ensures r == Ok(true) ==> IsCombined(i) == Ok(false)
      ensures r == Ok(true) ==>
        var p, s := pre2seg.value, PyAt(groups, i).value.labels;
        Elems(s) != Regular(p, Preferred(p, s))
    {
      match pre2seg
      case None => Ok(false)
      case Some(p) =>
        match PyAt(groups, i)
        case None => Err(IndexError)
        case Some(g) =>
          var q := Preferred(p, g.labels);
          if |q| > 1 then Ok(false) else Ok(Elems(g.labels) != Regular(p, q))
    }

    /** Two different members make a set of two or more; a set of two or more
        lies in no singleton. */
    static lemma TwoMembers(q: set<int>)
      ensures (exists a, b :: a in q && b in q && a != b) ==> |q| >= 2
      ensures |q| >= 2 ==> forall x :: !(q <= {x})
    {
      forall a, b | a in q && b in q && a != b ensures |q| >= 2 {
        TwoApart(q, a, b);
      }
      forall x | q <= {x} ensures |q| < 2 {
        InSingleton(q, x);
      }
    }

    static lemma TwoApart(q: set<int>, a: int, b: int)
      requires a in q && b in q && a != b
      ensures |q| >= 2
    {
      var rest := q - {a, b};
      assert q == {a, b} + rest && {a, b} !! rest;
    }

    static lemma InSingleton(q: set<int>, x: int)
      requires q <= {x}
      ensures |q| <= 1
    {
      assert {x} == q + ({x} - q) && q !! ({x} - q);
    }

    /** For a run of consecutive labels, `start` and `end` are its first and last label. */
    lemma StartEndOfRun(i: int)
      requires PyAt(groups, i).Some?
      requires var s := PyAt(groups, i).value.labels;
        |s| >= 1 && forall k :: 0 <= k < |s| ==> s[k] == s[0] + k
      ensures var s := PyAt(groups, i).value.labels;
        Start(i) == Ok(s[0]) && End(i) == Ok(s[0] + |s| - 1)
    {
      var s := PyAt(groups, i).value.labels;
      assert s[|s| - 1] == s[0] + |s| - 1;
      var lo, hi := Start(i).value, End(i).value;
      assert s[0] in s && s[|s| - 1] in s;
      var a :| 0 <= a < |s| && s[a] == lo;
      var b :| 0 <= b < |s| && s[b] == hi;
    }

    /** A group never counts as both combined and split. */
    lemma CombinedNotSplit(i: int)
      ensures IsCombined(i) == Ok(true) ==> IsSplit(i) == Ok(false)
      ensures IsCombined(i).Err? <==> IsSplit(i).Err?
    {
    }

    /** A group made of exactly the segments of one preferred segment is neither
        combined nor split. */
    lemma WholePreferred(i: int, x: int)
      requires pre2seg.Some? && PyAt(groups, i).Some?
      requires var p, s := pre2seg.value, PyAt(groups, i).value.labels;
        Preferred(p, s) == {x} && Regular(p, {x}) == Elems(s)
      ensures IsCombined(i) == Ok(false) && IsSplit(i) == Ok(false)
    {
      assert |{x}| == 1;
    }

    /** `saveLattice`: the lines written, and whether it got to the end. */
    method SaveLattice() returns (lines: seq<Text>, r: Outcome)
      requires Valid()
      ensures (lines, r) == Save(Data())
    {
      lines, r := SaveStore(Data());
    }

    /** The loops of `saveLattice` over the groups and their hypotheses. */
    static method SaveStore(st: Store) returns (lines: seq<Text>, r: Outcome)
      requires Parallel(st)
      ensures (lines, r) == Save(st)
    {
      ghost var all := Save(st);
      lines := [];
      var i := 0;
      while i < |st.groups|
        invariant 0 <= i <= |st.groups|
        invariant all.0 == lines + SaveFrom(st, i).0 && all.1 == SaveFrom(st, i).1
      {
        var g := st.groups[i];
        if g.labels == [] {
          assert SaveFrom(st, i) == ([], Fail(ValueError));
          assert lines + [] == lines;
          return lines, Fail(ValueError);
        }
        lines := SaveGroup(lines, st, i, all.0);
        i := i + 1;
      }
      assert SaveFrom(st, i) == ([], Pass);
      assert lines + [] == lines;
      r := Pass;
    }

    /** The `segment` line of group i and its `chr` lines. */
    static method SaveGroup(lines0: seq<Text>, st: Store, i: nat, ghost all: seq<Text>) returns (lines: seq<Text>)
      requires Parallel(st) && i < |st.groups| && st.groups[i].labels != []
      requires all == lines0 + SaveFrom(st, i).0
      ensures all == lines + SaveFrom(st, i + 1).0 && SaveFrom(st, i).1 == SaveFrom(st, i + 1).1
    {
      var line := SegmentLine(i, st.groups[i], st.spaceCosts[i]);
      var hs := st.costs[i];
      ghost var rest := SaveFrom(st, i + 1);
      SaveFromCons(st, i);
      Regroup(lines0, line, ChrLines(i, hs), rest.0);
      lines := SaveHyps(lines0 + [line], i, hs, rest.0, all);
    }

    /** The loop writing the `chr` lines of group i. */
    static method SaveHyps(lines0: seq<Text>, i: int, hs: seq<Hyp>, ghost rest: seq<Text>, ghost all: seq<Text>)
      returns (lines: seq<Text>)
      requires all == lines0 + (ChrLines(i, hs) + rest)
      ensures all == lines + rest && lines == lines0 + ChrLines(i, hs)
    {
      lines := lines0;
      var j := 0;
      while j < |hs|
        invariant 0 <= j <= |hs|
        invariant lines == lines0 + ChrLines(i, hs)[..j]
      {
        assert ChrLines(i, hs)[..j + 1] == ChrLines(i, hs)[..j] + [ChrLine(i, j, hs[j])];
        lines := lines + [ChrLine(i, j, hs[j])];
        j := j + 1;
      }
      assert ChrLines(i, hs)[..j] == ChrLines(i, hs);
    }

    /** `loadLattice`: reads the lines of `text` in order, appending a group for each
        `segment` line and a hypothesis for each `chr` line; the first bad line stops
        it with the lists as they were before that line. */
    method LoadLattice(text: Text, seg: array2?<int>) returns (failed: Option<Error>)
      modifies this
      ensures Loaded(Data(), failed) == Load(text)
      ensures Valid()
      ensures segmentation == seg && params == old(params) && lig == old(lig) && pre2seg == old(pre2seg)
    {
      segmentation := seg;
      groups, costs, spaceCosts := [], [], [];
      var lines := ReadLines(text);
      ghost var rows := RowsOf(lines);
      var n := 0;
      while n < |lines|
        invariant 0 <= n <= |lines| && |rows| == |lines|
        invariant segmentation == seg && params == old(params) && lig == old(lig) && pre2seg == old(pre2seg)
        invariant LoadFrom(Data(), rows[n..], n) == Load(text)
        invariant Valid()
      {
        var row := ParseRow(Fields(lines[n]));
        assert row == rows[n];
        ghost var want := LoadRow(Data(), row, n);
        match row {
          case SegmentRow(index, span, box, spaceCost) =>
            if index.Err? { return Some(index.error); }
            if index.value != |groups| { return Some(LineError(SegmentOrder, n)); }
            if span.Err? { return Some(span.error); }
            if box.Err? { return Some(box.error); }
            if spaceCost.Err? { return Some(spaceCost.error); }
            groups := groups + [Group(box.value, PyRange(span.value.0, span.value.1 + 1))];
            spaceCosts := spaceCosts + [spaceCost.value];
            costs := costs + [[]];
          case ChrRow(index, pos, cost, cls) =>
            if index.Err? { return Some(index.error); }
            if pos.Err? { return Some(pos.error); }
            var i, j := index.value, pos.value;
            if i != |groups| - 1 { return Some(LineError(SegmentOrder, n)); }
            var k := PyIndex(i, |costs|);
            if k.None? { return Some(IndexError); }
            if j != |costs[k.value]| { return Some(LineError(ChrOrder, n)); }
            if cost.Err? { return Some(cost.error); }
            if cls.Err? { return Some(cls.error); }
            costs := costs[k.value := costs[k.value] + [Hyp(cost.value, cls.value)]];
          case CommentRow =>
          case BadRow(e) =>
            return Some(e);
        }
        assert want == Ok(Data());
        assert rows[n..][1..] == rows[n + 1..];
        n := n + 1;
      }
      failed := None;
    }

    /** `setCSegmentation`: exactly one group per label 1 .. N, in order, group k
        holding the box of label k+1 and the label list [k+1]; the lattice is cleared. */
    method SetCSegmentation(img: array2<int>) returns (n: nat)
      requires Labelled(img)
      modifies this
      ensures params == old(params) && lig == old(lig) && pre2seg == old(pre2seg) && segmentation == img
      ensures n == |groups| == old(LabelCount(img))
      ensures forall k :: 0 <= k < n ==> Some(groups[k].box) == old(LabelExtent(img, k + 1)) && groups[k].labels == [k + 1]
      ensures Valid() && (forall k :: 0 <= k < |costs| ==> costs[k] == [])
      ensures forall k :: 0 <= k < |spaceCosts| ==> spaceCosts[k] == SpaceCost(Unset, Unset)
    {
      var boxes := Objects(img);
      var gs: seq<Group> := [];
      for i := 1 to |boxes| + 1
        invariant |gs| == i - 1
        invariant forall k :: 0 <= k < i - 1 ==> gs[k] == Group(boxes[k], [k + 1])
      {
        gs := gs + [Group(boxes[i - 1], [i])];
      }
      segmentation := img;
      groups := gs;
      ClearLattice();
      n := |groups|;
    }

    /** `setSegmentation`, on labels already renumbered by x-centre: the candidate
        groups `Grouping.Groups` describes, a fresh lattice, and their number; the
        correspondences with a preferred segmentation, when one is given. A raise
        leaves the groups and the lattice as they were. */
    method SetSegmentation(img: array2<int>, preferred: array2?<int>, aspect: Box -> real) returns (r: Result<nat>)
      requires Labelled(img)
      requires preferred != null ==> preferred.Length0 == img.Length0 && preferred.Length1 == img.Length1
      modifies this
      ensures params == old(params) && lig == old(lig)
      ensures var pp := old(PreferredOf(img, preferred));
        pre2seg == (if pp.Ok? && pp.value.Some? then pp.value else old(pre2seg))
      ensures var pp, gs := old(PreferredOf(img, preferred)), old(Groups(Extents(img), params, aspect));
        pp.Err? || gs.Err? ==>
          r == Err(if pp.Err? then pp.error else gs.error) && Data() == old(Data()) && segmentation == old(segmentation)
      ensures var pp, gs := old(PreferredOf(img, preferred)), old(Groups(Extents(img), params, aspect));
        pp.Ok? && gs.Ok? ==>
          r == Ok(|gs.value|) && groups == gs.value && segmentation == img && Valid() &&
          (forall k :: 0 <= k < |costs| ==> costs[k] == []) &&
          (forall k :: 0 <= k < |spaceCosts| ==> spaceCosts[k] == SpaceCost(Unset, Unset))
    {
      var pp := PreferredOf(img, preferred);
      if pp.Err? {
        return Err(pp.error);
      }
      var boxes := Objects(img);
      var gs := GroupsOf(boxes, params, aspect);
      if pp.value.Some? {
        pre2seg := pp.value;
      }
      if gs.Err? {
        return Err(gs.error);
      }
      segmentation := img;
      groups := gs.value;
      ClearLattice();
      r := Ok(|groups|);
    }

    /** `amax(self.segmentation)`: absent without a segmentation; an empty image raises. */
    function SegMax(): (r: Result<Option<int>>)
      reads this, segmentation
      ensures r.Err? <==> segmentation != null && (segmentation.Length0 == 0 || segmentation.Length1 == 0)
      ensures r.Ok? ==> (r.value.None? <==> segmentation == null)
      ensures r.Ok? && r.value.Some? ==> segmentation != null
      ensures r.Ok? && r.value.Some? ==>
        forall i, j :: 0 <= i < segmentation.Length0 && 0 <= j < segmentation.Length1 ==> segmentation[i, j] <= r.value.value
      ensures r.Ok? && r.value.Some? ==>
        exists i, j :: 0 <= i < segmentation.Length0 && 0 <= j < segmentation.Length1 && segmentation[i, j] == r.value.value
    {
      if segmentation == null then Ok(None)
      else if segmentation.Length0 == 0 || segmentation.Length1 == 0 then Err(ValueError)
      else Ok(Some(PixelMax(segmentation)))
    }

    /** What `getLatticeAsFST` does to an FST with contents v. */
    function LatticeOf(v: FstView, guarded: bool): Build
      requires Valid()
      reads this, segmentation
    {
      match SegMax()
      case Err(e) => Build(v, [], Some(e))
      case Ok(m) => Lattice(v, Data(), m, guarded)
    }

    /** What `getLatticeLigAsFST` does to an FST with contents v. */
    function LigLatticeOf(v: FstView): Build
      requires Valid()
      reads this, segmentation
    {
      match SegMax()
      case Err(e) => Build(v, [], Some(e))
      case Ok(m) => LigLattice(v, Data(), m, lig)
    }

    /** `getLatticeAsFST`: writes the lattice into the given FST, or into a new one
        when none is given, and returns that FST. With `guarded` false it is the
        code as written; `guarded` prunes the space branch at the ceiling too. */
    method GetLatticeAsFST(fst0: OcroFst?, guarded: bool) returns (fst: OcroFst, failed: Option<Error>)
      requires Valid()
      modifies fst0
      ensures fst0 != null ==> fst == fst0
      ensures fst0 == null ==> fresh(fst)
      ensures var b := old(LatticeOf(if fst0 == null then EmptyFst else fst0.View(), guarded));
        fst.View() == b.fst && failed == b.failed
    {
      if fst0 == null {
        fst := new OcroFst();
      } else {
        fst := fst0;
      }
      var st := Data();
      var sm := SegMax();
      if |st.groups| == 0 || !LabelsNonEmpty(st) || sm.Err? {
        return fst, Some(ValueError);
      }
      var final := Final(st);
      if sm.value.Some? && final != sm.value.value + 1 {
        return fst, Some(AssertionError("final"));
      }
      var states := NewLabelStates(fst, final);
      if final < 1 {
        return fst, Some(IndexError);
      }
      fst.SetStart(states[1]);
      fst.SetAccept(states[final]);
      states, failed := AddGroups(fst, states, st, guarded);
    }

    /** `getLatticeLigAsFST`: one arc per hypothesis, coded by the ligature table. */
    method GetLatticeLigAsFST(fst0: OcroFst?) returns (fst: OcroFst, failed: Option<Error>)
      requires Valid()
      modifies fst0
      ensures fst0 != null ==> fst == fst0
      ensures fst0 == null ==> fresh(fst)
      ensures var b := old(LigLatticeOf(if fst0 == null then EmptyFst else fst0.View()));
        fst.View() == b.fst && failed == b.failed
    {
      if fst0 == null {
        fst := new OcroFst();
      } else {
        fst := fst0;
      }
      var sm := SegMax();
      if sm.Err? {
        return fst, Some(ValueError);
      }
      if sm.value.None? {
        return fst, Some(TypeError);
      }
      var final := sm.value.value + 1;
      var states := NewLabelStates(fst, final);
      if final < 1 {
        return fst, Some(IndexError);
      }
      fst.SetStart(states[1]);
      fst.SetAccept(states[final]);
      states, failed := AddLigGroups(fst, states, Data(), lig);
    }

    /** `find_objects` of a consecutively labelled image, with every box present. */
    static method Objects(img: array2<int>) returns (boxes: seq<Box>)
      requires Labelled(img)
      ensures boxes == Extents(img)
    {
      var found := FindObjects(img);
      assert forall l :: 1 <= l <= |found| ==> LabelExtent(img, l).Some? by {
        if |found| > 0 {
          var i, j :| At(img, i, j, |found|);
        }
      }
      forall k | 0 <= k < |found| ensures found[k].Some? {
        assert found[(k + 1) - 1] == LabelExtent(img, k + 1);
      }
      boxes := seq(|found|, k requires 0 <= k < |found| => found[k].value);
    }

    /** The candidates of `setSegmentation` after the width filter. */
    static method GroupsOf(boxes: seq<Box>, p: Params, aspect: Box -> real) returns (gs: Result<seq<Group>>)
      ensures gs == Groups(boxes, p, aspect)
    {
      var cands := CandidateLoop(boxes, p, aspect);
      if cands.Err? {
        return Err(cands.error);
      }
      var mw := MedianHeight(cands.value);
      gs := Ok(Filter(cands.value, p, mw));
    }

    /** The loop of `setSegmentation` over start labels i. */
    static method CandidateLoop(boxes: seq<Box>, p: Params, aspect: Box -> real) returns (gs: Result<seq<Group>>)
      ensures gs == Candidates(boxes, p, aspect)
    {
      var n := |boxes| + 1;
      var acc: seq<Group> := [];
      for i := 1 to n
        invariant Rows(boxes, p, aspect, i) == Ok(acc)
      {
        var row := RowLoop(boxes, p, aspect, i);
        if row.Err? {
          assert Rows(boxes, p, aspect, i + 1) == Err(row.error);
          RowsErrStays(boxes, p, aspect, i + 1, n);
          return Err(row.error);
        }
        acc := acc + row.value;
      }
      assert Candidates(boxes, p, aspect) == Rows(boxes, p, aspect, n);
      gs := Ok(acc);
    }

    /** The loop over the lengths r of the runs starting at label i. */
    static method RowLoop(boxes: seq<Box>, p: Params, aspect: Box -> real, i: int) returns (row: Result<seq<Group>>)
      requires 1 <= i <= |boxes|
      ensures row == Grouping.Row(boxes, p, aspect, i, p.maxrange)
    {
      var acc: seq<Group> := [];
      for r := 1 to p.maxrange + 1
        invariant Grouping.Row(boxes, p, aspect, i, r - 1) == Ok(acc)
      {
        var keep := KeepRun(boxes, p, aspect, i, r);
        if keep.Err? {
          assert Grouping.Row(boxes, p, aspect, i, r) == Err(keep.error);
          RowErrStays(boxes, p, aspect, i, r, p.maxrange);
          return Err(keep.error);
        }
        if keep.value {
          var c := RunOf(boxes, i, r);
          acc := acc + [c];
        }
      }
      row := Ok(acc);
    }

    /** The innermost loop: the union box, largest gap and labels of the run of up
        to r labels from i. */
    static method Run(boxes: seq<Box>, i: int, r: nat) returns (box: Box, gap: int, labels: seq<int>)
      requires 1 <= i <= |boxes| && r >= 1
      ensures var m := Avail(|boxes|, i, r);
        box == SpanBox(boxes, i, m) && gap == SpanGap(boxes, i, m) && labels == Range(i, i + m)
    {
      var b: Option<Box> := None;
      gap := 0;
      labels := [];
      var hi := Min(|boxes| + 1, i + r);
      for j := i to hi
        invariant labels == Range(i, j)
        invariant j == i ==> b.None? && gap == 0
        invariant j > i ==> b == Some(SpanBox(boxes, i, j - i)) && gap == SpanGap(boxes, i, j - i)
      {
        if b.Some? {
          gap := Max(gap, boxes[j - 1].c0 - b.value.c1);
        }
        b := Some(UnionOpt(b, boxes[j - 1]));
        labels := labels + [j];
      }
      box := b.value;
    }

    /** The group of the run of up to r labels from i: its union box and its labels. */
    static method RunOf(boxes: seq<Box>, i: int, r: nat) returns (g: Group)
      requires 1 <= i <= |boxes| && r >= 1
      ensures g == Candidate(boxes, i, r)
    {
      var box, _, labels := Run(boxes, i, r);
      g := Group(box, labels);
    }

    /** The three tests a run of more than one label must pass. */
    static method KeepRun(boxes: seq<Box>, p: Params, aspect: Box -> real, i: int, r: nat) returns (keep: Result<bool>)
      requires 1 <= i <= |boxes| && r >= 1
      ensures keep == Keep(boxes, p, aspect, i, r)
    {
      var box, gap, labels := Run(boxes, i, r);
      if r == 1 {
        return Ok(true);
      }
      if |labels| != r || gap > p.maxdist {
        return Ok(false);
      }
      var a := aspect(box);
      if a == 0.0 {
        return Err(ZeroDivisionError);
      }
      keep := Ok(!(1.0 / a > p.maxaspect));
    }
  }

  lemma Regroup<T>(a: seq<T>, x: T, b: seq<T>, c: seq<T>)
    ensures a + ([x] + b + c) == (a + [x]) + (b + c)
  {
  }

  // ---------------------------------------------------------------
  // The loops of the lattice builders, one level each
  // ---------------------------------------------------------------

  /** `[-1] + [fst.newState() for i in range(1, final + 1)]` */
  method NewLabelStates(fst: OcroFst, final: int) returns (states: seq<int>)
    modifies fst
    ensures Build(fst.View(), states, None) == old(LabelStates(fst.View(), final))
  {
    ghost var v := fst.View();
    ghost var m: nat := if final > 0 then final else 0;
    states := [-1];
    var l := 1;
    while l <= final
      invariant 1 <= l <= m + 1
      invariant fst.View() == v.(nstates := v.nstates + l - 1)
      invariant states == [-1] + seq(l - 1, k => v.nstates + k)
    {
      var s := fst.NewState();
      assert seq(l, k => v.nstates + k) == seq(l - 1, k => v.nstates + k) + [s];
      states := states + [s];
      l := l + 1;
    }
  }

  /** One code point of a hypothesis: its arc, and the space branch after the last one. */
  method AddChar(fst: OcroFst, states: seq<int>, h: Hyp, k: nat, state: int, x: Ctx)
    returns (states': seq<int>, nxt: int, failed: Option<Error>)
    requires k < |h.cls|
    modifies fst
    ensures (Build(fst.View(), states', failed), nxt) == old(CharStep(Build(fst.View(), states, None), h, k, state, x))
  {
    var n := |h.cls|;
    var c := h.cls[k];
    states' := states;
    failed := None;
    if k < n - 1 {
      nxt := fst.NewState();
      states' := states' + [nxt];
    } else {
      var s := PyAt(states, x.end + 1);
      if s.None? {
        return states, -1, Some(IndexError);
      }
      nxt := s.value;
    }
    var cc := CharCost(k, n, h.cost, x.no);
    if cc < Ceiling {
      fst.AddTransition(state, nxt, c, cc, x.sid);
    }
    if SpaceBranch(h, k, x) {
      var sp := fst.NewState();
      states' := states' + [sp];
      fst.AddTransition(state, sp, c, FirstLeg(k, h.cost), x.sid);
      fst.AddTransition(sp, nxt, Space, x.yes, 0);
    }
  }

  /** One hypothesis: a chain of arcs from `states[start]` to `states[end + 1]`. */
  method AddHyp(fst: OcroFst, states: seq<int>, h: Hyp, x: Ctx) returns (states': seq<int>, failed: Option<Error>)
    modifies fst
    ensures Build(fst.View(), states', failed) == old(HypRun(Build(fst.View(), states, None), h, x))
  {
    ghost var want := HypRun(Build(fst.View(), states, None), h, x);
    var s := PyAt(states, x.start);
    if s.None? {
      return states, Some(IndexError);
    }
    var state := s.value;
    states' := states;
    var k := 0;
    while k < |h.cls|
      invariant k <= |h.cls|
      invariant Chars(Build(fst.View(), states', None), h, k, state, x) == want
    {
      var more, nxt, f := AddChar(fst, states', h, k, state, x);
      states', state := more, nxt;
      if f.Some? {
        return states', f;
      }
      k := k + 1;
    }
    failed := None;
  }

  /** The hypotheses of one group. */
  method AddHyps(fst: OcroFst, states: seq<int>, hs: seq<Hyp>, x: Ctx) returns (states': seq<int>, failed: Option<Error>)
    modifies fst
    ensures Build(fst.View(), states', failed) == old(HypsUpTo(Build(fst.View(), states, None), hs, |hs|, x))
  {
    ghost var b0 := Build(fst.View(), states, None);
    states' := states;
    var j := 0;
    while j < |hs|
      invariant j <= |hs|
      invariant Build(fst.View(), states', None) == HypsUpTo(b0, hs, j, x)
    {
      var more, f := AddHyp(fst, states', hs[j], x);
      states' := more;
      assert Build(fst.View(), states', f) == HypsUpTo(b0, hs, j + 1, x);
      if f.Some? {
        HypsFailedStays(b0, hs, j + 1, |hs|, x);
        return states', f;
      }
      j := j + 1;
    }
    failed := None;
  }

  /** The loop of `getLatticeAsFST` over the groups. */
  method AddGroups(fst: OcroFst, states: seq<int>, st: Store, guarded: bool) returns (states': seq<int>, failed: Option<Error>)
    requires Parallel(st) && LabelsNonEmpty(st)
    modifies fst
    ensures Build(fst.View(), states', failed) == old(GroupsUpTo(Build(fst.View(), states, None), st, |st.groups|, guarded))
  {
    ghost var b0 := Build(fst.View(), states, None);
    states' := states;
    var i := 0;
    while i < |st.groups|
      invariant i <= |st.groups|
      invariant Build(fst.View(), states', None) == GroupsUpTo(b0, st, i, guarded)
    {
      var x := GroupCtx(st, i, guarded);
      var more, f := AddHyps(fst, states', st.costs[i], x);
      states' := more;
      assert Build(fst.View(), states', f) == GroupsUpTo(b0, st, i + 1, guarded);
      if f.Some? {
        GroupsFailedStays(b0, st, i + 1, |st.groups|, guarded);
        return states', f;
      }
      i := i + 1;
    }
    failed := None;
  }

  /** One hypothesis of `getLatticeLigAsFST`. */
  method AddLigHyp(fst: OcroFst, states: seq<int>, h: Hyp, x: Ctx, ord: LigOrd) returns (states': seq<int>, failed: Option<Error>)
    modifies fst
    ensures Build(fst.View(), states', failed) == old(LigHyp(Build(fst.View(), states, None), h, x, ord))
  {
    states' := states;
    failed := None;
    var s, t := PyAt(states, x.start), PyAt(states, x.end + 1);
    if s.None? || t.None? {
      return states, Some(IndexError);
    }
    var state, nxt := s.value, t.value;
    if h.cls !in ord || ord[h.cls] < 0 {
      return states, Some(RecognitionError("unknown output ligature"));
    }
    var c := ord[h.cls];
    if h.cost + x.no < Ceiling {
      fst.AddTransition(state, nxt, c, h.cost + x.no, x.sid);
    }
    if h.cost + x.yes < Ceiling {
      var sp := fst.NewState();
      states' := states' + [sp];
      fst.AddTransition(state, sp, c, h.cost, x.sid);
      fst.AddTransition(sp, nxt, Space, x.yes, 0);
    }
  }

  method AddLigHyps(fst: OcroFst, states: seq<int>, hs: seq<Hyp>, x: Ctx, ord: LigOrd) returns (states': seq<int>, failed: Option<Error>)
    modifies fst
    ensures Build(fst.View(), states', failed) == old(LigHypsUpTo(Build(fst.View(), states, None), hs, |hs|, x, ord))
  {
    ghost var b0 := Build(fst.View(), states, None);
    states' := states;
    var j := 0;
    while j < |hs|
      invariant j <= |hs|
      invariant Build(fst.View(), states', None) == LigHypsUpTo(b0, hs, j, x, ord)
    {
      ghost var prev := LigHypsUpTo(b0, hs, j, x, ord);
      var more, f := AddLigHyp(fst, states', hs[j], x, ord);
      states' := more;
      assert Build(fst.View(), states', f) == LigHyp(prev, hs[j], x, ord) == LigHypsUpTo(b0, hs, j + 1, x, ord);
      if f.Some? {
        LigHypsFailedStays(b0, hs, j + 1, |hs|, x, ord);
        return states', f;
      }
      j := j + 1;
    }
    failed := None;
  }

  /** One group of `getLatticeLigAsFST`; `amin` of an empty label list raises. */
  method AddLigGroup(fst: OcroFst, states: seq<int>, st: Store, i: nat, ord: LigOrd) returns (states': seq<int>, failed: Option<Error>)
    requires Parallel(st) && i < |st.groups|
    modifies fst
    ensures var b := old(Build(fst.View(), states, None));
      Build(fst.View(), states', failed) ==
        if st.groups[i].labels == [] then b.(failed := Some(ValueError))
        else LigHypsUpTo(b, st.costs[i], |st.costs[i]|, GroupCtx(st, i, false), ord)
  {
    if st.groups[i].labels == [] {
      return states, Some(ValueError);
    }
    states', failed := AddLigHyps(fst, states, st.costs[i], GroupCtx(st, i, false), ord);
  }

  /** The loop of `getLatticeLigAsFST` over the groups. */
  method AddLigGroups(fst: OcroFst, states: seq<int>, st: Store, ord: LigOrd) returns (states': seq<int>, failed: Option<Error>)
    requires Parallel(st)
    modifies fst
    ensures Build(fst.View(), states', failed) == old(LigGroupsUpTo(Build(fst.View(), states, None), st, |st.groups|, ord))
  {
    ghost var b0 := Build(fst.View(), states, None);
    states' := states;
    var i := 0;
    while i < |st.groups|
      invariant i <= |st.groups|
      invariant Build(fst.View(), states', None) == LigGroupsUpTo(b0, st, i, ord)
    {
      var more, f := AddLigGroup(fst, states', st, i, ord);
      states' := more;
      assert Build(fst.View(), states', f) == LigGroupsUpTo(b0, st, i + 1, ord);
      if f.Some? {
        LigGroupsFailedStays(b0, st, i + 1, |st.groups|, ord);
        return states', f;
      }
      i := i + 1;
    }
    failed := None;
  }
}
