/** The Grouper's line-oriented lattice text format (`saveLattice` and
    `loadLattice` in ocrolib/grouper.py):

      segment <i>\t<start>:<end>\t<c0>:<r0>:<c1>:<r1>\t<yes> <no>
      chr <i>\t<j, width 4>\t<cost>\t<class>

    one `segment` line per group, followed by one `chr` line per hypothesis. */
module LatticeText {
  import opened Wrappers
  import opened Text
  import opened PyOps
  import opened Boxes
  import opened Grouping
  import opened LatticeBuild

  // ---------------------------------------------------------------
  // Writing
  // ---------------------------------------------------------------

  function SegmentFields(i: int, g: Group, sc: SpaceCost): seq<Text>
    requires g.labels != []
  {
    var b := g.box;
    [Lit("segment"), FormatInt(i),
     FormatInt(MinOf(g.labels)) + [Colon] + FormatInt(MaxOf(g.labels)),
     FormatInt(b.c0) + [Colon] + FormatInt(b.r0) + [Colon] + FormatInt(b.c1) + [Colon] + FormatInt(b.r1),
     FormatFixed(sc.yes), FormatFixed(NoSpaceCost(sc))]
  }

  const SegmentSeps: seq<Text> := [[Space], [Tab], [Tab], [Tab], [Space]]

  /** The `segment` line of group i; the no-space cost is written as 0 when neither
      space cost was set. */
  function SegmentLine(i: int, g: Group, sc: SpaceCost): Text
    requires g.labels != []
  {
    Join(SegmentFields(i, g, sc), SegmentSeps) + [Newline]
  }

  function ChrFields(i: int, j: int, h: Hyp): seq<Text>
  {
    [Lit("chr"), FormatInt(i), FormatInt(j), FormatFixed(h.cost), h.cls]
  }

  function ChrSeps(j: int): seq<Text>
  {
    [[Space], [Tab] + Padding4(j), [Tab], [Tab]]
  }

  /** The `chr` line of hypothesis j of group i. */
  function ChrLine(i: int, j: int, h: Hyp): Text
  {
    Join(ChrFields(i, j, h), ChrSeps(j)) + [Newline]
  }

  /** The `chr` lines of the hypotheses `hs` of group i. */
  function ChrLines(i: int, hs: seq<Hyp>): seq<Text>
  {
    seq(|hs|, j requires 0 <= j < |hs| => ChrLine(i, j, hs[j]))
  }

  /** The lines `saveLattice` writes for groups i .., and whether it got to the end:
      a group without labels stops it (`amin` of an empty list raises). */
  function SaveFrom(st: Store, i: nat): (r: (seq<Text>, Outcome))
    requires Parallel(st)
    ensures r.1 == Pass <==> forall k :: i <= k < |st.groups| ==> st.groups[k].labels != []
    decreases |st.groups| - i
  {
    if i >= |st.groups| then ([], Pass)
    else if st.groups[i].labels == [] then ([], Fail(ValueError))
    else
      var (rest, o) := SaveFrom(st, i + 1);
      ([SegmentLine(i, st.groups[i], st.spaceCosts[i])] + ChrLines(i, st.costs[i]) + rest, o)
  }

  lemma SaveFromCons(st: Store, i: nat)
    requires Parallel(st) && i < |st.groups| && st.groups[i].labels != []
    ensures SaveFrom(st, i) ==
      ([SegmentLine(i, st.groups[i], st.spaceCosts[i])] + ChrLines(i, st.costs[i]) + SaveFrom(st, i + 1).0,
       SaveFrom(st, i + 1).1)
  {
  }

  function Save(st: Store): (seq<Text>, Outcome)
    requires Parallel(st)
  {
    SaveFrom(st, 0)
  }

  // ---------------------------------------------------------------
  // Reading
  // ---------------------------------------------------------------

  /** `f[k]` */
  function Field(f: seq<Text>, k: nat): Result<Text>
  {
    if k < |f| then Ok(f[k]) else Err(IndexError)
  }

  /** `[int(x) for x in pieces]` */
  function Ints(pieces: seq<Text>): (r: Result<seq<int>>)
    ensures r.Ok? ==> |r.value| == |pieces|
  {
    if pieces == [] then Ok([])
    else
      var v :- ParseInt(pieces[0]);
      var rest :- Ints(pieces[1..]);
      Ok([v] + rest)
  }

  /** `[float(x) for x in pieces]` */
  function Floats(pieces: seq<Text>): (r: Result<seq<Cost>>)
    ensures r.Ok? ==> |r.value| == |pieces|
  {
    if pieces == [] then Ok([])
    else
      var v :- ParseFixed(pieces[0]);
      var rest :- Floats(pieces[1..]);
      Ok([v] + rest)
  }

  /** `range(a, b)` for any a and b. */
  function PyRange(a: int, b: int): seq<int>
  {
    if a <= b then Range(a, b) else []
  }

  const SegmentOrder := "bad input format ('segment' out of order)"
  const ChrOrder := "bad input format ('chr' out of order)"

  /** `line[:-1].split()` */
  function Fields(line: Text): seq<Text>
  {
    Split(if line == [] then [] else line[..|line| - 1])
  }

  /** What each field of a line converts to, before the lists are looked at. Python
      converts the fields lazily, in the order of the fields; each conversion is kept
      as a `Result`, and `LoadRow` looks at them in that order. */
  datatype Row =
    | SegmentRow(index: Result<int>, span: Result<(int, int)>, box: Result<Box>, spaceCost: Result<SpaceCost>)
    | ChrRow(index: Result<int>, pos: Result<int>, cost: Result<Cost>, cls: Result<Text>)
    | CommentRow
    | BadRow(error: Error)

  function IntField(f: seq<Text>, k: nat): Result<int>
  {
    var t :- Field(f, k);
    ParseInt(t)
  }

  /** `start,end = [int(x) for x in f[2].split(":")]` */
  function SpanField(f: seq<Text>): Result<(int, int)>
  {
    var t :- Field(f, 2);
    var se :- Ints(SplitOn(t, Colon));
    if |se| != 2 then Err(ValueError) else Ok((se[0], se[1]))
  }

  /** `(x0,y0,x1,y1) = [int(x) for x in f[3].split(":")]`, the box rows `y0:y1` by
      columns `x0:x1`. */
  function BoxField(f: seq<Text>): Result<Box>
  {
    var t :- Field(f, 3);
    var bv :- Ints(SplitOn(t, Colon));
    if |bv| != 4 then Err(ValueError) else Ok(Box(bv[1], bv[3], bv[0], bv[2]))
  }

  /** `yes,no = [float(x) for x in f[4:6]]` */
  function SpaceCostField(f: seq<Text>): Result<SpaceCost>
  {
    var yn :- Floats(if |f| <= 4 then [] else f[4..if |f| < 6 then |f| else 6]);
    if |yn| != 2 then Err(ValueError) else Ok(SpaceCost(yn[0], yn[1]))
  }

  function FixedField(f: seq<Text>, k: nat): Result<Cost>
  {
    var t :- Field(f, k);
    ParseFixed(t)
  }

  /** The fields of one line as a row: the first field says which kind. */
  function ParseRow(f: seq<Text>): Row
  {
    match Field(f, 0)
    case Err(e) => BadRow(e)
    case Ok(head) =>
      if head == Lit("segment") then SegmentRow(IntField(f, 1), SpanField(f), BoxField(f), SpaceCostField(f))
      else if head == Lit("chr") then ChrRow(IntField(f, 1), IntField(f, 2), FixedField(f, 3), Field(f, 4))
      else if head == Lit("#") then CommentRow
      else BadRow(BadFormat)
  }

  /** One iteration of `loadLattice`'s loop on the row of line `lineno`: the lists
      after it, or the exception it raises (the lists are only appended to once the
      line got through). */
  function LoadRow(acc: Store, row: Row, lineno: nat): Result<Store>
  {
    match row
    case SegmentRow(index, span, box, spaceCost) =>
      var i :- index;
      if i != |acc.groups| then Err(LineError(SegmentOrder, lineno))
      else
        var se :- span;
        var b :- box;
        var sc :- spaceCost;
        Ok(Store(acc.groups + [Group(b, PyRange(se.0, se.1 + 1))], acc.costs + [[]], acc.spaceCosts + [sc]))
    case ChrRow(index, pos, cost, cls) =>
      var i :- index;
      var j :- pos;
      if i != |acc.groups| - 1 then Err(LineError(SegmentOrder, lineno))
      else (match PyIndex(i, |acc.costs|)
        case None => Err(IndexError)
        case Some(k) =>
          if j != |acc.costs[k]| then Err(LineError(ChrOrder, lineno))
          else
            var c :- cost;
            var t :- cls;
            Ok(acc.(costs := acc.costs[k := acc.costs[k] + [Hyp(c, t)]])))
    case CommentRow => Ok(acc)
    case BadRow(e) => Err(e)
  }

  /** The lists, and the exception that stopped the loop, if any. */
  datatype Loaded = Loaded(st: Store, failed: Option<Error>)

  /** The rows of the lines. */
  function RowsOf(lines: seq<Text>): seq<Row>
  {
    seq(|lines|, k requires 0 <= k < |lines| => ParseRow(Fields(lines[k])))
  }

  /** The loop of `loadLattice` over the rows of the lines from number `lineno` on. */
  function LoadFrom(acc: Store, rows: seq<Row>, lineno: nat): Loaded
    decreases |rows|
  {
    if rows == [] then Loaded(acc, None)
    else match LoadRow(acc, rows[0], lineno)
      case Err(e) => Loaded(acc, Some(e))
      case Ok(next) => LoadFrom(next, rows[1..], lineno + 1)
  }

  const NoGroups := Store([], [], [])

  /** `loadLattice` on the text of a stream. */
  function Load(text: Text): Loaded
  {
    LoadFrom(NoGroups, RowsOf(ReadLines(text)), 0)
  }

  /** Reading one line keeps one hypothesis list and one space cost pair per group. */
  lemma LoadRowParallel(acc: Store, row: Row, lineno: nat)
    requires Parallel(acc) && LoadRow(acc, row, lineno).Ok?
    ensures Parallel(LoadRow(acc, row, lineno).value)
    ensures |LoadRow(acc, row, lineno).value.groups| >= |acc.groups|
  {
  }

  /** Wherever reading stops, the lists read are parallel. */
  lemma {:induction false} LoadFromParallel(acc: Store, rows: seq<Row>, lineno: nat)
    requires Parallel(acc)
    ensures Parallel(LoadFrom(acc, rows, lineno).st)
    decreases |rows|
  {
    if rows != [] {
      match LoadRow(acc, rows[0], lineno)
      case Err(_) =>
      case Ok(next) =>
        LoadRowParallel(acc, rows[0], lineno);
        LoadFromParallel(next, rows[1..], lineno + 1);
    }
  }

  /** `loadLattice` leaves parallel lists, whether or not it reaches the end. */
  lemma LoadParallel(text: Text)
    ensures Parallel(Load(text).st)
  {
    LoadFromParallel(NoGroups, RowsOf(ReadLines(text)), 0);
  }

  // ---------------------------------------------------------------
  // The round trip
  // ---------------------------------------------------------------

  /** What can be written and read back: every group has labels, and every class is
      a non-empty token without whitespace. */
  predicate Savable(st: Store)
  {
    Parallel(st) && LabelsNonEmpty(st) &&
    forall i, j :: 0 <= i < |st.costs| && 0 <= j < |st.costs[i]| ==>
      st.costs[i][j].cls != [] && NoSpace(st.costs[i][j].cls)
  }

  /** A group as it reads back: labels `start .. end`, the same box. */
  function ReloadedGroup(g: Group): Group
    requires g.labels != []
  {
    Group(g.box, Range(MinOf(g.labels), MaxOf(g.labels) + 1))
  }

  /** The no-space cost as it reads back. */
  function ReloadedSpaceCost(sc: SpaceCost): SpaceCost
  {
    SpaceCost(sc.yes, NoSpaceCost(sc))
  }

  /** The store as it reads back: label ranges, the same hypotheses, and the
      no-space cost 0 where neither space cost was set. */
  function Reloaded(st: Store): Store
    requires Parallel(st) && LabelsNonEmpty(st)
  {
    Store(seq(|st.groups|, i requires 0 <= i < |st.groups| => ReloadedGroup(st.groups[i])),
          st.costs,
          seq(|st.spaceCosts|, i requires 0 <= i < |st.spaceCosts| => ReloadedSpaceCost(st.spaceCosts[i])))
  }

  lemma NoSpaceConcat(a: Text, b: Text)
    requires NoSpace(a) && NoSpace(b)
    ensures NoSpace(a + b)
  {
    assert forall k :: 0 <= k < |a + b| ==> (a + b)[k] == (if k < |a| then a[k] else b[k - |a|]);
  }

  /** Two integers joined by a colon split back into the two. */
  lemma SplitColon2(a: int, b: int)
    ensures SplitOn(FormatInt(a) + [Colon] + FormatInt(b), Colon) == [FormatInt(a), FormatInt(b)]
    ensures NoSpace(FormatInt(a) + [Colon] + FormatInt(b))
  {
    SplitOnCons(FormatInt(a), Colon, FormatInt(b));
    SplitOnNone(FormatInt(b), Colon);
    NoSpaceConcat(FormatInt(a), [Colon]);
    NoSpaceConcat(FormatInt(a) + [Colon], FormatInt(b));
  }

  lemma SplitColon4(a: int, b: int, c: int, d: int)
    ensures SplitOn(FormatInt(a) + [Colon] + FormatInt(b) + [Colon] + FormatInt(c) + [Colon] + FormatInt(d), Colon)
      == [FormatInt(a), FormatInt(b), FormatInt(c), FormatInt(d)]
    ensures NoSpace(FormatInt(a) + [Colon] + FormatInt(b) + [Colon] + FormatInt(c) + [Colon] + FormatInt(d))
  {
    var ta, tb, tc, td := FormatInt(a), FormatInt(b), FormatInt(c), FormatInt(d);
    assert ta + [Colon] + tb + [Colon] + tc + [Colon] + td == ta + [Colon] + (tb + [Colon] + (tc + [Colon] + td));
    SplitOnCons(ta, Colon, tb + [Colon] + (tc + [Colon] + td));
    SplitOnCons(tb, Colon, tc + [Colon] + td);
    SplitOnCons(tc, Colon, td);
    SplitOnNone(td, Colon);
    NoSpaceConcat(ta, [Colon]);
    NoSpaceConcat(ta + [Colon], tb);
    NoSpaceConcat(ta + [Colon] + tb, [Colon]);
    NoSpaceConcat(ta + [Colon] + tb + [Colon], tc);
    NoSpaceConcat(ta + [Colon] + tb + [Colon] + tc, [Colon]);
    NoSpaceConcat(ta + [Colon] + tb + [Colon] + tc + [Colon], td);
  }

  lemma SegmentLineFields(i: int, g: Group, sc: SpaceCost)
    requires g.labels != []
    ensures IsLine(SegmentLine(i, g, sc))
    ensures Fields(SegmentLine(i, g, sc)) == SegmentFields(i, g, sc)
  {
    var f := SegmentFields(i, g, sc);
    var b := g.box;
    SplitColon2(MinOf(g.labels), MaxOf(g.labels));
    SplitColon4(b.c0, b.r0, b.c1, b.r1);
    assert Tokens(f);
    var body := Join(f, SegmentSeps);
    JoinNoNewline(f, SegmentSeps);
    SplitJoin(f, SegmentSeps);
    assert SegmentLine(i, g, sc)[..|SegmentLine(i, g, sc)| - 1] == body;
  }

  lemma ChrLineFields(i: int, j: int, h: Hyp)
    requires h.cls != [] && NoSpace(h.cls)
    ensures IsLine(ChrLine(i, j, h))
    ensures Fields(ChrLine(i, j, h)) == ChrFields(i, j, h)
  {
    var f := ChrFields(i, j, h);
    var seps := ChrSeps(j);
    assert Blank(seps[1]);
    assert Tokens(f);
    var body := Join(f, seps);
    JoinNoNewline(f, seps);
    SplitJoin(f, seps);
    assert ChrLine(i, j, h)[..|ChrLine(i, j, h)| - 1] == body;
  }

  lemma IntsCons(p: Text, ps: seq<Text>, v: int, vs: seq<int>)
    requires ParseInt(p) == Ok(v) && Ints(ps) == Ok(vs)
    ensures Ints([p] + ps) == Ok([v] + vs)
  {
    assert ([p] + ps)[1..] == ps;
  }

  lemma FloatsCons(p: Text, ps: seq<Text>, v: Cost, vs: seq<Cost>)
    requires ParseFixed(p) == Ok(v) && Floats(ps) == Ok(vs)
    ensures Floats([p] + ps) == Ok([v] + vs)
  {
    assert ([p] + ps)[1..] == ps;
  }

  function FormatInts(vs: seq<int>): (ps: seq<Text>)
    ensures |ps| == |vs| && forall k :: 0 <= k < |vs| ==> ps[k] == FormatInt(vs[k])
  {
    if vs == [] then []
    else
      var rest := FormatInts(vs[1..]);
      assert forall k :: 1 <= k < |vs| ==> rest[k - 1] == FormatInt(vs[k]);
      [FormatInt(vs[0])] + rest
  }

  function FormatFixeds(vs: seq<Cost>): (ps: seq<Text>)
    ensures |ps| == |vs| && forall k :: 0 <= k < |vs| ==> ps[k] == FormatFixed(vs[k])
  {
    if vs == [] then []
    else
      var rest := FormatFixeds(vs[1..]);
      assert forall k :: 1 <= k < |vs| ==> rest[k - 1] == FormatFixed(vs[k]);
      [FormatFixed(vs[0])] + rest
  }

  lemma {:induction false} IntsOf(vs: seq<int>)
    ensures Ints(FormatInts(vs)) == Ok(vs)
  {
    if vs != [] {
      ParseFormatInt(vs[0]);
      IntsOf(vs[1..]);
      IntsCons(FormatInt(vs[0]), FormatInts(vs[1..]), vs[0], vs[1..]);
      assert vs == [vs[0]] + vs[1..];
    }
  }

  lemma {:induction false} FloatsOf(vs: seq<Cost>)
    ensures Floats(FormatFixeds(vs)) == Ok(vs)
  {
    if vs != [] {
      ParseFormatFixed(vs[0]);
      FloatsOf(vs[1..]);
      FloatsCons(FormatFixed(vs[0]), FormatFixeds(vs[1..]), vs[0], vs[1..]);
      assert vs == [vs[0]] + vs[1..];
    }
  }

  /** The row a `segment` line of group g, number i, parses as. */
  function SegmentRowOf(i: int, g: Group, sc: SpaceCost): Row
    requires g.labels != []
  {
    SegmentRow(Ok(i), Ok((MinOf(g.labels), MaxOf(g.labels))), Ok(g.box), Ok(ReloadedSpaceCost(sc)))
  }

  /** The rows of the `chr` lines of the hypotheses `hs` of group i. */
  function ChrRowsOf(i: int, hs: seq<Hyp>): seq<Row>
  {
    seq(|hs|, j requires 0 <= j < |hs| => ChrRow(Ok(i), Ok(j), Ok(hs[j].cost), Ok(hs[j].cls)))
  }

  /** The rows of the lines written for groups i .. */
  function SavedRows(st: Store, i: nat): seq<Row>
    requires Parallel(st) && LabelsNonEmpty(st)
    decreases |st.groups| - i
  {
    if i >= |st.groups| then []
    else [SegmentRowOf(i, st.groups[i], st.spaceCosts[i])] + ChrRowsOf(i, st.costs[i]) + SavedRows(st, i + 1)
  }

  lemma SpanOf(f: seq<Text>, lo: int, hi: int)
    requires |f| > 2 && f[2] == FormatInt(lo) + [Colon] + FormatInt(hi)
    ensures SpanField(f) == Ok((lo, hi))
  {
    SplitColon2(lo, hi);
    IntsOf([lo, hi]);
    assert [FormatInt(lo), FormatInt(hi)] == FormatInts([lo, hi]);
    assert Ints(SplitOn(f[2], Colon)) == Ok([lo, hi]);
  }

  lemma BoxOf(f: seq<Text>, b: Box)
    requires |f| > 3 && f[3] == FormatInt(b.c0) + [Colon] + FormatInt(b.r0) + [Colon] + FormatInt(b.c1) + [Colon] + FormatInt(b.r1)
    ensures BoxField(f) == Ok(b)
  {
    SplitColon4(b.c0, b.r0, b.c1, b.r1);
    IntsOf([b.c0, b.r0, b.c1, b.r1]);
    assert [FormatInt(b.c0), FormatInt(b.r0), FormatInt(b.c1), FormatInt(b.r1)] == FormatInts([b.c0, b.r0, b.c1, b.r1]);
    assert Ints(SplitOn(f[3], Colon)) == Ok([b.c0, b.r0, b.c1, b.r1]);
  }

  lemma SpaceCostOf(f: seq<Text>, sc: SpaceCost)
    requires |f| == 6 && f[4] == FormatFixed(sc.yes) && f[5] == FormatFixed(NoSpaceCost(sc))
    ensures SpaceCostField(f) == Ok(ReloadedSpaceCost(sc))
  {
    assert f[4..6] == FormatFixeds([sc.yes, NoSpaceCost(sc)]);
    FloatsOf([sc.yes, NoSpaceCost(sc)]);
  }

  /** The fields of a `segment` line convert back to what was written. */
  lemma SegmentFieldsRow(i: int, g: Group, sc: SpaceCost)
    requires g.labels != []
    ensures ParseRow(SegmentFields(i, g, sc)) == SegmentRowOf(i, g, sc)
  {
    var f := SegmentFields(i, g, sc);
    var b := g.box;
    var lo, hi := MinOf(g.labels), MaxOf(g.labels);
    assert f[0] == Lit("segment");
    assert f[1] == FormatInt(i);
    assert f[2] == FormatInt(lo) + [Colon] + FormatInt(hi);
    assert f[3] == FormatInt(b.c0) + [Colon] + FormatInt(b.r0) + [Colon] + FormatInt(b.c1) + [Colon] + FormatInt(b.r1);
    assert f[4] == FormatFixed(sc.yes) && f[5] == FormatFixed(NoSpaceCost(sc));
    ParseFormatInt(i);
    SpanOf(f, lo, hi);
    BoxOf(f, b);
    SpaceCostOf(f, sc);
  }

  /** The fields of a `chr` line convert back to what was written. */
  lemma ChrFieldsRow(i: int, j: int, h: Hyp)
    ensures ParseRow(ChrFields(i, j, h)) == ChrRow(Ok(i), Ok(j), Ok(h.cost), Ok(h.cls))
  {
    var f := ChrFields(i, j, h);
    assert f[0] == Lit("chr") && f[1] == FormatInt(i) && f[2] == FormatInt(j);
    assert f[3] == FormatFixed(h.cost) && f[4] == h.cls;
    assert Lit("chr") != Lit("segment");
    ParseFormatInt(i);
    ParseFormatInt(j);
    ParseFormatFixed(h.cost);
  }

  predicate AllLines(ls: seq<Text>)
    decreases |ls|
  {
    ls == [] || (IsLine(ls[0]) && AllLines(ls[1..]))
  }

  lemma {:induction false} AllLinesConcat(a: seq<Text>, b: seq<Text>)
    requires AllLines(a) && AllLines(b)
    ensures AllLines(a + b)
    decreases |a|
  {
    if a == [] {
      assert a + b == b;
    } else {
      assert (a + b)[0] == a[0] && (a + b)[1..] == a[1..] + b;
      AllLinesConcat(a[1..], b);
    }
  }

  lemma {:induction false} AllLinesEach(ls: seq<Text>)
    requires AllLines(ls)
    ensures forall k :: 0 <= k < |ls| ==> IsLine(ls[k])
    decreases |ls|
  {
    if ls != [] {
      AllLinesEach(ls[1..]);
      assert forall k :: 1 <= k < |ls| ==> ls[k] == ls[1..][k - 1];
    }
  }

  lemma {:induction false} EachAllLines(ls: seq<Text>)
    requires forall k :: 0 <= k < |ls| ==> IsLine(ls[k])
    ensures AllLines(ls)
    decreases |ls|
  {
    if ls != [] {
      assert forall k :: 0 <= k < |ls[1..]| ==> ls[1..][k] == ls[k + 1];
      EachAllLines(ls[1..]);
    }
  }

  lemma RowsConcat(a: seq<Text>, b: seq<Text>)
    ensures RowsOf(a + b) == RowsOf(a) + RowsOf(b)
  {
    assert forall k :: 0 <= k < |a + b| ==> (a + b)[k] == (if k < |a| then a[k] else b[k - |a|]);
  }

  lemma ChrLinesRows(i: int, hs: seq<Hyp>)
    requires forall m :: 0 <= m < |hs| ==> hs[m].cls != [] && NoSpace(hs[m].cls)
    ensures AllLines(ChrLines(i, hs)) && RowsOf(ChrLines(i, hs)) == ChrRowsOf(i, hs)
  {
    forall m | 0 <= m < |hs|
      ensures IsLine(ChrLines(i, hs)[m]) && RowsOf(ChrLines(i, hs))[m] == ChrRowsOf(i, hs)[m]
    {
      ChrLineFields(i, m, hs[m]);
      ChrFieldsRow(i, m, hs[m]);
    }
    EachAllLines(ChrLines(i, hs));
  }

  /** The lines written for one group are lines. */
  lemma GroupLines(i: int, g: Group, sc: SpaceCost, hs: seq<Hyp>)
    requires g.labels != []
    requires forall m :: 0 <= m < |hs| ==> hs[m].cls != [] && NoSpace(hs[m].cls)
    ensures AllLines([SegmentLine(i, g, sc)] + ChrLines(i, hs))
  {
    SegmentLineFields(i, g, sc);
    assert AllLines([SegmentLine(i, g, sc)]);
    ChrLinesRows(i, hs);
    AllLinesConcat([SegmentLine(i, g, sc)], ChrLines(i, hs));
  }

  /** The lines written for one group convert back to its rows. */
  lemma GroupRows(i: int, g: Group, sc: SpaceCost, hs: seq<Hyp>)
    requires g.labels != []
    requires forall m :: 0 <= m < |hs| ==> hs[m].cls != [] && NoSpace(hs[m].cls)
    ensures RowsOf([SegmentLine(i, g, sc)] + ChrLines(i, hs)) == [SegmentRowOf(i, g, sc)] + ChrRowsOf(i, hs)
  {
    var seg := SegmentLine(i, g, sc);
    SegmentLineFields(i, g, sc);
    SegmentFieldsRow(i, g, sc);
    assert RowsOf([seg]) == [SegmentRowOf(i, g, sc)];
    ChrLinesRows(i, hs);
    RowsConcat([seg], ChrLines(i, hs));
  }

  /** The lines `saveLattice` writes are lines. */
  lemma {:induction false} SavedLines(st: Store, i: nat)
    requires Savable(st) && i <= |st.groups|
    ensures AllLines(SaveFrom(st, i).0)
    decreases |st.groups| - i
  {
    if i < |st.groups| {
      var block := [SegmentLine(i, st.groups[i], st.spaceCosts[i])] + ChrLines(i, st.costs[i]);
      var rest := SaveFrom(st, i + 1).0;
      assert SaveFrom(st, i).0 == block + rest;
      GroupLines(i, st.groups[i], st.spaceCosts[i], st.costs[i]);
      SavedLines(st, i + 1);
      AllLinesConcat(block, rest);
    }
  }

  /** The lines `saveLattice` writes convert back to the rows it meant. */
  lemma {:induction false} SavedLinesRows(st: Store, i: nat)
    requires Savable(st) && i <= |st.groups|
    ensures RowsOf(SaveFrom(st, i).0) == SavedRows(st, i)
    decreases |st.groups| - i
  {
    if i < |st.groups| {
      var block := [SegmentLine(i, st.groups[i], st.spaceCosts[i])] + ChrLines(i, st.costs[i]);
      var rest := SaveFrom(st, i + 1).0;
      assert SaveFrom(st, i).0 == block + rest;
      GroupRows(i, st.groups[i], st.spaceCosts[i], st.costs[i]);
      SavedLinesRows(st, i + 1);
      RowsConcat(block, rest);
    }
  }

  /** A row that gets through continues the loop with the lists it leaves. */
  lemma LoadFromCons(acc: Store, rows: seq<Row>, lineno: nat, next: Store)
    requires rows != [] && LoadRow(acc, rows[0], lineno) == Ok(next)
    ensures LoadFrom(acc, rows, lineno) == LoadFrom(next, rows[1..], lineno + 1)
  {
  }

  lemma {:induction false} LoadChrRows(acc: Store, hs: seq<Hyp>, j: nat, rest: seq<Row>, lineno: nat)
    requires Parallel(acc) && |acc.groups| >= 1 && j <= |hs|
    requires acc.costs[|acc.groups| - 1] == hs[..j]
    ensures var i := |acc.groups| - 1;
      LoadFrom(acc, ChrRowsOf(i, hs)[j..] + rest, lineno) ==
      LoadFrom(acc.(costs := acc.costs[i := hs]), rest, lineno + |hs| - j)
    decreases |hs| - j
  {
    var i := |acc.groups| - 1;
    var rows := ChrRowsOf(i, hs)[j..] + rest;
    if j == |hs| {
      assert rows == rest;
      assert hs[..j] == hs;
      assert acc.(costs := acc.costs[i := hs]) == acc;
    } else {
      var next := acc.(costs := acc.costs[i := acc.costs[i] + [hs[j]]]);
      assert rows[0] == ChrRow(Ok(i), Ok(j), Ok(hs[j].cost), Ok(hs[j].cls));
      assert rows[1..] == ChrRowsOf(i, hs)[j + 1..] + rest;
      assert PyIndex(i, |acc.costs|) == Some(i);
      assert LoadRow(acc, rows[0], lineno) == Ok(next);
      assert hs[..j] + [hs[j]] == hs[..j + 1];
      assert next.(costs := next.costs[i := hs]) == acc.(costs := acc.costs[i := hs]);
      LoadFromCons(acc, rows, lineno, next);
      LoadChrRows(next, hs, j + 1, rest, lineno + 1);
    }
  }

  /** The groups before i, as they read back. */
  function ReloadedPrefix(st: Store, i: nat): Store
    requires Parallel(st) && LabelsNonEmpty(st) && i <= |st.groups|
  {
    var r := Reloaded(st);
    Store(r.groups[..i], r.costs[..i], r.spaceCosts[..i])
  }

  lemma {:induction false} LoadSavedRows(st: Store, i: nat, lineno: nat)
    requires Savable(st) && i <= |st.groups|
    ensures LoadFrom(ReloadedPrefix(st, i), SavedRows(st, i), lineno) == Loaded(Reloaded(st), None)
    decreases |st.groups| - i
  {
    var r := Reloaded(st);
    if i == |st.groups| {
      assert ReloadedPrefix(st, i) == r;
    } else {
      var acc := ReloadedPrefix(st, i);
      var g, sc, hs := st.groups[i], st.spaceCosts[i], st.costs[i];
      var lo, hi := MinOf(g.labels), MaxOf(g.labels);
      assert lo <= hi by { assert g.labels[0] in g.labels; }
      var acc1 := Store(acc.groups + [ReloadedGroup(g)], acc.costs + [[]], acc.spaceCosts + [ReloadedSpaceCost(sc)]);
      var rest := SavedRows(st, i + 1);
      var rows := [SegmentRowOf(i, g, sc)] + ChrRowsOf(i, hs) + rest;
      assert SavedRows(st, i) == rows;
      assert rows[0] == SegmentRowOf(i, g, sc);
      assert rows[1..] == ChrRowsOf(i, hs)[0..] + rest;
      assert PyRange(lo, hi + 1) == Range(lo, hi + 1);
      assert LoadRow(acc, rows[0], lineno) == Ok(acc1);
      assert hs[..0] == [];
      assert acc1.(costs := acc1.costs[i := hs]) == ReloadedPrefix(st, i + 1);
      LoadFromCons(acc, rows, lineno, acc1);
      LoadChrRows(acc1, hs, 0, rest, lineno + 1);
      LoadSavedRows(st, i + 1, lineno + 1 + |hs|);
    }
  }

  /** `loadLattice` of the text `saveLattice` writes gives back the groups in order
      with their label ranges `start .. end` and boxes, every hypothesis list in
      order, and the space costs, the no-space cost reading back as 0 where neither
      space cost was set. */
  lemma LoadSave(st: Store)
    requires Savable(st)
    ensures Save(st).1 == Pass
    ensures Load(Concat(Save(st).0)) == Loaded(Reloaded(st), None)
  {
    SavedLines(st, 0);
    AllLinesEach(Save(st).0);
    SavedLinesRows(st, 0);
    ReadLinesConcat(Save(st).0);
    assert ReloadedPrefix(st, 0) == NoGroups;
    LoadSavedRows(st, 0, 0);
  }

  /** A `segment` line whose index is not the number of groups read so far fails with
      an assertion that names the line, whatever its other fields hold. */
  lemma SegmentOutOfOrder(acc: Store, f: seq<Text>, lineno: nat)
    requires |f| >= 2 && f[0] == Lit("segment")
    requires ParseInt(f[1]).Ok? && ParseInt(f[1]).value != |acc.groups|
    ensures LoadRow(acc, ParseRow(f), lineno) == Err(LineError(SegmentOrder, lineno))
  {
  }

  /** A `chr` line for another group than the last one read, or out of turn within it,
      fails with an assertion that names the line, whatever its cost and class. */
  lemma ChrOutOfOrder(acc: Store, f: seq<Text>, lineno: nat)
    requires Parallel(acc)
    requires |f| >= 3 && f[0] == Lit("chr")
    requires ParseInt(f[1]).Ok? && ParseInt(f[2]).Ok?
    requires var i, j := ParseInt(f[1]).value, ParseInt(f[2]).value;
      i != |acc.groups| - 1 || (|acc.groups| >= 1 && j != |acc.costs[i]|)
    ensures LoadRow(acc, ParseRow(f), lineno).Err? && LoadRow(acc, ParseRow(f), lineno).error.LineError?
    ensures LoadRow(acc, ParseRow(f), lineno).error.line == lineno
  {
    assert Lit("chr") != Lit("segment");
    var i := ParseInt(f[1]).value;
    if i == |acc.groups| - 1 {
      assert PyIndex(i, |acc.costs|) == Some(i);
    }
  }
}
