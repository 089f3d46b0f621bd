/** The two lattice builders of the Grouper (`getLatticeAsFST` and
    `getLatticeLigAsFST` in ocrolib/grouper.py) as functions from the FST's
    contents before the call to its contents after it.

    A build that raises leaves the FST as far as it got: `failed` records
    the exception and `fst` the arcs and states added until then. */
module LatticeBuild {
  import opened Wrappers
  import opened Text
  import opened PyOps
  import opened Fst
  import opened Grouping

  /** 1000.0: no arc reaching this cost is wanted in the lattice. */
  const Ceiling: Cost := 10_000_000

  /** 9999.0: space costs both above this mean the space costs were never set. */
  const SpaceCutoff: Cost := 99_990_000

  /** 999999.0: the space costs `clearLattice` starts with. */
  const Unset: Cost := 9_999_990_000

  /** The no-space cost used: 0 when neither space cost was set. */
  function NoSpaceCost(sc: SpaceCost): Cost
  {
    if sc.yes > SpaceCutoff && sc.no > SpaceCutoff then 0 else sc.no
  }

  /** The FST, the builder's `states` list, and the exception raised, if any. */
  datatype Build = Build(fst: FstView, states: seq<int>, failed: Option<Error>)

  /** What the builder knows about the group it is working on. */
  datatype Ctx = Ctx(start: int, end: int, sid: int, yes: Cost, no: Cost, guarded: bool)

  /** The context of group i: its first and last label, their packed id, its space costs.
      With `guarded`, the space branch is also pruned when its first arc reaches the ceiling. */
  function GroupCtx(st: Store, i: nat, guarded: bool): (x: Ctx)
    requires Parallel(st) && i < |st.groups| && st.groups[i].labels != []
    ensures x.start == MinOf(st.groups[i].labels) && x.end == MaxOf(st.groups[i].labels)
    ensures x.sid == Pack(x.start, x.end)
  {
    var labels := st.groups[i].labels;
    var start := MinOf(labels);
    var end := MaxOf(labels);
    Ctx(start, end, Pack(start, end), st.spaceCosts[i].yes, NoSpaceCost(st.spaceCosts[i]), guarded)
  }

  /** The cost of the arc for code point k of n: the hypothesis cost on the first,
      the no-space cost on the last. */
  function CharCost(k: nat, n: nat, cost: Cost, no: Cost): Cost
  {
    (if k == 0 then cost else 0) + (if k == n - 1 then no else 0)
  }

  /** The cost of the arc into the space state. */
  function FirstLeg(k: nat, cost: Cost): Cost
  {
    if k == 0 then cost else 0
  }

  function FreshState(b: Build): (r: (int, Build))
    ensures r.0 == b.fst.nstates && r.1.fst == Fresh(b.fst).1 && r.1.states == b.states + [r.0]
    ensures r.1.failed == b.failed
  {
    var (s, f) := Fresh(b.fst);
    (s, Build(f, b.states + [s], b.failed))
  }

  /** Whether code point k of the hypothesis also gets the branch through a space state. */
  predicate SpaceBranch(h: Hyp, k: nat, x: Ctx)
  {
    k == |h.cls| - 1 && x.yes < Ceiling && (!x.guarded || FirstLeg(k, h.cost) < Ceiling)
  }

  /** One iteration of the loop over the code points of a hypothesis: the arc
      for code point k from `state`, and the space branch after the last one.
      Returns the state the next code point starts from. */
  function CharStep(b: Build, h: Hyp, k: nat, state: int, x: Ctx): (Build, int)
    requires b.failed.None? && k < |h.cls|
  {
    var n := |h.cls|;
    var c := h.cls[k];
    var (nxt, b1) :=
      if k < n - 1 then FreshState(b)
      else match PyAt(b.states, x.end + 1)
        case None => (-1, b.(failed := Some(IndexError)))
        case Some(s) => (s, b);
    if b1.failed.Some? then (b1, nxt)
    else
      var cc := CharCost(k, n, h.cost, x.no);
      var b2 := if cc < Ceiling then b1.(fst := WithArc(b1.fst, Transition(state, nxt, c, cc, x.sid))) else b1;
      if SpaceBranch(h, k, x) then
        var (sp, b3) := FreshState(b2);
        var f := WithArc(b3.fst, Transition(state, sp, c, FirstLeg(k, h.cost), x.sid));
        (b3.(fst := WithArc(f, Transition(sp, nxt, Space, x.yes, 0))), nxt)
      else (b2, nxt)
  }

  /** The code points k .. n-1 of a hypothesis, starting at `state`. */
  function Chars(b: Build, h: Hyp, k: nat, state: int, x: Ctx): Build
    decreases |h.cls| - k
  {
    if b.failed.Some? || k >= |h.cls| then b
    else
      var (b2, nxt) := CharStep(b, h, k, state, x);
      Chars(b2, h, k + 1, nxt, x)
  }

  /** One hypothesis: its path starts at `states[start]`. */
  function HypRun(b: Build, h: Hyp, x: Ctx): Build
  {
    if b.failed.Some? then b
    else match PyAt(b.states, x.start)
      case None => b.(failed := Some(IndexError))
      case Some(s) => Chars(b, h, 0, s, x)
  }

  /** The first j hypotheses of a group. */
  function HypsUpTo(b: Build, hs: seq<Hyp>, j: nat, x: Ctx): Build
    requires j <= |hs|
  {
    if j == 0 then b else HypRun(HypsUpTo(b, hs, j - 1, x), hs[j - 1], x)
  }

  predicate LabelsNonEmpty(st: Store)
  {
    forall i :: 0 <= i < |st.groups| ==> st.groups[i].labels != []
  }

  /** The first i groups. */
  function GroupsUpTo(b: Build, st: Store, i: nat, guarded: bool): Build
    requires Parallel(st) && LabelsNonEmpty(st) && i <= |st.groups|
  {
    if i == 0 then b
    else HypsUpTo(GroupsUpTo(b, st, i - 1, guarded), st.costs[i - 1], |st.costs[i - 1]|, GroupCtx(st, i - 1, guarded))
  }

  function LastLabels(st: Store): (s: seq<int>)
    requires LabelsNonEmpty(st)
    ensures |s| == |st.groups| && forall i :: 0 <= i < |s| ==> s[i] == MaxOf(st.groups[i].labels)
  {
    seq(|st.groups|, i requires 0 <= i < |st.groups| => MaxOf(st.groups[i].labels))
  }

  /** `final`: one past the largest label of any group. */
  function Final(st: Store): int
    requires LabelsNonEmpty(st) && |st.groups| > 0
  {
    MaxOf(LastLabels(st)) + 1
  }

  /** The states of labels 1 .. final, created first: label l gets state base + l - 1. */
  function LabelStates(v: FstView, final: int): (b: Build)
    ensures b.fst == v.(nstates := v.nstates + (if final > 0 then final else 0))
    ensures b.failed.None? && |b.states| == 1 + (if final > 0 then final else 0)
    ensures b.states[0] == -1 && forall l :: 1 <= l < |b.states| ==> b.states[l] == v.nstates + l - 1
  {
    var m := if final > 0 then final else 0;
    Build(v.(nstates := v.nstates + m), [-1] + seq(m, l => v.nstates + l), None)
  }

  /** Creates the label states, sets the start state to `states[1]` and makes
      `states[final]` accepting. */
  function Frame(v: FstView, final: int): Build
  {
    var b := LabelStates(v, final);
    if final < 1 then b.(failed := Some(IndexError))
    else b.(fst := b.fst.(start := b.states[1], accept := b.fst.accept + {b.states[final]}))
  }

  /** `getLatticeAsFST`, writing into an FST with contents v. `segMax` is the largest
      label of the Grouper's segmentation, when it has one. With `guarded` false this
      is the code as written; with `guarded` true the space branch is pruned like the
      other arcs. */
  function Lattice(v: FstView, st: Store, segMax: Option<int>, guarded: bool): Build
    requires Parallel(st)
  {
    if |st.groups| == 0 || !LabelsNonEmpty(st) then Build(v, [], Some(ValueError))
    else
      var final := Final(st);
      if segMax.Some? && final != segMax.value + 1 then Build(v, [], Some(AssertionError("final")))
      else
        var b := Frame(v, final);
        if b.failed.Some? then b else GroupsUpTo(b, st, |st.groups|, guarded)
  }

  // ---------------------------------------------------------------
  // The ligature builder
  // ---------------------------------------------------------------

  /** `lig.ord`: the code of a ligature, when the table has one. */
  type LigOrd = map<Text, int>

  /** One hypothesis of `getLatticeLigAsFST`: one arc `states[start] -> states[end+1]`
      for the whole class, and one branch through a fresh space state. */
  function LigHyp(b: Build, h: Hyp, x: Ctx, ord: LigOrd): Build
  {
    if b.failed.Some? then b
    else
      var s, t := PyAt(b.states, x.start), PyAt(b.states, x.end + 1);
      if s.None? || t.None? then b.(failed := Some(IndexError))
      else if h.cls !in ord || ord[h.cls] < 0 then b.(failed := Some(RecognitionError("unknown output ligature")))
      else LigArcs(b, s.value, t.value, ord[h.cls], h, x)
  }

  /** The arcs of one hypothesis coded c, from `state` to `nxt`. */
  function LigArcs(b: Build, state: int, nxt: int, c: int, h: Hyp, x: Ctx): Build
  {
    var b1 := if h.cost + x.no < Ceiling then b.(fst := WithArc(b.fst, Transition(state, nxt, c, h.cost + x.no, x.sid))) else b;
    if h.cost + x.yes < Ceiling then
      var (sp, b2) := FreshState(b1);
      var f := WithArc(b2.fst, Transition(state, sp, c, h.cost, x.sid));
      b2.(fst := WithArc(f, Transition(sp, nxt, Space, x.yes, 0)))
    else b1
  }

  function LigHypsUpTo(b: Build, hs: seq<Hyp>, j: nat, x: Ctx, ord: LigOrd): Build
    requires j <= |hs|
  {
    if j == 0 then b else LigHyp(LigHypsUpTo(b, hs, j - 1, x, ord), hs[j - 1], x, ord)
  }

  /** The first i groups; `amin` of an empty label list raises. */
  function LigGroupsUpTo(b: Build, st: Store, i: nat, ord: LigOrd): Build
    requires Parallel(st) && i <= |st.groups|
  {
    if i == 0 then b
    else
      var prev := LigGroupsUpTo(b, st, i - 1, ord);
      if prev.failed.Some? then prev
      else if st.groups[i - 1].labels == [] then prev.(failed := Some(ValueError))
      else LigHypsUpTo(prev, st.costs[i - 1], |st.costs[i - 1]|, GroupCtx(st, i - 1, false), ord)
  }

  /** `getLatticeLigAsFST`: `final` is one past the largest label of the segmentation,
      and there must be a segmentation. */
  function LigLattice(v: FstView, st: Store, segMax: Option<int>, ord: LigOrd): Build
    requires Parallel(st)
  {
    if segMax.None? then Build(v, [], Some(TypeError))
    else
      var b := Frame(v, segMax.value + 1);
      if b.failed.Some? then b else LigGroupsUpTo(b, st, |st.groups|, ord)
  }

  // ---------------------------------------------------------------
  // An exception ends the build
  // ---------------------------------------------------------------

  lemma {:induction false} HypsFromFailed(b: Build, hs: seq<Hyp>, j: nat, x: Ctx)
    requires b.failed.Some? && j <= |hs|
    ensures HypsUpTo(b, hs, j, x) == b
  {
    if j > 0 {
      HypsFromFailed(b, hs, j - 1, x);
    }
  }

  /** Once a hypothesis raises, the later ones of the group add nothing. */
  lemma {:induction false} HypsFailedStays(b: Build, hs: seq<Hyp>, j: nat, j2: nat, x: Ctx)
    requires j <= j2 <= |hs| && HypsUpTo(b, hs, j, x).failed.Some?
    ensures HypsUpTo(b, hs, j2, x) == HypsUpTo(b, hs, j, x)
    decreases j2
  {
    if j2 > j {
      HypsFailedStays(b, hs, j, j2 - 1, x);
    }
  }

  /** Once a group raises, the later groups add nothing. */
  lemma {:induction false} GroupsFailedStays(b: Build, st: Store, i: nat, i2: nat, guarded: bool)
    requires Parallel(st) && LabelsNonEmpty(st) && i <= i2 <= |st.groups|
    requires GroupsUpTo(b, st, i, guarded).failed.Some?
    ensures GroupsUpTo(b, st, i2, guarded) == GroupsUpTo(b, st, i, guarded)
    decreases i2
  {
    if i2 > i {
      GroupsFailedStays(b, st, i, i2 - 1, guarded);
      HypsFromFailed(GroupsUpTo(b, st, i2 - 1, guarded), st.costs[i2 - 1], |st.costs[i2 - 1]|, GroupCtx(st, i2 - 1, guarded));
    }
  }

  lemma {:induction false} LigHypsFromFailed(b: Build, hs: seq<Hyp>, j: nat, x: Ctx, ord: LigOrd)
    requires b.failed.Some? && j <= |hs|
    ensures LigHypsUpTo(b, hs, j, x, ord) == b
  {
    if j > 0 {
      LigHypsFromFailed(b, hs, j - 1, x, ord);
    }
  }

  lemma {:induction false} LigHypsFailedStays(b: Build, hs: seq<Hyp>, j: nat, j2: nat, x: Ctx, ord: LigOrd)
    requires j <= j2 <= |hs| && LigHypsUpTo(b, hs, j, x, ord).failed.Some?
    ensures LigHypsUpTo(b, hs, j2, x, ord) == LigHypsUpTo(b, hs, j, x, ord)
    decreases j2
  {
    if j2 > j {
      LigHypsFailedStays(b, hs, j, j2 - 1, x, ord);
    }
  }

  lemma {:induction false} LigGroupsFailedStays(b: Build, st: Store, i: nat, i2: nat, ord: LigOrd)
    requires Parallel(st) && i <= i2 <= |st.groups|
    requires LigGroupsUpTo(b, st, i, ord).failed.Some?
    ensures LigGroupsUpTo(b, st, i2, ord) == LigGroupsUpTo(b, st, i, ord)
    decreases i2
  {
    if i2 > i {
      LigGroupsFailedStays(b, st, i, i2 - 1, ord);
    }
  }

  // ---------------------------------------------------------------
  // What the arcs of a lattice are
  // ---------------------------------------------------------------

  /** A space arc: output 32, input 0, and the space cost of some group, below the ceiling. */
  ghost predicate SpaceArc(t: Transition, st: Store)
  {
    t.output == Space && t.input == 0 && t.cost < Ceiling &&
    exists i :: 0 <= i < |st.spaceCosts| && t.cost == st.spaceCosts[i].yes
  }

  /** A character arc of hypothesis j of group i: its input is the group's packed
      `(start<<16)+end`, its output a code point of the class, and its cost below the
      ceiling, except (as written) on the arc into the space state of a one-code-point class. */
  ghost predicate CharArc(t: Transition, st: Store, guarded: bool)
  {
    exists i, j :: 0 <= i < |st.groups| && i < |st.costs| && 0 <= j < |st.costs[i]| &&
      st.groups[i].labels != [] &&
      t.input == Pack(MinOf(st.groups[i].labels), MaxOf(st.groups[i].labels)) &&
      t.output in st.costs[i][j].cls &&
      (t.cost < Ceiling || (!guarded && |st.costs[i][j].cls| == 1 && t.cost == st.costs[i][j].cost))
  }

  /** Every arc from position n0 on is a space arc or a character arc. */
  ghost predicate ArcsOk(trans: seq<Transition>, n0: nat, st: Store, guarded: bool)
  {
    n0 <= |trans| && forall k :: n0 <= k < |trans| ==> SpaceArc(trans[k], st) || CharArc(trans[k], st, guarded)
  }

  /** Hypothesis j of group i is the one being built, with the group's context. */
  ghost predicate Building(st: Store, i: nat, j: nat, h: Hyp, x: Ctx, guarded: bool)
  {
    Parallel(st) && i < |st.groups| && j < |st.costs[i]| && st.groups[i].labels != [] &&
    h == st.costs[i][j] && x == GroupCtx(st, i, guarded)
  }

  lemma CharStepArcs(b: Build, h: Hyp, k: nat, state: int, x: Ctx, st: Store, i: nat, j: nat, n0: nat)
    requires b.failed.None? && k < |h.cls|
    requires Building(st, i, j, h, x, x.guarded)
    requires ArcsOk(b.fst.trans, n0, st, x.guarded)
    ensures b.fst.trans <= CharStep(b, h, k, state, x).0.fst.trans
    ensures ArcsOk(CharStep(b, h, k, state, x).0.fst.trans, n0, st, x.guarded)
  {
    var (b2, nxt) := CharStep(b, h, k, state, x);
    var t := b2.fst.trans;
    var old_ := b.fst.trans;
    assert h.cls[k] in h.cls;
    assert x.yes == st.spaceCosts[i].yes;
    forall m | |old_| <= m < |t| ensures SpaceArc(t[m], st) || CharArc(t[m], st, x.guarded) {
      if t[m].output == Space && t[m].input == 0 && t[m].cost == x.yes {
      } else {
        assert CharArc(t[m], st, x.guarded) by {
          assert t[m].input == Pack(MinOf(st.groups[i].labels), MaxOf(st.groups[i].labels));
        }
      }
    }
  }

  lemma {:induction false} CharsArcs(b: Build, h: Hyp, k: nat, state: int, x: Ctx, st: Store, i: nat, j: nat, n0: nat)
    requires Building(st, i, j, h, x, x.guarded)
    requires ArcsOk(b.fst.trans, n0, st, x.guarded)
    ensures b.fst.trans <= Chars(b, h, k, state, x).fst.trans
    ensures ArcsOk(Chars(b, h, k, state, x).fst.trans, n0, st, x.guarded)
    decreases |h.cls| - k
  {
    if b.failed.None? && k < |h.cls| {
      var (b2, nxt) := CharStep(b, h, k, state, x);
      CharStepArcs(b, h, k, state, x, st, i, j, n0);
      CharsArcs(b2, h, k + 1, nxt, x, st, i, j, n0);
    }
  }

  lemma {:induction false} HypsArcs(b: Build, st: Store, i: nat, j: nat, guarded: bool, n0: nat)
    requires Parallel(st) && i < |st.groups| && st.groups[i].labels != [] && j <= |st.costs[i]|
    requires ArcsOk(b.fst.trans, n0, st, guarded)
    ensures var r := HypsUpTo(b, st.costs[i], j, GroupCtx(st, i, guarded));
      b.fst.trans <= r.fst.trans && ArcsOk(r.fst.trans, n0, st, guarded)
  {
    if j > 0 {
      var x := GroupCtx(st, i, guarded);
      var prev := HypsUpTo(b, st.costs[i], j - 1, x);
      HypsArcs(b, st, i, j - 1, guarded, n0);
      if prev.failed.None? {
        match PyAt(prev.states, x.start)
        case None =>
        case Some(s) =>
          CharsArcs(prev, st.costs[i][j - 1], 0, s, x, st, i, j - 1, n0);
      }
    }
  }

  lemma {:induction false} GroupsArcs(b: Build, st: Store, i: nat, guarded: bool, n0: nat)
    requires Parallel(st) && LabelsNonEmpty(st) && i <= |st.groups|
    requires ArcsOk(b.fst.trans, n0, st, guarded)
    ensures var r := GroupsUpTo(b, st, i, guarded);
      b.fst.trans <= r.fst.trans && ArcsOk(r.fst.trans, n0, st, guarded)
  {
    if i > 0 {
      GroupsArcs(b, st, i - 1, guarded, n0);
      HypsArcs(GroupsUpTo(b, st, i - 1, guarded), st, i - 1, |st.costs[i - 1]|, guarded, n0);
    }
  }

  /** `getLatticeAsFST` only appends arcs, and every arc it appends is a space arc
      or a character arc of one of the hypotheses. */
  lemma LatticeArcs(v: FstView, st: Store, segMax: Option<int>, guarded: bool)
    requires Parallel(st)
    ensures var r := Lattice(v, st, segMax, guarded);
      v.trans <= r.fst.trans && ArcsOk(r.fst.trans, |v.trans|, st, guarded)
  {
    if |st.groups| > 0 && LabelsNonEmpty(st) {
      var final := Final(st);
      if !(segMax.Some? && final != segMax.value + 1) {
        var b := Frame(v, final);
        if b.failed.None? {
          GroupsArcs(b, st, |st.groups|, guarded, |v.trans|);
        }
      }
    }
  }

  /** With the space branch pruned too, no arc reaching 1000.0 is ever added. */
  lemma GuardedBelowCeiling(v: FstView, st: Store, segMax: Option<int>)
    requires Parallel(st)
    ensures var t := Lattice(v, st, segMax, true).fst.trans;
      forall k :: |v.trans| <= k < |t| ==> t[k].cost < Ceiling
  {
    LatticeArcs(v, st, segMax, true);
  }

  /** As written, an added arc at or above 1000.0 can only be the arc into the space
      state of a one-code-point class whose own cost is at least 1000.0. */
  lemma AsWrittenOverCeiling(v: FstView, st: Store, segMax: Option<int>, k: nat)
    requires Parallel(st)
    requires |v.trans| <= k < |Lattice(v, st, segMax, false).fst.trans|
    requires Lattice(v, st, segMax, false).fst.trans[k].cost >= Ceiling
    ensures var t := Lattice(v, st, segMax, false).fst.trans[k];
      exists i, j :: 0 <= i < |st.groups| && 0 <= j < |st.costs[i]| &&
        (|st.costs[i][j].cls| == 1 && t.output == st.costs[i][j].cls[0] && t.cost == st.costs[i][j].cost)
  {
    var trans := Lattice(v, st, segMax, false).fst.trans;
    LatticeArcs(v, st, segMax, false);
    assert ArcsOk(trans, |v.trans|, st, false);
    var t := trans[k];
    assert SpaceArc(t, st) || CharArc(t, st, false);
    assert !SpaceArc(t, st);
    var i, j :| 0 <= i < |st.groups| && i < |st.costs| && 0 <= j < |st.costs[i]| &&
      st.groups[i].labels != [] &&
      t.input == Pack(MinOf(st.groups[i].labels), MaxOf(st.groups[i].labels)) &&
      t.output in st.costs[i][j].cls &&
      (t.cost < Ceiling || (|st.costs[i][j].cls| == 1 && t.cost == st.costs[i][j].cost));
    var cls := st.costs[i][j].cls;
    assert cls == [cls[0]];
  }

  /** The input of a character arc gives back its group's first and last label with
      `>>16` and `&0xffff`, when the last label is below 65536. */
  lemma CharArcUnpacks(t: Transition, st: Store, guarded: bool)
    requires CharArc(t, st, guarded)
    requires forall i :: 0 <= i < |st.groups| ==> forall l :: l in st.groups[i].labels ==> 0 <= l < 65536
    ensures exists i :: (0 <= i < |st.groups| && st.groups[i].labels != [] &&
      Shr16(t.input) == MinOf(st.groups[i].labels) && Low16(t.input) == MaxOf(st.groups[i].labels))
  {
    var i, j :| 0 <= i < |st.groups| && i < |st.costs| && 0 <= j < |st.costs[i]| &&
      st.groups[i].labels != [] &&
      t.input == Pack(MinOf(st.groups[i].labels), MaxOf(st.groups[i].labels)) &&
      t.output in st.costs[i][j].cls &&
      (t.cost < Ceiling || (!guarded && |st.costs[i][j].cls| == 1 && t.cost == st.costs[i][j].cost));
    UnpackPack(MinOf(st.groups[i].labels), MaxOf(st.groups[i].labels));
  }

  // ---------------------------------------------------------------
  // Start, accept and fresh states
  // ---------------------------------------------------------------

  /** What building never undoes: start and accept stay, states and arcs only grow. */
  predicate Grows(b: Build, r: Build)
  {
    r.fst.start == b.fst.start && r.fst.accept == b.fst.accept &&
    b.fst.nstates <= r.fst.nstates && b.states <= r.states && b.fst.trans <= r.fst.trans
  }

  lemma {:induction false} CharsGrows(b: Build, h: Hyp, k: nat, state: int, x: Ctx)
    ensures Grows(b, Chars(b, h, k, state, x))
    decreases |h.cls| - k
  {
    if b.failed.None? && k < |h.cls| {
      var (b2, nxt) := CharStep(b, h, k, state, x);
      CharsGrows(b2, h, k + 1, nxt, x);
    }
  }

  lemma {:induction false} HypsGrows(b: Build, hs: seq<Hyp>, j: nat, x: Ctx)
    requires j <= |hs|
    ensures Grows(b, HypsUpTo(b, hs, j, x))
  {
    if j > 0 {
      HypsGrows(b, hs, j - 1, x);
      var prev := HypsUpTo(b, hs, j - 1, x);
      if prev.failed.None? {
        match PyAt(prev.states, x.start)
        case None =>
        case Some(s) => CharsGrows(prev, hs[j - 1], 0, s, x);
      }
    }
  }

  lemma {:induction false} GroupsGrows(b: Build, st: Store, i: nat, guarded: bool)
    requires Parallel(st) && LabelsNonEmpty(st) && i <= |st.groups|
    ensures Grows(b, GroupsUpTo(b, st, i, guarded))
  {
    if i > 0 {
      GroupsGrows(b, st, i - 1, guarded);
      HypsGrows(GroupsUpTo(b, st, i - 1, guarded), st.costs[i - 1], |st.costs[i - 1]|, GroupCtx(st, i - 1, guarded));
    }
  }

  /** A successful `getLatticeAsFST` makes `states[1]` the start state and `states[final]`
      accepting, where `final` is one past the largest label and label l has state
      base + l - 1; it agrees with the segmentation's largest label when there is one. */
  lemma LatticeStartAccept(v: FstView, st: Store, segMax: Option<int>, guarded: bool)
    requires Parallel(st)
    requires Lattice(v, st, segMax, guarded).failed.None?
    ensures |st.groups| > 0 && LabelsNonEmpty(st) && Final(st) >= 1
    ensures forall i :: 0 <= i < |st.groups| ==> MaxOf(st.groups[i].labels) < Final(st)
    ensures segMax.Some? ==> Final(st) == segMax.value + 1
    ensures var r := Lattice(v, st, segMax, guarded);
      r.fst.start == v.nstates && r.fst.accept == v.accept + {v.nstates + Final(st) - 1} &&
      v.nstates + Final(st) <= r.fst.nstates
  {
    assert |st.groups| > 0 && LabelsNonEmpty(st);
    var final := Final(st);
    var b := Frame(v, final);
    assert b.failed.None?;
    FrameOf(v, final);
    assert Lattice(v, st, segMax, guarded) == GroupsUpTo(b, st, |st.groups|, guarded);
    GroupsGrows(b, st, |st.groups|, guarded);
    FinalAbove(st);
  }

  /** The frame of a positive `final` starts at the first new state, accepts
      the state of label `final` and has made a state per label. */
  lemma FrameOf(v: FstView, final: int)
    requires Frame(v, final).failed.None?
    ensures final >= 1
    ensures var b := Frame(v, final);
      b.fst.start == v.nstates && b.fst.accept == v.accept + {v.nstates + final - 1} &&
      b.fst.nstates == v.nstates + final
  {
    var lb := LabelStates(v, final);
    assert lb.states[1] == v.nstates && lb.states[final] == v.nstates + final - 1;
  }

  /** Every group's largest label lies below `final`. */
  lemma FinalAbove(st: Store)
    requires LabelsNonEmpty(st) && |st.groups| > 0
    ensures forall i :: 0 <= i < |st.groups| ==> MaxOf(st.groups[i].labels) < Final(st)
  {
    var ls := LastLabels(st);
    forall i | 0 <= i < |st.groups| ensures MaxOf(st.groups[i].labels) < Final(st) {
      assert ls[i] in ls;
    }
  }

  /** The number of states created for code points k .. n-1 of a hypothesis. */
  function FreshCount(h: Hyp, k: nat, x: Ctx): nat
  {
    if k >= |h.cls| then 0
    else |h.cls| - 1 - k + (if SpaceBranch(h, |h.cls| - 1, x) then 1 else 0)
  }

  lemma {:induction false} CharsFresh(b: Build, h: Hyp, k: nat, state: int, x: Ctx)
    requires b.failed.None? && Chars(b, h, k, state, x).failed.None?
    ensures Chars(b, h, k, state, x).fst.nstates == b.fst.nstates + FreshCount(h, k, x)
    decreases |h.cls| - k
  {
    if k < |h.cls| {
      var (b2, nxt) := CharStep(b, h, k, state, x);
      CharsFresh(b2, h, k + 1, nxt, x);
    }
  }

  /** A hypothesis of n > 0 code points creates n - 1 intermediate states, plus one
      space state when the space branch is taken; an empty class creates none. */
  lemma HypFresh(b: Build, h: Hyp, x: Ctx)
    requires b.failed.None? && HypRun(b, h, x).failed.None?
    ensures HypRun(b, h, x).fst.nstates == b.fst.nstates +
      (if |h.cls| == 0 then 0 else |h.cls| - 1 + (if SpaceBranch(h, |h.cls| - 1, x) then 1 else 0))
  {
    var s := PyAt(b.states, x.start).value;
    CharsFresh(b, h, 0, s, x);
  }

  // ---------------------------------------------------------------
  // The path of one hypothesis
  // ---------------------------------------------------------------

  /** The arcs of a hypothesis when nothing is pruned and there is no space branch:
      a chain from `src` through the fresh states base, base+1, ... to `dst`. */
  function Chain(src: int, base: int, dst: int, h: Hyp, x: Ctx): (c: seq<Transition>)
    ensures |c| == |h.cls|
  {
    var n := |h.cls|;
    seq(n, k requires 0 <= k < n =>
      Transition(if k == 0 then src else base + k - 1, if k == n - 1 then dst else base + k,
                 h.cls[k], CharCost(k, n, h.cost, x.no), x.sid))
  }

  /** Nothing of the hypothesis is pruned and no space branch is taken. */
  predicate Unpruned(h: Hyp, x: Ctx)
  {
    (forall k :: 0 <= k < |h.cls| ==> CharCost(k, |h.cls|, h.cost, x.no) < Ceiling) &&
    (|h.cls| > 0 ==> !SpaceBranch(h, |h.cls| - 1, x))
  }

  lemma {:induction false} CharsChain(b: Build, h: Hyp, k: nat, state: int, x: Ctx, src: int, base: int, dst: int)
    requires b.failed.None? && k <= |h.cls| && Unpruned(h, x)
    requires k < |h.cls| ==> b.fst.nstates == base + k
    requires k < |h.cls| ==> state == (if k == 0 then src else base + k - 1)
    requires 0 <= x.end + 1 < |b.states| && b.states[x.end + 1] == dst
    ensures Chars(b, h, k, state, x).failed.None?
    ensures Chars(b, h, k, state, x).fst.trans == b.fst.trans + Chain(src, base, dst, h, x)[k..]
    decreases |h.cls| - k
  {
    var c := Chain(src, base, dst, h, x);
    if k < |h.cls| {
      var (b2, nxt) := CharStep(b, h, k, state, x);
      assert b2.fst.trans == b.fst.trans + [c[k]];
      assert c[k..] == [c[k]] + c[k + 1..];
      CharsChain(b2, h, k + 1, nxt, x, src, base, dst);
    }
  }

  /** A hypothesis nothing of which is pruned adds exactly the chain of its code
      points from the state of its first label to the state after its last label. */
  lemma HypChain(b: Build, h: Hyp, x: Ctx)
    requires b.failed.None? && Unpruned(h, x)
    requires 0 <= x.start < |b.states| && 0 <= x.end + 1 < |b.states|
    ensures HypRun(b, h, x).failed.None?
    ensures HypRun(b, h, x).fst.trans ==
      b.fst.trans + Chain(b.states[x.start], b.fst.nstates, b.states[x.end + 1], h, x)
  {
    var c := Chain(b.states[x.start], b.fst.nstates, b.states[x.end + 1], h, x);
    CharsChain(b, h, 0, b.states[x.start], x, b.states[x.start], b.fst.nstates, b.states[x.end + 1]);
    assert c[0..] == c;
  }

  function TotalCost(ts: seq<Transition>): Cost
  {
    if ts == [] then 0 else TotalCost(ts[..|ts| - 1]) + ts[|ts| - 1].cost
  }

  lemma {:induction false} ChainCostPrefix(src: int, base: int, dst: int, h: Hyp, x: Ctx, m: nat)
    requires 1 <= m <= |h.cls|
    ensures TotalCost(Chain(src, base, dst, h, x)[..m]) == h.cost + (if m == |h.cls| then x.no else 0)
  {
    var c := Chain(src, base, dst, h, x);
    if m > 1 {
      ChainCostPrefix(src, base, dst, h, x, m - 1);
      assert c[..m][..m - 1] == c[..m - 1];
    } else {
      assert c[..1][..0] == [];
    }
  }

  /** The chain of a hypothesis with n > 0 code points costs cost + no in total: the
      class cost on its first arc and the no-space cost on its last. */
  lemma ChainCost(src: int, base: int, dst: int, h: Hyp, x: Ctx)
    requires |h.cls| > 0
    ensures TotalCost(Chain(src, base, dst, h, x)) == h.cost + x.no
  {
    var c := Chain(src, base, dst, h, x);
    ChainCostPrefix(src, base, dst, h, x, |h.cls|);
    assert c[..|h.cls|] == c;
  }

  // ---------------------------------------------------------------
  // The ligature builder's arcs
  // ---------------------------------------------------------------

  /** Costs as `setClass` asks for them: no hypothesis and no space cost is negative. */
  predicate NonNegative(st: Store)
  {
    (forall i, j :: 0 <= i < |st.costs| && 0 <= j < |st.costs[i]| ==> st.costs[i][j].cost >= 0) &&
    (forall i :: 0 <= i < |st.spaceCosts| ==> st.spaceCosts[i].yes >= 0 && st.spaceCosts[i].no >= 0)
  }

  /** A ligature arc of hypothesis j of group i: input the packed group id, output the
      ligature code of the whole class, cost below the ceiling. */
  ghost predicate LigArc(t: Transition, st: Store, ord: LigOrd)
  {
    exists i, j :: 0 <= i < |st.groups| && i < |st.costs| && 0 <= j < |st.costs[i]| &&
      st.groups[i].labels != [] &&
      t.input == Pack(MinOf(st.groups[i].labels), MaxOf(st.groups[i].labels)) &&
      st.costs[i][j].cls in ord && t.output == ord[st.costs[i][j].cls] && t.output >= 0 &&
      t.cost < Ceiling
  }

  ghost predicate LigArcsOk(trans: seq<Transition>, n0: nat, st: Store, ord: LigOrd)
  {
    n0 <= |trans| && forall k :: n0 <= k < |trans| ==> SpaceArc(trans[k], st) || LigArc(trans[k], st, ord)
  }

  lemma LigHypArcs(b: Build, st: Store, i: nat, j: nat, ord: LigOrd, n0: nat)
    requires Parallel(st) && NonNegative(st) && i < |st.groups| && j < |st.costs[i]| && st.groups[i].labels != []
    requires LigArcsOk(b.fst.trans, n0, st, ord)
    ensures var r := LigHyp(b, st.costs[i][j], GroupCtx(st, i, false), ord);
      Grows(b, r) && LigArcsOk(r.fst.trans, n0, st, ord)
  {
    var x := GroupCtx(st, i, false);
    var h := st.costs[i][j];
    var r := LigHyp(b, h, x, ord);
    assert x.yes == st.spaceCosts[i].yes && x.no >= 0 && x.yes >= 0 && h.cost >= 0;
    forall m | |b.fst.trans| <= m < |r.fst.trans| ensures SpaceArc(r.fst.trans[m], st) || LigArc(r.fst.trans[m], st, ord) {
      var t := r.fst.trans[m];
      if t.output == Space && t.input == 0 && t.cost == x.yes && t.cost < Ceiling {
      } else {
        assert LigArc(t, st, ord) by {
          assert t.input == Pack(MinOf(st.groups[i].labels), MaxOf(st.groups[i].labels));
        }
      }
    }
  }

  lemma {:induction false} LigHypsArcs(b: Build, st: Store, i: nat, j: nat, ord: LigOrd, n0: nat)
    requires Parallel(st) && NonNegative(st) && i < |st.groups| && j <= |st.costs[i]| && st.groups[i].labels != []
    requires LigArcsOk(b.fst.trans, n0, st, ord)
    ensures var r := LigHypsUpTo(b, st.costs[i], j, GroupCtx(st, i, false), ord);
      Grows(b, r) && LigArcsOk(r.fst.trans, n0, st, ord)
  {
    if j > 0 {
      LigHypsArcs(b, st, i, j - 1, ord, n0);
      LigHypArcs(LigHypsUpTo(b, st.costs[i], j - 1, GroupCtx(st, i, false), ord), st, i, j - 1, ord, n0);
    }
  }

  lemma {:induction false} LigGroupsArcs(b: Build, st: Store, i: nat, ord: LigOrd, n0: nat)
    requires Parallel(st) && NonNegative(st) && i <= |st.groups|
    requires LigArcsOk(b.fst.trans, n0, st, ord)
    ensures var r := LigGroupsUpTo(b, st, i, ord);
      Grows(b, r) && LigArcsOk(r.fst.trans, n0, st, ord)
  {
    if i > 0 {
      LigGroupsArcs(b, st, i - 1, ord, n0);
      var prev := LigGroupsUpTo(b, st, i - 1, ord);
      if prev.failed.None? && st.groups[i - 1].labels != [] {
        LigHypsArcs(prev, st, i - 1, |st.costs[i - 1]|, ord, n0);
      }
    }
  }

  /** With non-negative costs, `getLatticeLigAsFST` only appends arcs, every one below
      1000.0: space arcs, and arcs writing the ligature code of a hypothesis' class. */
  lemma LigLatticeArcs(v: FstView, st: Store, segMax: Option<int>, ord: LigOrd)
    requires Parallel(st) && NonNegative(st)
    ensures var r := LigLattice(v, st, segMax, ord);
      v.trans <= r.fst.trans && LigArcsOk(r.fst.trans, |v.trans|, st, ord) &&
      forall k :: |v.trans| <= k < |r.fst.trans| ==> r.fst.trans[k].cost < Ceiling
  {
    if segMax.Some? {
      var b := Frame(v, segMax.value + 1);
      if b.failed.None? {
        LigGroupsArcs(b, st, |st.groups|, ord, |v.trans|);
      }
    }
  }

  /** One ligature hypothesis adds at most one direct arc `states[start] -> states[end+1]`
      costing cost + no, only when that is below 1000.0, and a branch through one fresh
      space state (class at `cost`, then a space at `yes`) only when cost + yes is. */
  lemma LigHypShape(b: Build, h: Hyp, x: Ctx, ord: LigOrd)
    requires b.failed.None? && LigHyp(b, h, x, ord).failed.None?
    ensures 0 <= x.start + |b.states| && x.start < |b.states| && -|b.states| <= x.end + 1 < |b.states|
    ensures h.cls in ord && ord[h.cls] >= 0
    ensures var r := LigHyp(b, h, x, ord);
      var state := PyAt(b.states, x.start).value;
      var nxt := PyAt(b.states, x.end + 1).value;
      var direct := if h.cost + x.no < Ceiling then [Transition(state, nxt, ord[h.cls], h.cost + x.no, x.sid)] else [];
      var sp := b.fst.nstates;
      var branch := if h.cost + x.yes < Ceiling then
        [Transition(state, sp, ord[h.cls], h.cost, x.sid), Transition(sp, nxt, Space, x.yes, 0)] else [];
      r.fst.trans == b.fst.trans + direct + branch &&
      r.fst.nstates == b.fst.nstates + (if h.cost + x.yes < Ceiling then 1 else 0)
  {
  }

  lemma {:induction false} LigHypsSucceed(b: Build, hs: seq<Hyp>, j: nat, x: Ctx, ord: LigOrd)
    requires j <= |hs| && LigHypsUpTo(b, hs, j, x, ord).failed.None?
    ensures b.failed.None?
    ensures forall m :: 0 <= m < j ==> hs[m].cls in ord && ord[hs[m].cls] >= 0
  {
    if j > 0 {
      var prev := LigHypsUpTo(b, hs, j - 1, x, ord);
      assert prev.failed.None?;
      LigHypsSucceed(b, hs, j - 1, x, ord);
    }
  }

  lemma {:induction false} LigGroupsSucceed(b: Build, st: Store, i: nat, ord: LigOrd)
    requires Parallel(st) && i <= |st.groups| && LigGroupsUpTo(b, st, i, ord).failed.None?
    ensures b.failed.None?
    ensures forall g :: 0 <= g < i ==> (st.groups[g].labels != [] &&
      forall m :: 0 <= m < |st.costs[g]| ==> st.costs[g][m].cls in ord && ord[st.costs[g][m].cls] >= 0)
  {
    if i > 0 {
      var prev := LigGroupsUpTo(b, st, i - 1, ord);
      assert prev.failed.None? && st.groups[i - 1].labels != [];
      var x := GroupCtx(st, i - 1, false);
      var hs := st.costs[i - 1];
      assert LigGroupsUpTo(b, st, i, ord) == LigHypsUpTo(prev, hs, |hs|, x, ord);
      LigGroupsSucceed(b, st, i - 1, ord);
      LigHypsSucceed(prev, hs, |hs|, x, ord);
    }
  }

  /** A `getLatticeLigAsFST` that does not raise needed a segmentation, found every class
      in the ligature table with a non-negative code, and had no group without labels;
      its start state is `states[1]` and `states[final]` is accepting. */
  lemma LigLatticeSucceeds(v: FstView, st: Store, segMax: Option<int>, ord: LigOrd)
    requires Parallel(st) && LigLattice(v, st, segMax, ord).failed.None?
    ensures segMax.Some? && segMax.value >= 0
    ensures forall g :: 0 <= g < |st.groups| ==> (st.groups[g].labels != [] &&
      forall m :: 0 <= m < |st.costs[g]| ==> st.costs[g][m].cls in ord && ord[st.costs[g][m].cls] >= 0)
    ensures var r := LigLattice(v, st, segMax, ord);
      r.fst.start == v.nstates && r.fst.accept == v.accept + {v.nstates + segMax.value}
  {
    var b := Frame(v, segMax.value + 1);
    LigGroupsSucceed(b, st, |st.groups|, ord);
    LigGroupsGrows(b, st, |st.groups|, ord);
  }

  lemma {:induction false} LigGroupsGrows(b: Build, st: Store, i: nat, ord: LigOrd)
    requires Parallel(st) && i <= |st.groups|
    ensures Grows(b, LigGroupsUpTo(b, st, i, ord))
  {
    if i > 0 {
      LigGroupsGrows(b, st, i - 1, ord);
      var prev := LigGroupsUpTo(b, st, i - 1, ord);
      if prev.failed.None? && st.groups[i - 1].labels != [] {
        LigHypsGrows(prev, st.costs[i - 1], |st.costs[i - 1]|, GroupCtx(st, i - 1, false), ord);
      }
    }
  }

  lemma {:induction false} LigHypsGrows(b: Build, hs: seq<Hyp>, j: nat, x: Ctx, ord: LigOrd)
    requires j <= |hs|
    ensures Grows(b, LigHypsUpTo(b, hs, j, x, ord))
  {
    if j > 0 {
      LigHypsGrows(b, hs, j - 1, x, ord);
    }
  }

  // ---------------------------------------------------------------
  // The arc above the ceiling
  // ---------------------------------------------------------------

  /** One group of label 1, one class "a" at 1000.0, a space after it costing 0. */
  const OverStore := Store([Group(Boxes.Box(0, 1, 0, 1), [1])], [[Hyp(Ceiling, [97])]], [SpaceCost(0, 0)])

  /** On `OverStore` the lattice is the frame of two label states followed by
      the one step of the single code point. */
  lemma OverStoreRun(guarded: bool)
    ensures var x := GroupCtx(OverStore, 0, guarded);
      x == Ctx(1, 1, Pack(1, 1), 0, 0, guarded) &&
      Frame(EmptyFst, 2).states == [-1, 0, 1] && Frame(EmptyFst, 2).fst.nstates == 2 &&
      Frame(EmptyFst, 2).fst.trans == [] && Frame(EmptyFst, 2).failed.None? &&
      Lattice(EmptyFst, OverStore, None, guarded) == CharStep(Frame(EmptyFst, 2), Hyp(Ceiling, [97]), 0, 0, x).0
  {
    var st := OverStore;
    assert LastLabels(st) == [1];
    assert Final(st) == 2;
    var b := Frame(EmptyFst, 2);
    assert b.states == [-1, 0, 1];
    var x := GroupCtx(st, 0, guarded);
    assert x == Ctx(1, 1, Pack(1, 1), 0, 0, guarded);
    assert PyAt(b.states, 1) == Some(0);
    var h := Hyp(Ceiling, [97]);
    assert st.costs[0] == [h];
    var (b1, nxt) := CharStep(b, h, 0, 0, x);
    assert Lattice(EmptyFst, st, None, guarded) == GroupsUpTo(b, st, 1, guarded);
    assert GroupsUpTo(b, st, 1, guarded) == HypsUpTo(b, [h], 1, x);
    assert HypsUpTo(b, [h], 1, x) == HypRun(b, h, x);
    assert HypRun(b, h, x) == Chars(b, h, 0, 0, x);
    assert Chars(b, h, 0, 0, x) == Chars(b1, h, 1, nxt, x);
    assert Chars(b1, h, 1, nxt, x) == b1;
  }

  /** As written, the space branch of a one-code-point class is taken on `yes` alone,
      and its arc into the space state carries the class cost 1000.0. */
  lemma AsWrittenArcAtCeiling()
    ensures Lattice(EmptyFst, OverStore, None, false).fst.trans ==
      [Transition(0, 2, 97, Ceiling, Pack(1, 1)), Transition(2, 1, Space, 0, 0)]
  {
    OverStoreRun(false);
    var b := Frame(EmptyFst, 2);
    var x := GroupCtx(OverStore, 0, false);
    var h := Hyp(Ceiling, [97]);
    assert PyAt(b.states, 2) == Some(1);
    assert CharCost(0, 1, h.cost, x.no) == Ceiling;
    assert SpaceBranch(h, 0, x);
    var (b1, nxt) := CharStep(b, h, 0, 0, x);
    assert b1.fst.trans == [Transition(0, 2, 97, Ceiling, Pack(1, 1)), Transition(2, 1, Space, 0, 0)];
  }

  /** With the branch guarded, the same input gives no arc at all. */
  lemma GuardedPrunesIt()
    ensures Lattice(EmptyFst, OverStore, None, true).fst.trans == []
  {
    OverStoreRun(true);
    var b := Frame(EmptyFst, 2);
    var x := GroupCtx(OverStore, 0, true);
    var h := Hyp(Ceiling, [97]);
    assert PyAt(b.states, 2) == Some(1);
    assert CharCost(0, 1, h.cost, x.no) == Ceiling;
    assert !SpaceBranch(h, 0, x);
    var (b1, nxt) := CharStep(b, h, 0, 0, x);
    assert b1 == b;
  }
}
