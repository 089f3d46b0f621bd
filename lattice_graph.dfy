/** The second lattice reader, class `Lattice` of ocrolib/lattice.py: it
    reads the `segment`/`chr` records of the Grouper's text format into a
    graph whose states are numbered from the segment numbers, segment
    `first` starting at state 2*first, with an odd state 2*last+1 between
    a segment's characters and the space or no-space edges that follow it. */
module LatticeGraph {
  import opened Wrappers
  import opened Text
  import opened PyOps
  import opened Sorting
  import opened Grouping
  import opened LatticeText

  /** One edge: its endpoints, cost, class text and (first, last) segment range. */
  datatype Edge = Edge(start: int, stop: int, cost: Cost, cls: Text, seg: (int, int))

  /** What `readLattice`'s loop remembers from the last `segment` record,
      and what a later `chr` record reads. */
  datatype Seg = Seg(first: int, last: int, nows: Cost)

  /** The states a segment record fixes. */
  function StStart(s: Seg): int { 2 * s.first }
  function StExtra(s: Seg): int { 2 * s.last + 1 }
  function StNext(s: Seg): int { 2 * s.last + 2 }

  /** The set `states`, as its elements in increasing order, and the
      dictionary `edges` from a state to its outgoing edges. */
  datatype Graph = Graph(states: seq<int>, edges: map<int, seq<Edge>>)

  /** `edges[k]` of the defaultdict: the empty list for a missing key. */
  function EdgesAt(edges: map<int, seq<Edge>>, k: int): seq<Edge>
  {
    if k in edges then edges[k] else []
  }

  /** The states are in increasing order and hold every key of `edges`. */
  predicate WellFormed(g: Graph)
  {
    Increasing(g.states) && g.edges.Keys <= Elems(g.states)
  }

  /** `addEdge` on the graph. */
  function AddEdgeTo(g: Graph, e: Edge): Graph
  {
    Graph(AddDistinct(e.stop, AddDistinct(e.start, g.states)), g.edges[e.start := EdgesAt(g.edges, e.start) + [e]])
  }

  /** `addEdge` adds both endpoints to the states and appends the edge to
      the start state's list, changes nothing else, and keeps the graph
      well formed. */
  lemma AddEdgeOf(g: Graph, e: Edge)
    ensures Elems(AddEdgeTo(g, e).states) == Elems(g.states) + {e.start, e.stop}
    ensures AddEdgeTo(g, e).edges.Keys == g.edges.Keys + {e.start}
    ensures EdgesAt(AddEdgeTo(g, e).edges, e.start) == EdgesAt(g.edges, e.start) + [e]
    ensures forall k :: k != e.start ==> EdgesAt(AddEdgeTo(g, e).edges, k) == EdgesAt(g.edges, k)
    ensures WellFormed(g) ==> WellFormed(AddEdgeTo(g, e))
  {
    AddDistinctElems(e.start, g.states);
    AddDistinctElems(e.stop, AddDistinct(e.start, g.states));
    if WellFormed(g) {
      AddDistinctIncreasing(e.start, g.states);
      AddDistinctIncreasing(e.stop, AddDistinct(e.start, g.states));
    }
  }

  /** The limits of a Lattice: `maxws`, `maxcost` and `mismatch`. */
  datatype Params = Params(maxws: Cost, maxcost: Cost, mismatch: Cost)

  /** The five edges of a segment record whose `st_extra` has no edges yet:
      skip or replace the segment (mismatch cost), then a space, no space,
      or an arbitrary insertion (mismatch cost). */
  function SegmentEdges(p: Params, s: Seg, ws: Cost): seq<Edge>
  {
    [Edge(StStart(s), StExtra(s), p.mismatch, [], (0, 0)),
     Edge(StStart(s), StExtra(s), p.mismatch, Lit("~"), (0, 0)),
     Edge(StExtra(s), StNext(s), ws, Lit(" "), (0, 0)),
     Edge(StExtra(s), StNext(s), s.nows, [], (0, 0)),
     Edge(StExtra(s), StNext(s), p.mismatch, Lit("~"), (0, 0))]
  }

  /** `addEdge` for each edge, in order. */
  function AddEdges(g: Graph, es: seq<Edge>): Graph
    decreases |es|
  {
    if es == [] then g else AddEdges(AddEdgeTo(g, es[0]), es[1..])
  }

  lemma AddEdgesOne(g: Graph, e: Edge)
    ensures AddEdges(g, [e]) == AddEdgeTo(g, e)
  {
    assert [e][1..] == [];
  }

  /** A `segment` record (its fields f): the graph after it and the segment
      the following `chr` records belong to. Looking up `edges[st_extra]`
      inserts an empty list into the defaultdict, which the third of the
      five edges then extends, so the lookup itself leaves no trace. */
  function SegmentStep(p: Params, g: Graph, f: seq<Text>): Result<(Graph, Seg)>
  {
    var span :- SpanField(f);
    var sc :- SpaceCostField(f);
    var s := Seg(span.0, span.1, Min(sc.no, p.maxws));
    if EdgesAt(g.edges, StExtra(s)) == [] then
      Ok((AddEdges(g, SegmentEdges(p, s, Min(sc.yes, p.maxws))), s))
    else
      Ok((g, s))
  }

  /** The edge of a `chr` record of cost c and class cls in segment s. */
  function ChrEdge(p: Params, s: Seg, c: Cost, cls: Text): Edge
  {
    Edge(StStart(s), StExtra(s), Min(c + s.nows, p.maxcost) + s.nows, cls, (s.first, s.last))
  }

  /** A `chr` record: `nows` and the states are those of the last segment
      record, and reading them before any segment record fails. */
  function ChrStep(p: Params, g: Graph, cur: Option<Seg>, f: seq<Text>): Result<Graph>
  {
    var c :- FixedField(f, 3);
    if cur.None? then Err(NameError)
    else
      var cls :- Field(f, 4);
      Ok(AddEdgeTo(g, ChrEdge(p, cur.value, c, cls)))
  }

  /** One line of `readLattice`: the graph and the remembered segment after
      it, or the exception it raises. Every exception comes before the
      line's first `addEdge`. */
  function ReadStep(p: Params, g: Graph, cur: Option<Seg>, line: Text): Result<(Graph, Option<Seg>)>
  {
    var f := Split(line);
    var head :- Field(f, 0);
    if head == Lit("segment") then
      var gs :- SegmentStep(p, g, f);
      Ok((gs.0, Some(gs.1)))
    else if head == Lit("chr") then
      var next :- ChrStep(p, g, cur, f);
      Ok((next, cur))
    else
      Ok((g, cur))
  }

  /** `readLattice` from a line on: the graph when the lines run out or an
      exception stops the loop, and that exception. */
  function ReadFrom(p: Params, g: Graph, cur: Option<Seg>, lines: seq<Text>): (Graph, Option<Error>)
    decreases |lines|
  {
    if lines == [] then (g, None)
    else
      match ReadStep(p, g, cur, lines[0])
      case Err(e) => (g, Some(e))
      case Ok(gc) => ReadFrom(p, gc.0, gc.1, lines[1..])
  }

  const EmptyGraph := Graph([], map[])

  /** `readLattice(lines)` on the graph: it starts from no states and no edges. */
  function ReadAll(p: Params, lines: seq<Text>): (Graph, Option<Error>)
  {
    ReadFrom(p, EmptyGraph, None, lines)
  }

  // ---------------------------------------------------------------
  // what a record adds
  // ---------------------------------------------------------------

  /** The edges of es that leave k, in order. */
  function Starting(es: seq<Edge>, k: int): seq<Edge>
  {
    if es == [] then [] else (if es[0].start == k then [es[0]] else []) + Starting(es[1..], k)
  }

  /** The endpoints of the edges. */
  function Endpoints(es: seq<Edge>): set<int>
  {
    if es == [] then {} else {es[0].start, es[0].stop} + Endpoints(es[1..])
  }

  lemma {:induction false} AddEdgesEdges(g: Graph, es: seq<Edge>, k: int)
    ensures EdgesAt(AddEdges(g, es).edges, k) == EdgesAt(g.edges, k) + Starting(es, k)
    decreases |es|
  {
    if es == [] {
      assert EdgesAt(g.edges, k) + [] == EdgesAt(g.edges, k);
    } else {
      var g1 := AddEdgeTo(g, es[0]);
      var here := if es[0].start == k then [es[0]] else [];
      AddEdgeAt(g, es[0], k);
      AddEdgesEdges(g1, es[1..], k);
      assert Starting(es, k) == here + Starting(es[1..], k);
      assert AddEdges(g, es) == AddEdges(g1, es[1..]);
      assert (EdgesAt(g.edges, k) + here) + Starting(es[1..], k) == EdgesAt(g.edges, k) + (here + Starting(es[1..], k));
    }
  }

  /** The list of one state after `addEdge`: the edge is appended when it
      leaves that state. */
  lemma AddEdgeAt(g: Graph, e: Edge, k: int)
    ensures EdgesAt(AddEdgeTo(g, e).edges, k) == EdgesAt(g.edges, k) + (if e.start == k then [e] else [])
    ensures e.start != k ==> EdgesAt(AddEdgeTo(g, e).edges, k) == EdgesAt(g.edges, k)
  {
    if e.start != k {
      assert EdgesAt(g.edges, k) + [] == EdgesAt(g.edges, k);
    }
  }

  lemma {:induction false} AddEdgesStates(g: Graph, es: seq<Edge>)
    ensures Elems(AddEdges(g, es).states) == Elems(g.states) + Endpoints(es)
    decreases |es|
  {
    if es != [] {
      AddEdgeOf(g, es[0]);
      AddEdgesStates(AddEdgeTo(g, es[0]), es[1..]);
    }
  }

  lemma {:induction false} StartingConcat(a: seq<Edge>, b: seq<Edge>, k: int)
    ensures Starting(a + b, k) == Starting(a, k) + Starting(b, k)
    decreases |a|
  {
    if a != [] {
      assert (a + b)[0] == a[0] && (a + b)[1..] == a[1..] + b;
      StartingConcat(a[1..], b, k);
    } else {
      assert a + b == b;
    }
  }

  lemma {:induction false} StartingAll(es: seq<Edge>, k: int)
    requires forall i :: 0 <= i < |es| ==> es[i].start == k
    ensures Starting(es, k) == es
    decreases |es|
  {
    if es != [] {
      StartingAll(es[1..], k);
    }
  }

  lemma {:induction false} StartingNone(es: seq<Edge>, k: int)
    requires forall i :: 0 <= i < |es| ==> es[i].start != k
    ensures Starting(es, k) == []
    decreases |es|
  {
    if es != [] {
      StartingNone(es[1..], k);
    }
  }

  /** The five edges, split by their start. */
  lemma StartingFive(p: Params, s: Seg, ws: Cost, k: int)
    ensures var es := SegmentEdges(p, s, ws);
      && (k == StStart(s) ==> Starting(es, k) == es[..2])
      && (k == StExtra(s) ==> Starting(es, k) == es[2..])
      && (k != StStart(s) && k != StExtra(s) ==> Starting(es, k) == [])
  {
    var es := SegmentEdges(p, s, ws);
    assert es == es[..2] + es[2..];
    StartingConcat(es[..2], es[2..], k);
    if k == StStart(s) {
      StartingAll(es[..2], k);
      StartingNone(es[2..], k);
    } else if k == StExtra(s) {
      StartingNone(es[..2], k);
      StartingAll(es[2..], k);
    } else {
      StartingNone(es[..2], k);
      StartingNone(es[2..], k);
    }
  }

  /** Adding the five edges of a segment record whose `st_extra` had none:
      state 2*first gets the two skip/replace edges appended, state
      2*last+1 gets exactly the three space/no-space/insert edges, and the
      three states join the set. */
  lemma SegmentEdgesAdded(p: Params, g: Graph, s: Seg, ws: Cost)
    requires EdgesAt(g.edges, StExtra(s)) == []
    ensures var r := AddEdges(g, SegmentEdges(p, s, ws));
      && EdgesAt(r.edges, StStart(s)) == EdgesAt(g.edges, StStart(s)) + SegmentEdges(p, s, ws)[..2]
      && EdgesAt(r.edges, StExtra(s)) == SegmentEdges(p, s, ws)[2..]
      && Elems(r.states) == Elems(g.states) + {StStart(s), StExtra(s), StNext(s)}
      && forall k :: k != StStart(s) && k != StExtra(s) ==> EdgesAt(r.edges, k) == EdgesAt(g.edges, k)
  {
    var es := SegmentEdges(p, s, ws);
    forall k ensures EdgesAt(AddEdges(g, es).edges, k) == EdgesAt(g.edges, k) + Starting(es, k) {
      AddEdgesEdges(g, es, k);
    }
    StartingFive(p, s, ws, StStart(s));
    StartingFive(p, s, ws, StExtra(s));
    forall k | k != StStart(s) && k != StExtra(s) ensures Starting(es, k) == [] {
      StartingFive(p, s, ws, k);
    }
    AddEdgesStates(g, es);
    assert es[4..][1..] == [] && es[3..][1..] == es[4..] && es[2..][1..] == es[3..] && es[1..][1..] == es[2..];
    assert Endpoints(es[4..]) == {StExtra(s), StNext(s)};
    assert Endpoints(es[2..]) == {StExtra(s), StNext(s)};
    assert Endpoints(es) == {StStart(s), StExtra(s), StNext(s)};
  }

  /** A `segment first:last` record whose `st_extra` already has edges
      changes nothing but the remembered segment; otherwise it adds the
      five edges of SegmentEdgesAdded, with both space costs clipped to
      `maxws`. */
  lemma SegmentRecord(p: Params, g: Graph, f: seq<Text>)
    requires SegmentStep(p, g, f).Ok?
    ensures var (r, s) := SegmentStep(p, g, f).value;
      && SpanField(f) == Ok((s.first, s.last)) && SpaceCostField(f).Ok?
      && s.nows == Min(SpaceCostField(f).value.no, p.maxws) && s.nows <= p.maxws
      && (EdgesAt(g.edges, StExtra(s)) != [] ==> r == g)
      && (EdgesAt(g.edges, StExtra(s)) == [] ==>
            r == AddEdges(g, SegmentEdges(p, s, Min(SpaceCostField(f).value.yes, p.maxws))))
  {
  }

  /** After a segment record, a second one ending at the same segment adds
      nothing: each `st_extra` gets its five edges once. */
  lemma SegmentOnce(p: Params, g: Graph, f1: seq<Text>, f2: seq<Text>)
    requires SegmentStep(p, g, f1).Ok?
    requires SegmentStep(p, SegmentStep(p, g, f1).value.0, f2).Ok?
    requires SegmentStep(p, g, f1).value.1.last == SegmentStep(p, SegmentStep(p, g, f1).value.0, f2).value.1.last
    ensures SegmentStep(p, SegmentStep(p, g, f1).value.0, f2).value.0 == SegmentStep(p, g, f1).value.0
  {
    var (r, s) := SegmentStep(p, g, f1).value;
    if EdgesAt(g.edges, StExtra(s)) == [] {
      SegmentEdgesAdded(p, g, s, Min(SpaceCostField(f1).value.yes, p.maxws));
    }
  }

  /** A `chr` record appends one edge from 2*first to 2*last+1 of the last
      segment record, with that segment's range, the record's class, and the
      cost `min(c+nows, maxcost)+nows`; before any segment record it fails. */
  lemma ChrRecord(p: Params, g: Graph, cur: Option<Seg>, f: seq<Text>)
    ensures FixedField(f, 3).Ok? && cur.None? ==> ChrStep(p, g, cur, f) == Err(NameError)
    ensures ChrStep(p, g, cur, f).Ok? ==>
      && cur.Some? && FixedField(f, 3).Ok? && |f| > 4
      && var (s, r) := (cur.value, ChrStep(p, g, cur, f).value);
         var e := Edge(StStart(s), StExtra(s), Min(FixedField(f, 3).value + s.nows, p.maxcost) + s.nows, f[4], (s.first, s.last));
         && Elems(r.states) == Elems(g.states) + {StStart(s), StExtra(s)}
         && EdgesAt(r.edges, StStart(s)) == EdgesAt(g.edges, StStart(s)) + [e]
         && forall k :: k != StStart(s) ==> EdgesAt(r.edges, k) == EdgesAt(g.edges, k)
  {
    if ChrStep(p, g, cur, f).Ok? {
      var e := ChrEdge(p, cur.value, FixedField(f, 3).value, f[4]);
      assert ChrStep(p, g, cur, f).value == AddEdgeTo(g, e);
      AddEdgeOf(g, e);
    }
  }

  /** Which line kind a record is, by its first field. */
  lemma ReadStepKinds(p: Params, g: Graph, cur: Option<Seg>, line: Text)
    ensures var f := Split(line);
      && (f == [] ==> ReadStep(p, g, cur, line) == Err(IndexError))
      && (f != [] && f[0] == Lit("segment") ==>
            ReadStep(p, g, cur, line) == (match SegmentStep(p, g, f)
              case Err(e) => Err(e)
              case Ok(gs) => Ok((gs.0, Some(gs.1)))))
      && (f != [] && f[0] == Lit("chr") ==>
            ReadStep(p, g, cur, line) == (match ChrStep(p, g, cur, f)
              case Err(e) => Err(e)
              case Ok(next) => Ok((next, cur))))
      && (f != [] && f[0] != Lit("segment") && f[0] != Lit("chr") ==> ReadStep(p, g, cur, line) == Ok((g, cur)))
  {
    assert Lit("segment") != Lit("chr") by { assert Lit("segment")[0] != Lit("chr")[0]; }
  }

  // ---------------------------------------------------------------
  // the costs stay clipped
  // ---------------------------------------------------------------

  /** The largest cost an edge can get: the mismatch cost, a clipped space
      cost, or a clipped character cost with the clipped no-space cost added. */
  function CostBound(p: Params): Cost
  {
    Max(p.mismatch, Max(p.maxws, p.maxcost + p.maxws))
  }

  /** Every edge is filed under its start state, ends in a state, and costs
      at most the bound. */
  ghost predicate Sound(g: Graph, p: Params)
  {
    forall k, e :: k in g.edges && e in g.edges[k] ==>
      e.start == k && e.stop in Elems(g.states) && e.cost <= CostBound(p)
  }

  lemma AddEdgeSound(g: Graph, p: Params, e: Edge)
    requires Sound(g, p) && e.cost <= CostBound(p)
    ensures Sound(AddEdgeTo(g, e), p)
  {
    AddEdgeOf(g, e);
    var r := AddEdgeTo(g, e);
    forall k, d | k in r.edges && d in r.edges[k]
      ensures d.start == k && d.stop in Elems(r.states) && d.cost <= CostBound(p)
    {
      if k == e.start {
        assert r.edges[k] == EdgesAt(g.edges, k) + [e];
        if d != e {
          assert d in EdgesAt(g.edges, k);
        }
      } else {
        assert r.edges[k] == EdgesAt(g.edges, k);
      }
    }
  }

  lemma {:induction false} AddEdgesSound(g: Graph, p: Params, es: seq<Edge>)
    requires Sound(g, p)
    requires forall i :: 0 <= i < |es| ==> es[i].cost <= CostBound(p)
    ensures Sound(AddEdges(g, es), p)
    decreases |es|
  {
    if es != [] {
      AddEdgeSound(g, p, es[0]);
      AddEdgesSound(AddEdgeTo(g, es[0]), p, es[1..]);
    }
  }

  lemma ReadStepSound(p: Params, g: Graph, cur: Option<Seg>, line: Text)
    requires Sound(g, p) && ReadStep(p, g, cur, line).Ok?
    requires cur.Some? ==> cur.value.nows <= p.maxws
    ensures Sound(ReadStep(p, g, cur, line).value.0, p)
    ensures var c := ReadStep(p, g, cur, line).value.1; c.Some? ==> c.value.nows <= p.maxws
  {
    ReadStepKinds(p, g, cur, line);
    var f := Split(line);
    if f[0] == Lit("segment") {
      var (r, s) := SegmentStep(p, g, f).value;
      if EdgesAt(g.edges, StExtra(s)) == [] {
        var es := SegmentEdges(p, s, Min(SpaceCostField(f).value.yes, p.maxws));
        AddEdgesSound(g, p, es);
      }
    } else if f[0] == Lit("chr") {
      var c := FixedField(f, 3).value;
      AddEdgeSound(g, p, ChrEdge(p, cur.value, c, f[4]));
    }
  }

  lemma {:induction false} ReadFromSound(p: Params, g: Graph, cur: Option<Seg>, lines: seq<Text>)
    requires Sound(g, p)
    requires cur.Some? ==> cur.value.nows <= p.maxws
    ensures Sound(ReadFrom(p, g, cur, lines).0, p)
    decreases |lines|
  {
    if lines != [] && ReadStep(p, g, cur, lines[0]).Ok? {
      ReadStepSound(p, g, cur, lines[0]);
      var gc := ReadStep(p, g, cur, lines[0]).value;
      ReadFromSound(p, gc.0, gc.1, lines[1..]);
    }
  }

  /** Whatever the file holds, and wherever an exception stops the reading,
      every edge of the lattice read so far hangs under its own start, ends
      in a state, and costs no more than the mismatch cost or the clipped
      character cost plus the clipped no-space cost. */
  lemma ReadAllSound(p: Params, lines: seq<Text>)
    ensures Sound(ReadAll(p, lines).0, p)
  {
    ReadFromSound(p, EmptyGraph, None, lines);
  }

  lemma {:induction false} AddEdgesWellFormed(g: Graph, es: seq<Edge>)
    requires WellFormed(g)
    ensures WellFormed(AddEdges(g, es))
    decreases |es|
  {
    if es != [] {
      AddEdgeOf(g, es[0]);
      AddEdgesWellFormed(AddEdgeTo(g, es[0]), es[1..]);
    }
  }

  lemma ReadStepWellFormed(p: Params, g: Graph, cur: Option<Seg>, line: Text)
    requires WellFormed(g) && ReadStep(p, g, cur, line).Ok?
    ensures WellFormed(ReadStep(p, g, cur, line).value.0)
  {
    ReadStepKinds(p, g, cur, line);
    var f := Split(line);
    if f[0] == Lit("segment") {
      var (r, s) := SegmentStep(p, g, f).value;
      if EdgesAt(g.edges, StExtra(s)) == [] {
        AddEdgesWellFormed(g, SegmentEdges(p, s, Min(SpaceCostField(f).value.yes, p.maxws)));
      }
    } else if f[0] == Lit("chr") {
      AddEdgeOf(g, ChrEdge(p, cur.value, FixedField(f, 3).value, f[4]));
    }
  }

  lemma {:induction false} ReadFromWellFormed(p: Params, g: Graph, cur: Option<Seg>, lines: seq<Text>)
    requires WellFormed(g)
    ensures WellFormed(ReadFrom(p, g, cur, lines).0)
    decreases |lines|
  {
    if lines != [] && ReadStep(p, g, cur, lines[0]).Ok? {
      ReadStepWellFormed(p, g, cur, lines[0]);
      var gc := ReadStep(p, g, cur, lines[0]).value;
      ReadFromWellFormed(p, gc.0, gc.1, lines[1..]);
    }
  }

  /** The states read are in increasing order, without repetition, and
      every state with an entry in `edges` is one of them. */
  lemma ReadAllWellFormed(p: Params, lines: seq<Text>)
    ensures WellFormed(ReadAll(p, lines).0)
  {
    assert WellFormed(EmptyGraph);
    ReadFromWellFormed(p, EmptyGraph, None, lines);
  }

  // ---------------------------------------------------------------
  // queries
  // ---------------------------------------------------------------

  /** The smallest and the largest state. */
  function Least(states: seq<int>): Result<int>
  {
    if states == [] then Err(ValueError) else Ok(states[0])
  }

  function Greatest(states: seq<int>): Result<int>
  {
    if states == [] then Err(ValueError) else Ok(states[|states| - 1])
  }

  /** `min(self.states)` and `max(self.states)`: they fail on an empty set,
      and are otherwise the least and the greatest state. */
  lemma LeastGreatest(g: Graph)
    requires WellFormed(g)
    ensures Least(g.states).Ok? <==> Elems(g.states) != {}
    ensures Greatest(g.states).Ok? <==> Elems(g.states) != {}
    ensures Least(g.states).Ok? ==>
      Least(g.states).value in Elems(g.states) && forall s :: s in Elems(g.states) ==> Least(g.states).value <= s
    ensures Greatest(g.states).Ok? ==>
      Greatest(g.states).value in Elems(g.states) && forall s :: s in Elems(g.states) ==> s <= Greatest(g.states).value
    ensures Least(g.states).Err? ==> Least(g.states).error == ValueError
    ensures Greatest(g.states).Err? ==> Greatest(g.states).error == ValueError
  {
    var st := g.states;
    if st != [] {
      assert st[0] in Elems(st);
      forall s | s in Elems(st) ensures st[0] <= s && s <= st[|st| - 1] {
        var k :| 0 <= k < |st| && st[k] == s;
      }
    }
  }

  /** The classes of the edges leaving the states st[k..], in order. */
  function ClassesFrom(g: Graph, k: nat): seq<Text>
    requires k <= |g.states|
    decreases |g.states| - k
  {
    if k == |g.states| then []
    else
      var es := EdgesAt(g.edges, g.states[k]);
      seq(|es|, i requires 0 <= i < |es| => es[i].cls) + ClassesFrom(g, k + 1)
  }

  /** Python's `<` on strings. */
  predicate TextLess(a: Text, b: Text)
  {
    LexLess(a, b)
  }

  lemma TextLessTotal()
    ensures StrictTotalOrder(TextLess)
  {
    forall x: Text ensures !TextLess(x, x) { LexIrreflexive(x); }
    forall x: Text, y: Text, z: Text | TextLess(x, y) && TextLess(y, z) ensures TextLess(x, z) {
      LexTransitive(x, y, z);
    }
    forall x: Text, y: Text | x != y ensures TextLess(x, y) || TextLess(y, x) { LexConnected(x, y); }
  }

  /** `classes()`: the distinct classes of all edges, sorted; `reduce`
      fails when the dictionary has no entries. */
  function ClassesOf(g: Graph): Result<seq<Text>>
  {
    if g.edges == map[] then Err(TypeError)
    else
      TextLessTotal();
      Ok(SortDistinct(ClassesFrom(g, 0), TextLess))
  }

  /** The class of an edge leaving some state. */
  ghost predicate IsClass(g: Graph, c: Text)
  {
    exists k, e :: k in g.edges && e in g.edges[k] && e.cls == c
  }

  lemma {:induction false} ClassesFromOf(g: Graph, k: nat, c: Text)
    requires WellFormed(g) && k <= |g.states|
    ensures c in ClassesFrom(g, k) <==>
      exists j, e :: k <= j < |g.states| && e in EdgesAt(g.edges, g.states[j]) && e.cls == c
    decreases |g.states| - k
  {
    if k < |g.states| {
      ClassesFromOf(g, k + 1, c);
      var es := EdgesAt(g.edges, g.states[k]);
      var here := seq(|es|, i requires 0 <= i < |es| => es[i].cls);
      assert c in here <==> exists e :: e in es && e.cls == c by {
        if c in here {
          var i :| 0 <= i < |here| && here[i] == c;
          assert es[i] in es;
        }
        if exists e :: e in es && e.cls == c {
          var e :| e in es && e.cls == c;
          var i :| 0 <= i < |es| && es[i] == e;
          assert here[i] == c;
        }
      }
    }
  }

  /** With at least one entry in the dictionary, `classes()` is sorted,
      holds no class twice, and holds exactly the classes of the edges. */
  lemma ClassesHolds(g: Graph)
    requires WellFormed(g)
    ensures ClassesOf(g).Err? <==> g.edges == map[]
    ensures ClassesOf(g).Err? ==> ClassesOf(g).error == TypeError
    ensures ClassesOf(g).Ok? ==>
      StrictlySorted(ClassesOf(g).value, TextLess) && forall c :: c in ClassesOf(g).value <==> IsClass(g, c)
  {
    if g.edges != map[] {
      TextLessTotal();
      var r := ClassesOf(g).value;
      forall c ensures c in r <==> IsClass(g, c) {
        ClassesFromOf(g, 0, c);
        assert c in r <==> c in Elems(ClassesFrom(g, 0));
        if IsClass(g, c) {
          var k, e :| k in g.edges && e in g.edges[k] && e.cls == c;
          assert k in Elems(g.states);
          var j :| 0 <= j < |g.states| && g.states[j] == k;
          assert e in EdgesAt(g.edges, g.states[j]);
        }
      }
    }
  }

  // the class
  // ---------------------------------------------------------------

  class Lattice {
    var maxws: Cost
    var maxcost: Cost
    var mismatch: Cost
    var accept: Option<seq<int>>
    var states: seq<int>
    var edges: map<int, seq<Edge>>

    function Limits(): Params
      reads this
    {
      Params.Params(maxws, maxcost, mismatch)
    }

    function Data(): Graph
      reads this
    {
      Graph(states, edges)
    }

    ghost predicate Valid()
      reads this
    {
      WellFormed(Data())
    }

    /** `Lattice(**kw)`: the limits default to 20.0, 20.0 and 30.0. */
    constructor(maxws: Cost := 200000, maxcost: Cost := 200000, mismatch: Cost := 300000)
      ensures Valid() && Data() == EmptyGraph && accept.None?
      ensures Limits() == Params.Params(maxws, maxcost, mismatch)
    {
      this.maxws := maxws;
      this.maxcost := maxcost;
      this.mismatch := mismatch;
      accept := None;
      states := [];
      edges := map[];
    }

    /** `addEdge`. */
    method AddEdge(e: Edge)
      requires Valid()
      modifies this
      ensures Valid() && Data() == AddEdgeTo(old(Data()), e)
      ensures Limits() == old(Limits()) && accept == old(accept)
    {
      AddEdgeOf(Data(), e);
      states := AddDistinct(e.start, states);
      states := AddDistinct(e.stop, states);
      edges := edges[e.start := EdgesAt(edges, e.start) + [e]];
    }

    /** A `segment` record of `readLattice`. */
    method ReadSegment(f: seq<Text>) returns (r: Result<Seg>)
      requires Valid()
      modifies this
      ensures Valid() && Limits() == old(Limits()) && accept == old(accept)
      ensures var spec := SegmentStep(old(Limits()), old(Data()), f);
        && (spec.Err? ==> r == Err(spec.error) && Data() == old(Data()))
        && (spec.Ok? ==> r == Ok(spec.value.1) && Data() == spec.value.0)
    {
      var span := SpanField(f);
      if span.Err? {
        return Err(span.error);
      }
      var sc := SpaceCostField(f);
      if sc.Err? {
        return Err(sc.error);
      }
      var ws := Min(sc.value.yes, maxws);
      var s := Seg(span.value.0, span.value.1, Min(sc.value.no, maxws));
      if EdgesAt(edges, StExtra(s)) == [] {
        ghost var es := SegmentEdges(Limits(), s, ws);
        ghost var goal := AddEdges(Data(), es);
        AddEdge(Edge(StStart(s), StExtra(s), mismatch, [], (0, 0)));
        assert es[1..][0] == es[1] && es[1..][1..] == es[2..];
        assert goal == AddEdges(Data(), es[1..]);
        AddEdge(Edge(StStart(s), StExtra(s), mismatch, Lit("~"), (0, 0)));
        assert es[2..][0] == es[2] && es[2..][1..] == es[3..];
        assert goal == AddEdges(Data(), es[2..]);
        AddEdge(Edge(StExtra(s), StNext(s), ws, Lit(" "), (0, 0)));
        assert es[3..][0] == es[3] && es[3..][1..] == es[4..];
        assert goal == AddEdges(Data(), es[3..]);
        AddEdge(Edge(StExtra(s), StNext(s), s.nows, [], (0, 0)));
        assert es[4..] == [es[4]];
        AddEdgesOne(Data(), es[4]);
        assert goal == AddEdgeTo(Data(), es[4]);
        AddEdge(Edge(StExtra(s), StNext(s), mismatch, Lit("~"), (0, 0)));
      }
      return Ok(s);
    }

    /** A `chr` record of `readLattice`. */
    method ReadChr(cur: Option<Seg>, f: seq<Text>) returns (r: Result<()>)
      requires Valid()
      modifies this
      ensures Valid() && Limits() == old(Limits()) && accept == old(accept)
      ensures var spec := ChrStep(old(Limits()), old(Data()), cur, f);
        && (spec.Err? ==> r == Err(spec.error) && Data() == old(Data()))
        && (spec.Ok? ==> r.Ok? && Data() == spec.value)
    {
      var c := FixedField(f, 3);
      if c.Err? {
        return Err(c.error);
      }
      if cur.None? {
        return Err(NameError);
      }
      var s := cur.value;
      var cls := Field(f, 4);
      if cls.Err? {
        return Err(cls.error);
      }
      var cost := Min(c.value + s.nows, maxcost);
      AddEdge(Edge(StStart(s), StExtra(s), cost + s.nows, cls.value, (s.first, s.last)));
      return Ok(());
    }

    /** The body of `readLattice`'s loop on one line. */
    method ReadLine(cur: Option<Seg>, line: Text) returns (r: Result<Option<Seg>>)
      requires Valid()
      modifies this
      ensures Valid() && Limits() == old(Limits()) && accept == old(accept)
      ensures var spec := ReadStep(old(Limits()), old(Data()), cur, line);
        && (spec.Err? ==> r == Err(spec.error) && Data() == old(Data()))
        && (spec.Ok? ==> r == Ok(spec.value.1) && Data() == spec.value.0)
    {
      ReadStepKinds(Limits(), Data(), cur, line);
      var f := Split(line);
      var head := Field(f, 0);
      if head.Err? {
        return Err(head.error);
      }
      if head.value == Lit("segment") {
        var s := ReadSegment(f);
        if s.Err? {
          return Err(s.error);
        }
        return Ok(Some(s.value));
      } else if head.value == Lit("chr") {
        var done := ReadChr(cur, f);
        if done.Err? {
          return Err(done.error);
        }
      }
      return Ok(cur);
    }

    /** `readLattice` over the lines of the file: it resets the states and
        the edges, and stops at the first exception. */
    method ReadLattice(lines: seq<Text>) returns (err: Option<Error>)
      modifies this
      ensures Valid() && Limits() == old(Limits()) && accept == old(accept)
      ensures (Data(), err) == ReadAll(old(Limits()), lines)
      ensures Sound(Data(), Limits())
    {
      ReadAllSound(Limits(), lines);
      states := [];
      edges := map[];
      assert Data() == EmptyGraph;
      var cur: Option<Seg> := None;
      var i := 0;
      while i < |lines|
        invariant 0 <= i <= |lines| && Valid() && Limits() == old(Limits()) && accept == old(accept)
        invariant ReadFrom(Limits(), Data(), cur, lines[i..]) == ReadAll(Limits(), lines)
        decreases |lines| - i
      {
        ghost var before := Data();
        assert lines[i..][0] == lines[i] && lines[i..][1..] == lines[i + 1..];
        var r := ReadLine(cur, lines[i]);
        if r.Err? {
          return Some(r.error);
        }
        cur := r.value;
        i := i + 1;
      }
      return None;
    }

    /** `startState()`: `min(self.states)`, ValueError on no states. */
    function StartState(): (r: Result<int>)
      reads this
      ensures r.Err? <==> states == []
      ensures r.Err? ==> r.error == ValueError
      ensures WellFormed(Data()) && r.Ok? ==> r.value in states && forall s :: s in states ==> r.value <= s
    {
      if WellFormed(Data()) then LeastGreatest(Data()); Least(states) else Least(states)
    }

    /** `lastState()`: `max(self.states)`, ValueError on no states. */
    function LastState(): (r: Result<int>)
      reads this
      ensures r.Err? <==> states == []
      ensures r.Err? ==> r.error == ValueError
      ensures WellFormed(Data()) && r.Ok? ==> r.value in states && forall s :: s in states ==> s <= r.value
    {
      if WellFormed(Data()) then LeastGreatest(Data()); Greatest(states) else Greatest(states)
    }

    /** `isAccept(i)`: on the first call the accepting states become
        `[lastState()]`, and they are kept from then on, even when the
        states change later. */
    method IsAccept(i: int) returns (r: Result<bool>)
      modifies this
      ensures Data() == old(Data()) && Limits() == old(Limits())
      ensures old(accept).Some? ==> accept == old(accept) && r == Ok(i in old(accept).value)
      ensures old(accept).None? && states == [] ==> accept.None? && r == Err(ValueError)
      ensures old(accept).None? && states != [] ==>
        accept == Some([states[|states| - 1]]) && r == Ok(i == states[|states| - 1])
    {
      if accept.None? {
        var last := LastState();
        if last.Err? {
          return Err(last.error);
        }
        accept := Some([last.value]);
      }
      return Ok(i in accept.value);
    }

    /** `classes()`: the sorted distinct classes of the edges; `reduce` of an
        empty dictionary raises TypeError. */
    function Classes(): (r: Result<seq<Text>>)
      reads this
      ensures r.Err? <==> edges == map[]
      ensures r.Err? ==> r.error == TypeError
      ensures WellFormed(Data()) && r.Ok? ==>
        StrictlySorted(r.value, TextLess) && forall c :: c in r.value <==> IsClass(Data(), c)
    {
      if WellFormed(Data()) then ClassesHolds(Data()); ClassesOf(Data()) else ClassesOf(Data())
    }
  }
}
