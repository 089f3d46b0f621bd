/** The weighted transducer the lattice builders write into (`ocrofst.OcroFST`,
    a native class): `newState` hands out consecutive state numbers and
    `addTransition` appends one arc. */
module Fst {
  import opened Text

  /** One arc `from -> to` writing `output`, reading `input`, at `cost`. */
  datatype Transition = Transition(src: int, dst: int, output: int, cost: Cost, input: int)

  /** The contents of an OcroFst object as a value. */
  datatype FstView = FstView(nstates: nat, start: int, accept: set<int>, trans: seq<Transition>)

  const EmptyFst := FstView(0, -1, {}, [])

  /** `newState`: the next unused state number. */
  function Fresh(v: FstView): (r: (int, FstView))
    ensures r.0 == v.nstates && r.1.nstates == v.nstates + 1
    ensures r.1.start == v.start && r.1.accept == v.accept && r.1.trans == v.trans
  {
    (v.nstates, v.(nstates := v.nstates + 1))
  }

  function WithArc(v: FstView, t: Transition): (r: FstView)
    ensures r.trans == v.trans + [t]
    ensures r.nstates == v.nstates && r.start == v.start && r.accept == v.accept
  {
    v.(trans := v.trans + [t])
  }

  class OcroFst {
    var nstates: nat
    var start: int
    var accept: set<int>
    var trans: seq<Transition>

    function View(): FstView
      reads this
    {
      FstView(nstates, start, accept, trans)
    }

    constructor ()
      ensures View() == EmptyFst
    {
      nstates := 0;
      start := -1;
      accept := {};
      trans := [];
    }

    method NewState() returns (s: int)
      modifies this
      ensures (s, View()) == Fresh(old(View()))
    {
      s := nstates;
      nstates := nstates + 1;
    }

    method AddTransition(src: int, dst: int, output: int, cost: Cost, input: int)
      modifies this
      ensures View() == WithArc(old(View()), Transition(src, dst, output, cost, input))
    {
      trans := trans + [Transition(src, dst, output, cost, input)];
    }

    method SetStart(s: int)
      modifies this
      ensures View() == old(View()).(start := s)
    {
      start := s;
    }

    method SetAccept(s: int)
      modifies this
      ensures View() == old(View()).(accept := old(accept) + {s})
    {
      accept := accept + {s};
    }
  }
}
