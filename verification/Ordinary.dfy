/** What the theorems ask of the remaining instructions is met by ordinary ones: stores and loads of
    any number of cells, with and without writeback, pointer arithmetic and comparison inside an
    object, and computation on data. */
module Ordinary {
  import opened Assembly
  import opened Machine
  import opened Simulation
  import opened Preservation
  import opened WholePages

  /** What an instruction does with the values it is given; in a transfer the base comes last. */
  datatype Kind =
    | Store(disp: int, writeback: bool)
    | Load(disp: int, count: nat, writeback: bool)
    | Move(disp: int)                 // another address in the object
    | Span                            // the distance of two addresses in one object
    | Compute(f: seq<int> -> int)     // on data only

  const CELL := 8

  function Displaced(within: (nat, nat) -> bool, a: nat, k: int): Option<nat> {
    if k == 0 then Some(a) else if a + k >= 0 && within(a, a + k) then Some(a + k) else None
  }

  /** The address of the `i`th cell from `disp` on, if it is in the object and mapped. */
  function Cell(within: (nat, nat) -> bool, m: Memory, a: nat, disp: int, i: nat): Option<nat> {
    var c := Displaced(within, a, disp + CELL * i);
    if c.Some? && c.value in m then c else None
  }

  function StoreCells(within: (nat, nat) -> bool, m: Memory, a: nat, disp: int, vs: seq<Value>): Option<Memory> {
    if vs == [] then Some(m)
    else
      var i := |vs| - 1;
      match (StoreCells(within, m, a, disp, vs[..i]), Cell(within, m, a, disp, i))
      case (Some(m'), Some(c)) => Some(m'[c := vs[i]])
      case _ => None
  }

  function LoadCells(within: (nat, nat) -> bool, m: Memory, a: nat, disp: int, count: nat): (vs: Option<seq<Value>>)
    ensures vs.Some? ==> |vs.value| == count
  {
    if count == 0 then Some([])
    else
      match (LoadCells(within, m, a, disp, count - 1), Cell(within, m, a, disp, count - 1))
      case (Some(vs), Some(c)) => Some(vs + [m[c]])
      case _ => None
  }

  function WrittenBack(within: (nat, nat) -> bool, a: nat, disp: int, writeback: bool): Option<seq<Value>> {
    if !writeback then Some([])
    else
      match Displaced(within, a, disp)
      case Some(b) => Some([Ptr(b)])
      case None => None
  }

  predicate AllData(vs: seq<Value>) { forall i :: 0 <= i < |vs| ==> vs[i].Data? }

  function Numbers(vs: seq<Value>): seq<int>
    requires AllData(vs)
  {
    seq(|vs|, i requires 0 <= i < |vs| => vs[i].n)
  }

  function Difference(within: (nat, nat) -> bool, vs: seq<Value>): Option<seq<Value>> {
    if |vs| == 2 && vs[0].Ptr? && vs[1].Ptr? && within(vs[0].at, vs[1].at) then Some([Data(vs[1].at - vs[0].at)]) else None
  }

  function Transfer(kind: Kind, within: (nat, nat) -> bool, a: nat, vs: seq<Value>, m: Memory): Option<(seq<Value>, Memory)>
    requires kind.Store? || kind.Load?
  {
    if kind.Store? then
      match (StoreCells(within, m, a, kind.disp, vs), WrittenBack(within, a, kind.disp, kind.writeback))
      case (Some(m'), Some(outs)) => Some((outs, m'))
      case _ => None
    else
      match (LoadCells(within, m, a, kind.disp, kind.count), WrittenBack(within, a, kind.disp, kind.writeback))
      case (Some(loaded), Some(outs)) => Some((loaded + outs, m))
      case _ => None
  }

  function Perform(kind: Kind, within: (nat, nat) -> bool, vs: seq<Value>, m: Memory): Option<(seq<Value>, Memory)> {
    if kind.Compute? then
      if AllData(vs) then Some(([Data(kind.f(Numbers(vs)))], m)) else None
    else if kind.Span? then
      match Difference(within, vs)
      case Some(outs) => Some((outs, m))
      case None => None
    else if vs == [] || !vs[|vs| - 1].Ptr? then None
    else
      var base := vs[|vs| - 1].at;
      if kind.Move? then
        match WrittenBack(within, base, kind.disp, true)
        case Some(outs) => Some((outs, m))
        case None => None
      else Transfer(kind, within, base, vs[..|vs| - 1], m)
  }

  /** Branches look at data; only a comparison with zero may be asked of an address. */
  function Tested(t: TestKind, v: Value): Option<bool> {
    match (t, v)
    case (Cbz, Data(n)) => Some(n == 0)
    case (Cbnz, Data(n)) => Some(n != 0)
    case (Cbz, Ptr(_)) => Some(false)
    case (Cbnz, Ptr(_)) => Some(true)
    case _ => None
  }

  function Meaning(decode: string -> Kind, holds: (string, int) -> bool): Semantics {
    Semantics((t, within, vs, m) => Perform(decode(t), within, vs, m),
              (c: string, v: Value) => if v.Data? then Some(holds(c, v.n)) else None,
              Tested)
  }

  /** No two addresses are put in one place. */
  ghost predicate KeepsApart(w': World) {
    forall a: nat, b: nat :: Loc(w', a) == Loc(w', b) ==> a == b
  }

  /** Corresponding values; unless `spill` is set, none that is a bare page. */
  predicate Match(w': World, spill: bool, v: Value, v': Value) { Corr(w', v, v') && (spill || !v.Page?) }

  predicate AllMatch(w': World, spill: bool, vs: seq<Value>, vs': seq<Value>) {
    |vs| == |vs'| && forall i :: 0 <= i < |vs| ==> Match(w', spill, vs[i], vs'[i])
  }

  predicate CellsMatch(w': World, spill: bool, m: Memory, m': Memory) {
    forall a :: a in m ==> Loc(w', a) in m' && Match(w', spill, m[a], m'[Loc(w', a)])
  }

  predicate EffectsMatch(w': World, spill: bool, o: Option<(seq<Value>, Memory)>, o': Option<(seq<Value>, Memory)>) {
    o.Some? ==> o'.Some? && AllMatch(w', spill, o.value.0, o'.value.0) && CellsMatch(w', spill, o.value.1, o'.value.1)
  }

  lemma DisplacedMoves(w: World, w': World, a: nat, k: int)
    requires MovesObjects(w, w') && Displaced(w.within, a, k).Some?
    ensures Displaced(w'.within, Loc(w', a), k) == Some(Loc(w', a + k))
  {
    if k != 0 {
      assert w.within(a, a + k);
    }
  }

  lemma CellMoves(w: World, w': World, spill: bool, m: Memory, m': Memory, a: nat, disp: int, i: nat)
    requires MovesObjects(w, w') && CellsMatch(w', spill, m, m') && Cell(w.within, m, a, disp, i).Some?
    ensures Cell(w'.within, m', Loc(w', a), disp, i) == Some(Loc(w', Cell(w.within, m, a, disp, i).value))
  {
    DisplacedMoves(w, w', a, disp + CELL * i);
  }

  lemma CellStored(w': World, spill: bool, m: Memory, m': Memory, c: nat, v: Value, v': Value)
    requires KeepsApart(w') && CellsMatch(w', spill, m, m') && Match(w', spill, v, v')
    ensures CellsMatch(w', spill, m[c := v], m'[Loc(w', c) := v'])
  {}

  lemma {:induction false} StoresMove(w: World, w': World, spill: bool, m: Memory, m': Memory, a: nat, disp: int, vs: seq<Value>, vs': seq<Value>)
    requires MovesObjects(w, w') && KeepsApart(w') && CellsMatch(w', spill, m, m') && AllMatch(w', spill, vs, vs')
    requires StoreCells(w.within, m, a, disp, vs).Some?
    ensures var o' := StoreCells(w'.within, m', Loc(w', a), disp, vs');
            o'.Some? && CellsMatch(w', spill, StoreCells(w.within, m, a, disp, vs).value, o'.value)
    decreases |vs|
  {
    if vs != [] {
      var i := |vs| - 1;
      StoresMove(w, w', spill, m, m', a, disp, vs[..i], vs'[..i]);
      CellMoves(w, w', spill, m, m', a, disp, i);
      CellStored(w', spill, StoreCells(w.within, m, a, disp, vs[..i]).value,
                 StoreCells(w'.within, m', Loc(w', a), disp, vs'[..i]).value,
                 Cell(w.within, m, a, disp, i).value, vs[i], vs'[i]);
    }
  }

  lemma MatchAppend(w': World, spill: bool, vs: seq<Value>, vs': seq<Value>, v: Value, v': Value)
    requires AllMatch(w', spill, vs, vs') && Match(w', spill, v, v')
    ensures AllMatch(w', spill, vs + [v], vs' + [v'])
  {}

  lemma OneMoreLoaded(w: World, w': World, spill: bool, m: Memory, m': Memory, a: nat, disp: int, n: nat)
    requires CellsMatch(w', spill, m, m') && LoadCells(w.within, m, a, disp, n + 1).Some?
    requires Cell(w'.within, m', Loc(w', a), disp, n) == Some(Loc(w', Cell(w.within, m, a, disp, n).value))
    requires var o' := LoadCells(w'.within, m', Loc(w', a), disp, n);
             o'.Some? && AllMatch(w', spill, LoadCells(w.within, m, a, disp, n).value, o'.value)
    ensures var o' := LoadCells(w'.within, m', Loc(w', a), disp, n + 1);
            o'.Some? && AllMatch(w', spill, LoadCells(w.within, m, a, disp, n + 1).value, o'.value)
  {
    var c := Cell(w.within, m, a, disp, n).value;
    MatchAppend(w', spill, LoadCells(w.within, m, a, disp, n).value,
                LoadCells(w'.within, m', Loc(w', a), disp, n).value, m[c], m'[Loc(w', c)]);
  }

  lemma {:induction false} LoadsMove(w: World, w': World, spill: bool, m: Memory, m': Memory, a: nat, disp: int, count: nat)
    requires MovesObjects(w, w') && CellsMatch(w', spill, m, m') && LoadCells(w.within, m, a, disp, count).Some?
    ensures var o' := LoadCells(w'.within, m', Loc(w', a), disp, count);
            o'.Some? && AllMatch(w', spill, LoadCells(w.within, m, a, disp, count).value, o'.value)
    decreases count
  {
    if count > 0 {
      LoadsMove(w, w', spill, m, m', a, disp, count - 1);
      CellMoves(w, w', spill, m, m', a, disp, count - 1);
      OneMoreLoaded(w, w', spill, m, m', a, disp, count - 1);
    }
  }

  lemma WritebackMoves(w: World, w': World, spill: bool, a: nat, disp: int, writeback: bool)
    requires MovesObjects(w, w') && WrittenBack(w.within, a, disp, writeback).Some?
    ensures var o' := WrittenBack(w'.within, Loc(w', a), disp, writeback);
            o'.Some? && AllMatch(w', spill, WrittenBack(w.within, a, disp, writeback).value, o'.value)
  {
    if writeback {
      DisplacedMoves(w, w', a, disp);
    }
  }

  lemma StoreMoves(kind: Kind, w: World, w': World, spill: bool, a: nat, vs: seq<Value>, vs': seq<Value>, m: Memory, m': Memory)
    requires kind.Store? && Transfer(kind, w.within, a, vs, m).Some?
    requires MovesObjects(w, w') && KeepsApart(w') && CellsMatch(w', spill, m, m') && AllMatch(w', spill, vs, vs')
    ensures EffectsMatch(w', spill, Transfer(kind, w.within, a, vs, m), Transfer(kind, w'.within, Loc(w', a), vs', m'))
  {
    WritebackMoves(w, w', spill, a, kind.disp, kind.writeback);
    StoresMove(w, w', spill, m, m', a, kind.disp, vs, vs');
  }

  lemma LoadMoves(kind: Kind, w: World, w': World, spill: bool, a: nat, vs: seq<Value>, vs': seq<Value>, m: Memory, m': Memory)
    requires kind.Load? && Transfer(kind, w.within, a, vs, m).Some?
    requires MovesObjects(w, w') && CellsMatch(w', spill, m, m')
    ensures EffectsMatch(w', spill, Transfer(kind, w.within, a, vs, m), Transfer(kind, w'.within, Loc(w', a), vs', m'))
  {
    WritebackMoves(w, w', spill, a, kind.disp, kind.writeback);
    LoadsMove(w, w', spill, m, m', a, kind.disp, kind.count);
  }

  lemma TransferMoves(kind: Kind, w: World, w': World, spill: bool, a: nat, vs: seq<Value>, vs': seq<Value>, m: Memory, m': Memory)
    requires kind.Store? || kind.Load?
    requires MovesObjects(w, w') && KeepsApart(w') && CellsMatch(w', spill, m, m') && AllMatch(w', spill, vs, vs')
    ensures EffectsMatch(w', spill, Transfer(kind, w.within, a, vs, m), Transfer(kind, w'.within, Loc(w', a), vs', m'))
  {
    if Transfer(kind, w.within, a, vs, m).Some? {
      if kind.Store? {
        StoreMoves(kind, w, w', spill, a, vs, vs', m, m');
      } else {
        LoadMoves(kind, w, w', spill, a, vs, vs', m, m');
      }
    }
  }

  lemma ComputeMoves(kind: Kind, w: World, w': World, spill: bool, vs: seq<Value>, vs': seq<Value>, m: Memory, m': Memory)
    requires kind.Compute? && CellsMatch(w', spill, m, m') && AllMatch(w', spill, vs, vs')
    ensures EffectsMatch(w', spill, Perform(kind, w.within, vs, m), Perform(kind, w'.within, vs', m'))
  {
    if AllData(vs) {
      assert AllData(vs') && Numbers(vs) == Numbers(vs');
    }
  }

  lemma SpanMoves(w: World, w': World, spill: bool, vs: seq<Value>, vs': seq<Value>, m: Memory, m': Memory)
    requires MovesObjects(w, w') && CellsMatch(w', spill, m, m') && AllMatch(w', spill, vs, vs')
    ensures EffectsMatch(w', spill, Perform(Span, w.within, vs, m), Perform(Span, w'.within, vs', m'))
  {}

  lemma BasedMoves(kind: Kind, w: World, w': World, spill: bool, vs: seq<Value>, vs': seq<Value>, m: Memory, m': Memory)
    requires kind.Move? || kind.Store? || kind.Load?
    requires MovesObjects(w, w') && KeepsApart(w') && CellsMatch(w', spill, m, m') && AllMatch(w', spill, vs, vs')
    ensures EffectsMatch(w', spill, Perform(kind, w.within, vs, m), Perform(kind, w'.within, vs', m'))
  {
    if vs != [] && vs[|vs| - 1].Ptr? {
      var last := |vs| - 1;
      if kind.Move? {
        if WrittenBack(w.within, vs[last].at, kind.disp, true).Some? {
          WritebackMoves(w, w', spill, vs[last].at, kind.disp, true);
        }
      } else {
        TransferMoves(kind, w, w', spill, vs[last].at, vs[..last], vs'[..last], m, m');
      }
    }
  }

  lemma PerformMoves(kind: Kind, w: World, w': World, spill: bool, vs: seq<Value>, vs': seq<Value>, m: Memory, m': Memory)
    requires MovesObjects(w, w') && KeepsApart(w') && CellsMatch(w', spill, m, m') && AllMatch(w', spill, vs, vs')
    ensures EffectsMatch(w', spill, Perform(kind, w.within, vs, m), Perform(kind, w'.within, vs', m'))
  {
    if kind.Compute? {
      ComputeMoves(kind, w, w', spill, vs, vs', m, m');
    } else if kind.Span? {
      SpanMoves(w, w', spill, vs, vs', m, m');
    } else {
      BasedMoves(kind, w, w', spill, vs, vs', m, m');
    }
  }

  /** Whatever the instructions are decoded to, they are indifferent to every placement that moves
      objects as wholes and keeps addresses apart. */
  lemma OrdinaryIsEquivariant(decode: string -> Kind, holds: (string, int) -> bool, w: World, w': World)
    requires MovesObjects(w, w') && KeepsApart(w')
    ensures Equivariant(Meaning(decode, holds), w, w')
  {
    var sem := Meaning(decode, holds);
    forall t, vs, vs', m, m' | CleanAll(w', vs, vs') && CorrMem(w', m, m')
      ensures SameEffect(w', sem.op(t, w.within, vs, m), sem.op(t, w'.within, vs', m'))
    {
      PerformMoves(decode(t), w, w', false, vs, vs', m, m');
      assert EffectsMatch(w', false, sem.op(t, w.within, vs, m), sem.op(t, w'.within, vs', m'));
    }
  }

  /** And to bare pages. */
  lemma OrdinaryTracks(decode: string -> Kind, holds: (string, int) -> bool, w: World, w': World)
    requires MovesObjects(w, w') && KeepsApart(w')
    ensures Tracks(Meaning(decode, holds), w, w')
  {
    var sem := Meaning(decode, holds);
    forall t, vs, vs', m, m' | CorrAll(w', vs, vs') && CellsAgree(w', m, m')
      ensures SameEffectOnPages(w', sem.op(t, w.within, vs, m), sem.op(t, w'.within, vs', m'))
    {
      PerformMoves(decode(t), w, w', true, vs, vs', m, m');
      assert EffectsMatch(w', true, sem.op(t, w.within, vs, m), sem.op(t, w'.within, vs', m'));
    }
  }
}
