/** The placement of ututna/600_fft.inc, which is no shift: the constant of L14a8e8 is put in front of
    that of L14a8d0. A listing that pushes, loads a constant and stores it is reproduced there. */
module Rearranged {
  import opened Numerals
  import opened Assembly
  import opened Refine
  import opened Post
  import opened Machine
  import opened Simulation
  import opened Preservation
  import opened Exactness
  import opened Ordinary
  import opened Witness

  const FIRST := 0x14a8d0   // a constant of eight bytes
  const TABLE := 0x14a8d8   // the jump table behind it
  const LAST := 0x14a8e8    // another constant
  const END := 0x14a8f0

  function NewPlace(a: nat): nat {
    if FIRST <= a < LAST then a + 8 else if LAST <= a < END then a - 24 else a
  }

  function Object(a: nat): nat {
    if a < FIRST then 0 else if a < TABLE then 1 else if a < LAST then 2 else if a < END then 3 else 4
  }

  /** Which object lies at an address afterwards. */
  function NewObject(a: nat): nat {
    if a < FIRST then 0 else if a < FIRST + 8 then 3 else if a < FIRST + 16 then 1 else if a < END then 2 else 4
  }

  function Linked(): World {
    World(t => if IsNumeral(t, 16) then ValueOf(t, 16) else 0, (a: nat, b: nat) => Object(a) == Object(b))
  }

  function Included(): World {
    World(t => if IsNumeral(t, 16) then NewPlace(ValueOf(t, 16)) else 0, (a: nat, b: nat) => NewObject(a) == NewObject(b))
  }

  lemma PlacesAnew(a: nat)
    ensures Loc(Included(), a) == NewPlace(a)
    ensures NewObject(NewPlace(a)) == Object(a)
  {}

  lemma ConstantsChangePlaces()
    ensures Original(Linked()) && MovesObjects(Linked(), Included()) && KeepsApart(Included())
    ensures Loc(Included(), FIRST) == Loc(Included(), LAST) + 8
    ensures forall k: nat :: !ShiftsBy(Included(), k)
  {
    forall a: nat, b: nat | Linked().within(a, b)
      ensures Included().within(Loc(Included(), a), Loc(Included(), b))
      ensures Loc(Included(), b) + a == Loc(Included(), a) + b
    {
      PlacesAnew(a);
      PlacesAnew(b);
    }
    forall a: nat, b: nat | Loc(Included(), a) == Loc(Included(), b) ensures a == b {
      PlacesAnew(a);
      PlacesAnew(b);
    }
    forall k: nat ensures !ShiftsBy(Included(), k) {
      PlacesAnew(FIRST);
      PlacesAnew(LAST);
      assert Loc(Included(), FIRST) != FIRST + k || Loc(Included(), LAST) != LAST + k;
    }
  }

  /** Operands that refine.py prints as they are. */
  predicate Printable(text: string) { '@' !in text && !HasOffsetMark(text) }

  /** A push of d11 and d10; adrp x8, 14a000; ldr d0, [x8,#2256]; a store of d0 on the stack; ret */
  function Storing(push: string, store: string): seq<Line> {
    [Code("10", Op(push, [V(11), V(10), Sp], [Sp])),
     Code("14", Adrp(X8, Address("14a000", BaseOffset("av_sha_size", "830")))),
     Code("18", Ldr(DView, V(0), X8, Dec("2256"))),
     Code("1c", Op(store, [V(0), Sp], [])),
     Code("20", Nullary("ret"))]
  }

  lemma ZeroBehind(text: HexText)
    ensures IsNumeral(text + "0", 16) && Address16(text + "0") == Address16(text) * 16
  {
    assert (text + "0")[..|text|] == text;
  }

  lemma PageText(text: HexText)
    ensures IsNumeral(text + "000", 16) && Address16(text + "000") == Address16(text) * PAGE
  {
    ZeroBehind(text);
    ZeroBehind(text + "0");
    ZeroBehind(text + "0" + "0");
    assert text + "0" + "0" + "0" == text + "000";
  }

  lemma StoringAddresses()
    ensures Address16("10") == 16 && Address16("14") == 20 && Address16("18") == 24 && Address16("1c") == 28 && Address16("20") == 32
    ensures Address16("14a000") % PAGE == 0
  {
    PageText("14a");
    assert "14a" + "000" == "14a000";
  }

  lemma StoringLines(push: string, store: string)
    requires Printable(push) && Printable(store)
    ensures forall i :: 0 <= i < 5 ==> Storing(push, store)[i].Code? && WellFormedInst(Storing(push, store)[i].inst)
  {
    StoringAddresses();
  }

  lemma StoringIsConsecutive(push: string, store: string)
    requires Printable(push) && Printable(store)
    ensures Consecutive(Storing(push, store))
  {
    StoringAddresses();
    StoringLines(push, store);
  }

  lemma StoringIsAccepted(push: string, store: string)
    requires Printable(push) && Printable(store)
    ensures Readable(Storing(push, store)) && Straight(Storing(push, store))
  {
    StoringIsConsecutive(push, store);
    ConsecutiveIsAccepted(Storing(push, store));
  }

  lemma SecondAndThirdPaired(lines: seq<Line>)
    requires |lines| >= 3 && Opens(lines[1], X8) && Uses(lines[2], X8)
    ensures Paired(lines, 1, 2)
  {
    assert MentionsAdrp(lines[1]);
    assert Shown(lines, 1) && Shown(lines, 2);
  }

  predicate OneUse(code: seq<Line>) {
    && |code| >= 3 && MentionsAdrp(code[1]) && code[1].inst.rd == X8
    && Uses(code[2], X8) && UseOf(code[2]).OffsetUse?
    && (forall i :: 0 <= i < |code| && i != 1 ==> !MentionsAdrp(code[i]))
    && (forall i :: 3 <= i < |code| ==> !ReadsFrom(code[i], X8))
  }

  lemma OneUseIsTidy(code: seq<Line>)
    requires Readable(code) && OneUse(code)
    ensures Tidy(code)
  {
    var lines := Refined(code);
    assert lines[1] == Reworded(code[1]) && lines[2] == Reworded(code[2]);
    RewordingKeepsUse(code[2]);
    SecondAndThirdPaired(lines);
    assert TidyPair(code, 1, 2);
  }

  lemma StoringHasOneUse(push: string, store: string)
    ensures OneUse(Storing(push, store))
  {}

  /** Whatever the two stores are decoded to among the ordinary instructions, and in whatever
      state: at the repository's own placement the reassembled code does the same. */
  lemma StoringSurvivesRearranging(push: string, store: string, decode: string -> Kind, holds: (string, int) -> bool, s: State, s': State, n: nat)
    requires Printable(push) && Printable(store)
    requires s.pc == 0 && Related(Included(), map[], s, s') && Runs(Meaning(decode, holds), Linked(), Storing(push, store), s, n)
    ensures Readable(Storing(push, store))
    ensures Reproduced(Meaning(decode, holds), Linked(), Included(), Storing(push, store), s, s', n)
  {
    StoringIsAccepted(push, store);
    StoringHasOneUse(push, store);
    OneUseIsTidy(Storing(push, store));
    ConstantsChangePlaces();
    OrdinaryIsEquivariant(decode, holds, Linked(), Included());
    TidyIsPreserved(Storing(push, store), Meaning(decode, holds), Linked(), Included(), s, s', n);
  }

  // ---- There are such runs ----

  lemma DigitBehind(text: string, c: char, base: nat)
    requires IsNumeral(text, base) && IsDigit(c, base)
    ensures IsNumeral(text + [c], base) && ValueOf(text + [c], base) == ValueOf(text, base) * base + DigitValue(c, base)
  {
    assert (text + [c])[..|text|] == text;
  }

  lemma PageOfConstant()
    ensures Address16("14a000") == 0x14a000
  {
    DigitBehind("1", '4', 16);
    DigitBehind("14", 'a', 16);
    PageText("14a");
    assert "1" + ['4'] == "14" && "14" + ['a'] == "14a" && "14a" + "000" == "14a000";
  }

  lemma OffsetOfConstant()
    ensures ValueOf("2256", 10) == 2256 == FIRST - 0x14a000
  {
    DigitBehind("2", '2', 10);
    DigitBehind("22", '5', 10);
    DigitBehind("225", '6', 10);
    assert "2" + ['2'] == "22" && "22" + ['5'] == "225" && "225" + ['6'] == "2256";
  }

  lemma StoreOne(within: (nat, nat) -> bool, m: Memory, a: nat, v: Value)
    requires a in m
    ensures StoreCells(within, m, a, 0, [v]) == Some(m[a := v])
  {
    assert [v][..0] == [];
  }

  lemma StoreTwo(within: (nat, nat) -> bool, m: Memory, a: nat, disp: int, v: Value, v': Value)
    requires Cell(within, m, a, disp, 0).Some? && Cell(within, m, a, disp, 1).Some?
    ensures StoreCells(within, m, a, disp, [v, v']) ==
            Some(m[Cell(within, m, a, disp, 0).value := v][Cell(within, m, a, disp, 1).value := v'])
  {
    assert [v, v'][..1] == [v] && [v][..0] == [];
    assert StoreCells(within, m, a, disp, [v]) == Some(m[Cell(within, m, a, disp, 0).value := v]);
  }

  /** A stack with room for the push, above address `a`. */
  predicate HasStack(s: State, a: nat) {
    Get(s.regs, Sp) == Ptr(a + 112) && Object(a) == Object(a + 8) == Object(a + 112) && a in s.mem && a + 8 in s.mem
  }

  lemma PushOperation(v: Value, v': Value, m: Memory, a: nat)
    requires Object(a) == Object(a + 8) == Object(a + 112) && a in m && a + 8 in m
    ensures Perform(Store(-112, true), Linked().within, [v, v', Ptr(a + 112)], m) == Some(([Ptr(a)], m[a := v][a + 8 := v']))
  {
    assert [v, v', Ptr(a + 112)][..2] == [v, v'];
    assert Cell(Linked().within, m, a + 112, -112, 0) == Some(a);
    assert Cell(Linked().within, m, a + 112, -112, 1) == Some(a + 8);
    StoreTwo(Linked().within, m, a + 112, -112, v, v');
  }

  lemma SaveOperation(v: Value, m: Memory, a: nat)
    requires a in m
    ensures Perform(Store(0, false), Linked().within, [v, Ptr(a)], m) == Some(([], m[a := v]))
  {
    assert [v, Ptr(a)][..1] == [v];
    StoreOne(Linked().within, m, a, v);
  }

  lemma OpStep(sem: Semantics, w: World, code: seq<Line>, s: State, vs: seq<Value>, outs: seq<Value>, m: Memory)
    requires s.pc < |code| && code[s.pc].Code? && code[s.pc].inst.Op? && |outs| == |code[s.pc].inst.defs| <= 1
    requires vs == GetAll(s.regs, code[s.pc].inst.uses) && sem.op(code[s.pc].inst.text, w.within, vs, s.mem) == Some((outs, m))
    ensures Step(sem, w, code, s) ==
            Next(State(s.pc + 1, if outs == [] then s.regs else s.regs[code[s.pc].inst.defs[0] := outs[0]], m))
  {
    var defs := code[s.pc].inst.defs;
    if outs != [] {
      assert defs[..0] == [] && outs[..0] == [];
      assert SetAll(s.regs, defs, outs) == s.regs[defs[0] := outs[0]];
    }
  }

  lemma PushStep(code: seq<Line>, sem: Semantics, s: State, a: nat, push: string)
    requires s.pc < |code| && code[s.pc].Code? && code[s.pc].inst == Op(push, [V(11), V(10), Sp], [Sp])
    requires forall vs, m :: sem.op(push, Linked().within, vs, m) == Perform(Store(-112, true), Linked().within, vs, m)
    requires HasStack(s, a)
    ensures var o := Step(sem, Linked(), code, s);
            o == Next(State(s.pc + 1, s.regs[Sp := Ptr(a)], s.mem[a := Get(s.regs, V(11))][a + 8 := Get(s.regs, V(10))]))
  {
    var v, v' := Get(s.regs, V(11)), Get(s.regs, V(10));
    PushOperation(v, v', s.mem, a);
    assert GetAll(s.regs, [V(11), V(10), Sp]) == [v, v', Ptr(a + 112)];
    OpStep(sem, Linked(), code, s, [v, v', Ptr(a + 112)], [Ptr(a)], s.mem[a := v][a + 8 := v']);
  }

  lemma SaveStep(code: seq<Line>, sem: Semantics, s: State, a: nat, store: string)
    requires s.pc < |code| && code[s.pc].Code? && code[s.pc].inst == Op(store, [V(0), Sp], [])
    requires forall vs, m :: sem.op(store, Linked().within, vs, m) == Perform(Store(0, false), Linked().within, vs, m)
    requires Get(s.regs, Sp) == Ptr(a) && a in s.mem
    ensures Step(sem, Linked(), code, s) == Next(State(s.pc + 1, s.regs, s.mem[a := Get(s.regs, V(0))]))
  {
    var v := Get(s.regs, V(0));
    SaveOperation(v, s.mem, a);
    assert GetAll(s.regs, [V(0), Sp]) == [v, Ptr(a)];
    OpStep(sem, Linked(), code, s, [v, Ptr(a)], [], s.mem[a := v]);
  }

  lemma LoadConstant(code: seq<Line>, sem: Semantics, s: State)
    requires s.pc + 1 < |code| && code[s.pc].Code? && code[s.pc + 1].Code?
    requires code[s.pc].inst == Adrp(X8, Address("14a000", BaseOffset("av_sha_size", "830")))
    requires code[s.pc + 1].inst == Ldr(DView, V(0), X8, Dec("2256"))
    requires FIRST in s.mem
    ensures var o := Step(sem, Linked(), code, s);
            && o == Next(State(s.pc + 1, s.regs[X8 := Page(0x14a000)], s.mem))
            && Step(sem, Linked(), code, o.s) == Next(State(s.pc + 2, o.s.regs[V(0) := s.mem[FIRST]], s.mem))
  {
    PageOfConstant();
    OffsetOfConstant();
    assert Linked().place("14a000") == 0x14a000;
  }

  lemma OneMoreStep(sem: Semantics, code: seq<Line>, s: State, t: State, n: nat)
    requires Step(sem, Linked(), code, s) == Next(t) && Runs(sem, Linked(), code, t, n)
    ensures Runs(sem, Linked(), code, s, n + 1)
  {}

  lemma ReturnRuns(code: seq<Line>, sem: Semantics, s: State)
    requires s.pc < |code| && code[s.pc].Code? && code[s.pc].inst == Nullary("ret")
    ensures Runs(sem, Linked(), code, s, 1)
  {}

  lemma StoreAndReturn(code: seq<Line>, sem: Semantics, s: State, a: nat, store: string)
    requires s.pc + 1 < |code| && code[s.pc].Code? && code[s.pc].inst == Op(store, [V(0), Sp], [])
    requires code[s.pc + 1].Code? && code[s.pc + 1].inst == Nullary("ret")
    requires forall vs, m :: sem.op(store, Linked().within, vs, m) == Perform(Store(0, false), Linked().within, vs, m)
    requires Get(s.regs, Sp) == Ptr(a) && a in s.mem
    ensures Runs(sem, Linked(), code, s, 2)
  {
    SaveStep(code, sem, s, a, store);
    var t := Step(sem, Linked(), code, s).s;
    ReturnRuns(code, sem, t);
    OneMoreStep(sem, code, s, t, 1);
  }

  /** From any state with a stack and the constant, the listing runs through to its `ret`. */
  lemma StoringRuns(push: string, store: string, decode: string -> Kind, holds: (string, int) -> bool, s: State, a: nat)
    requires decode(push) == Store(-112, true) && decode(store) == Store(0, false)
    requires s.pc == 0 && HasStack(s, a) && FIRST in s.mem
    ensures Runs(Meaning(decode, holds), Linked(), Storing(push, store), s, 5)
  {
    var code, sem := Storing(push, store), Meaning(decode, holds);
    PushStep(code, sem, s, a, push);
    var s1 := Step(sem, Linked(), code, s).s;
    LoadConstant(code, sem, s1);
    var s2 := Step(sem, Linked(), code, s1).s;
    var s3 := Step(sem, Linked(), code, s2).s;
    StoreAndReturn(code, sem, s3, a, store);
    OneMoreStep(sem, code, s2, s3, 2);
    OneMoreStep(sem, code, s1, s2, 3);
    OneMoreStep(sem, code, s, s1, 4);
  }
}
