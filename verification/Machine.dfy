/** A small AArch64 machine that runs both the disassembled code and the reassembled code. The
    two differ in where a label lies and in how a branch operand names its destination. */
module Machine {
  import opened Numerals
  import opened Assembly

  /** A register or cell holds plain data, the bare page an adrp leaves, or a full address. */
  datatype Value = Data(n: int) | Page(base: nat) | Ptr(at: nat)

  type Regs = map<Reg, Value>
  type Memory = map<nat, Value>

  datatype State = State(pc: nat, regs: Regs, mem: Memory)

  /** Everything the modelled instructions leave open, taken as a parameter. An instruction is told
      which displacements of an address stay inside its object; None is a fault. */
  datatype Semantics = Semantics(
    op: (string, (nat, nat) -> bool, seq<Value>, Memory) -> Option<(seq<Value>, Memory)>,
    cond: (string, Value) -> Option<bool>,
    test: (TestKind, Value) -> Option<bool>)

  /** Where labels lie, and which displacements of a full address stay inside its object. */
  datatype World = World(place: string -> nat, within: (nat, nat) -> bool)

  datatype Dest = Inside(pc: nat) | Elsewhere(text: HexText) | External(name: string)

  /** How control leaves the lines; through a register, the value that says where to. */
  datatype How = Left(to: Dest) | Called(to: Dest) | Through(name: string, at: Value) | FellOff

  datatype Outcome = Next(s: State) | Exit(how: How, s: State) | Stuck

  const PAGE := 4096
  const TWO_TO_THE_32 := 0x1_0000_0000
  const LINK := X(30)

  function PageBase(a: nat): nat { a - a % PAGE }

  function Get(regs: Regs, r: Reg): Value {
    if r in regs then regs[r] else Data(0)
  }

  function GetAll(regs: Regs, rs: seq<Reg>): (vs: seq<Value>)
    ensures |vs| == |rs|
  {
    seq(|rs|, i requires 0 <= i < |rs| => Get(regs, rs[i]))
  }

  function SetAll(regs: Regs, rs: seq<Reg>, vs: seq<Value>): Regs
    requires |rs| == |vs|
  {
    if rs == [] then regs
    else SetAll(regs, rs[..|rs| - 1], vs[..|rs| - 1])[rs[|rs| - 1] := vs[|rs| - 1]]
  }

  /** Adding a constant to a value. An address must not leave its object; a bare page has none. */
  function Displace(w: World, v: Value, k: nat): Option<Value> {
    match v
    case Data(n) => Some(Data(n + k))
    case Page(p) => Some(Ptr(p + k))
    case Ptr(a) => if k == 0 || w.within(a, a + k) then Some(Ptr(a + k)) else None
  }

  predicate Narrow(view: View) { view.WView? || view.SView? || view.HView? || view.BView? }

  /** A 32-bit sum; what is left of an address after one is no address. */
  function NarrowSum(v: Value, k: nat): Option<Value> {
    if v.Data? then Some(Data((v.n + k) % TWO_TO_THE_32)) else None
  }

  function Amount(w: World, imm: Imm): nat {
    match imm
    case Hex(h) => ValueOf(h, 16)
    case Dec(d) => ValueOf(d, 10)
    case Lo12(text) => w.place(text) % PAGE
  }

  // ---- Destinations ----

  /** The instruction at a numeric address: how the disassembled code reads `4455a4`. */
  function ByAddress(code: seq<Line>, a: nat, from: nat): (d: Option<nat>)
    requires from <= |code|
    ensures d.Some? ==> from <= d.value < |code| && code[d.value].Code? && Address16(code[d.value].at) == a
    ensures d.None? ==> forall i :: from <= i < |code| && code[i].Code? ==> Address16(code[i].at) != a
    decreases |code| - from
  {
    if from == |code| then None
    else if code[from].Code? && Address16(code[from].at) == a then Some(from)
    else ByAddress(code, a, from + 1)
  }

  /** The line a label text defines: how the assembler reads `L4455a4`. */
  function ByLabel(code: seq<Line>, text: HexText, from: nat): (d: Option<nat>)
    requires from <= |code|
    ensures d.Some? ==> from <= d.value < |code| && code[d.value].Code? && code[d.value].at == text
    ensures d.None? ==> forall i :: from <= i < |code| && code[i].Code? ==> code[i].at != text
    decreases |code| - from
  {
    if from == |code| then None
    else if code[from].Code? && code[from].at == text then Some(from)
    else ByLabel(code, text, from + 1)
  }

  predicate Names(line: Line, sym: string) {
    (line.Head? || line.Def?) && line.sym == sym
  }

  /** The first header line for a symbol. */
  function ByHeader(code: seq<Line>, sym: string, from: nat): (d: Option<nat>)
    requires from <= |code|
    ensures d.Some? ==> from <= d.value < |code| && Names(code[d.value], sym)
    ensures d.None? ==> forall i :: from <= i < |code| ==> !Names(code[i], sym)
    decreases |code| - from
  {
    if from == |code| then None
    else if Names(code[from], sym) then Some(from)
    else ByHeader(code, sym, from + 1)
  }

  /** The instruction that a label on line `i` marks: headers take up no space. */
  function Marked(code: seq<Line>, i: nat): (j: nat)
    requires i <= |code|
    ensures i <= j <= |code| && (j < |code| ==> code[j].Code?) && forall k :: i <= k < j ==> !code[k].Code?
    decreases |code| - i
  {
    if i == |code| || code[i].Code? then i else Marked(code, i + 1)
  }

  /** How a linker reads a symbol: a header of the listing, or something outside. */
  function SymbolDest(code: seq<Line>, sym: string): Dest {
    match ByHeader(code, sym, 0)
    case Some(i) => Inside(Marked(code, i))
    case None => External(sym)
  }

  /** A disassembled branch goes to the address it names, whatever symbol objdump prints behind
      it; only a branch through the PLT is bound by name. */
  function Destination(code: seq<Line>, to: Ref): Dest {
    match to
    case Address(text, via) => (
      if via.Plt? then SymbolDest(code, via.sym)
      else
        match ByAddress(code, Address16(text), 0)
        case Some(i) => Inside(i)
        case None => if via.Plain? then External(via.sym) else Elsewhere(text))
    case Label(text) => (
      match ByLabel(code, text, 0)
      case Some(i) => Inside(i)
      case None => Elsewhere(text))
    case Hole(text) => Elsewhere(text)
    case Symbol(name) => SymbolDest(code, name)
  }

  function Goto(s: State, d: Dest): Outcome {
    if d.Inside? then Next(s.(pc := d.pc)) else Exit(Left(d), s)
  }

  function Branch(s: State, taken: Option<bool>, d: Dest): Outcome {
    match taken
    case Some(true) => Goto(s, d)
    case Some(false) => Next(s.(pc := s.pc + 1))
    case None => Stuck
  }

  // ---- One step ----

  function Write(s: State, r: Reg, v: Value): Outcome {
    Next(State(s.pc + 1, s.regs[r := v], s.mem))
  }

  /** The address or sum an add or a load forms. */
  function Effective(w: World, inst: Inst, regs: Regs): Option<Value> {
    match inst
    case Add(view, _, rn, imm) =>
      if Narrow(view) then NarrowSum(Get(regs, rn), Amount(w, imm)) else Displace(w, Get(regs, rn), Amount(w, imm))
    case Ldr(_, _, rn, imm) => Displace(w, Get(regs, rn), Amount(w, imm))
    case LdrBare(_, _, rn) => Displace(w, Get(regs, rn), 0)
    case _ => None
  }

  /** A load of the cell at the address; less than 64 bits of a cell must be data. */
  function Load(s: State, view: View, rt: Reg, e: Option<Value>): Outcome {
    match e
    case Some(Ptr(a)) =>
      if a in s.mem && (Narrow(view) ==> s.mem[a].Data?) then Write(s, rt, s.mem[a]) else Stuck
    case _ => Stuck
  }

  function Execute(sem: Semantics, w: World, code: seq<Line>, inst: Inst, s: State): Outcome {
    match inst
    case Adrp(rd, page) =>
      if page.Address? || page.Label? then Write(s, rd, Page(PageBase(w.place(page.text)))) else Stuck
    case Adr(rd, at) =>
      if at.Address? || at.Label? then Write(s, rd, Ptr(w.place(at.text))) else Stuck
    case Add(_, rd, _, _) => (
      match Effective(w, inst, s.regs)
      case Some(v) => Write(s, rd, v)
      case None => Stuck)
    case Ldr(view, rt, _, _) => Load(s, view, rt, Effective(w, inst, s.regs))
    case LdrBare(view, rt, _) => Load(s, view, rt, Effective(w, inst, s.regs))
    case Jump(B, to) => Goto(s, Destination(code, to))
    case Jump(Bl, to) => Exit(Called(Destination(code, to)), s)
    case Jump(BCond(c), to) => Branch(s, sem.cond(c, Get(s.regs, Flags)), Destination(code, to))
    case Test(t, reg, to) => Branch(s, sem.test(t, Get(s.regs, reg)), Destination(code, to))
    case Op(text, uses, defs) => (
      match sem.op(text, w.within, GetAll(s.regs, uses), s.mem)
      case Some((outs, mem)) =>
        if |outs| == |defs| then Next(State(s.pc + 1, SetAll(s.regs, defs, outs), mem)) else Stuck
      case None => Stuck)
    case Indirect(name, reg) => Exit(Through(name, Get(s.regs, reg)), s)
    case Nullary(name) =>
      if name == "nop" then Next(s.(pc := s.pc + 1)) else Exit(Through(name, Get(s.regs, LINK)), s)
  }

  function Step(sem: Semantics, w: World, code: seq<Line>, s: State): Outcome {
    if s.pc >= |code| then Exit(FellOff, s)
    else
      match code[s.pc]
      case Code(_, inst) => Execute(sem, w, code, inst, s)
      case _ => Next(s.(pc := s.pc + 1))
  }

  // ---- What an instruction reads and writes ----

  function Reads(inst: Inst): set<Reg> {
    match inst
    case Jump(BCond(_), _) => {Flags}
    case Test(_, reg, _) => {reg}
    case Add(_, _, rn, _) => {rn}
    case Ldr(_, _, rn, _) => {rn}
    case LdrBare(_, _, rn) => {rn}
    case Indirect(_, reg) => {reg}
    case Nullary(name) => if name == "nop" then {} else {LINK}
    case Op(_, uses, _) => set r | r in uses
    case _ => {}
  }

  function Writes(inst: Inst): set<Reg> {
    match inst
    case Adrp(rd, _) => {rd}
    case Adr(rd, _) => {rd}
    case Add(_, rd, _, _) => {rd}
    case Ldr(_, rt, _, _) => {rt}
    case LdrBare(_, rt, _) => {rt}
    case Op(_, _, defs) => set r | r in defs
    case _ => {}
  }
}
