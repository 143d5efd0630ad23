/** post.py does no liveness analysis. On straight-line code this module says exactly what that
    costs: moving the code by any distance is harmless if and only if every adrp of the listing is
    used tidily, a condition that can be read off the listing. */
module Exactness {
  import opened Numerals
  import opened Assembly
  import opened Refine
  import opened Post
  import opened Sed
  import opened Machine
  import opened Simulation
  import opened Preservation

  predicate FallsThrough(inst: Inst) {
    !inst.Jump? && !inst.Test? && MayFallThrough(inst)
  }

  /** Only the last line may leave, through a register: as the `ret` of a function does. */
  predicate Straight(code: seq<Line>) {
    && (forall i :: 0 <= i < |code| && code[i].Code? ==>
          FallsThrough(code[i].inst) || (i == |code| - 1 && (code[i].inst.Nullary? || code[i].inst.Indirect?)))
    && (forall i :: 0 <= i < |code| ==> FallsToNext(code, i))
  }

  lemma StraightIsWellFormed(code: seq<Line>)
    requires Readable(code) && Straight(code)
    ensures WellFormed(code)
  {}

  /** The registers that hold pages when line `i` is reached from the top. */
  function FlowAt(code: seq<Line>, i: nat): Flow
    requires Readable(code) && i <= |code|
  {
    if i == 0 then map[] else After(code, i - 1, FlowAt(code, i - 1))
  }

  /** The forward scan of a listing finds no fault: each line is looked at once. */
  predicate Treated(code: seq<Line>)
    requires Readable(code)
  {
    forall i :: 0 <= i < |code| ==> LineTreated(code, i)
  }

  predicate LineTreated(code: seq<Line>, i: nat)
    requires Readable(code) && i < |code|
  {
    LineOk(code, {}, i, FlowAt(code, i))
  }

  // ---- The world, moved as a whole ----

  function Shifted(w: World, k: nat): World {
    World(t => if IsNumeral(t, 16) then ValueOf(t, 16) + k else 0,
          (a, b) => a >= k && b >= k && w.within(a - k, b - k))
  }

  function MovedValue(v: Value, k: nat): Value {
    match v
    case Data(_) => v
    case Page(p) => Page(p + k)
    case Ptr(a) => Ptr(a + k)
  }

  /** Memory `m'` has the moved cells of `m` and no others. */
  predicate IsMoved(m: Memory, m': Memory, k: nat) {
    && (forall a {:trigger m[a]} :: a in m ==> a + k in m' && m'[a + k] == MovedValue(m[a], k))
    && (forall b {:trigger m'[b]} :: b in m' ==> b >= k && b - k in m)
  }

  lemma MemoryCanMove(m: Memory, k: nat)
    ensures exists m' :: IsMoved(m, m', k)
  {
    var cells := set a | a in m :: a + k;
    var m' := map b | b in cells :: MovedValue(m[b - k], k);
    assert IsMoved(m, m', k);
  }

  ghost function MovedMemory(m: Memory, k: nat): (m': Memory)
    ensures IsMoved(m, m', k)
  {
    MemoryCanMove(m, k);
    var m' :| IsMoved(m, m', k);
    m'
  }

  function MovedRegs(regs: Regs, k: nat): Regs {
    map r | r in regs :: MovedValue(regs[r], k)
  }

  ghost function Moved(s: State, k: nat): State {
    State(s.pc, MovedRegs(s.regs, k), MovedMemory(s.mem, k))
  }

  predicate NoPages(s: State) {
    && (forall r :: r in s.regs ==> !s.regs[r].Page?)
    && (forall a :: a in s.mem ==> !s.mem[a].Page?)
  }

  ghost predicate ShiftsBy(w': World, k: nat) {
    forall a: nat :: Loc(w', a) == a + k
  }

  lemma ShiftMovesAll(w: World, k: nat)
    ensures ShiftsBy(Shifted(w, k), k)
    ensures MovesObjects(w, Shifted(w, k))
  {}

  lemma MovedValueIsClean(w': World, k: nat, v: Value)
    requires ShiftsBy(w', k) && !v.Page?
    ensures Clean(w', v, MovedValue(v, k))
  {}

  lemma MovedCellIsClean(w': World, m: Memory, m': Memory, k: nat, a: nat)
    requires ShiftsBy(w', k) && a in m && !m[a].Page?
    requires a + k in m' && m'[a + k] == MovedValue(m[a], k)
    ensures Loc(w', a) in m' && Clean(w', m[a], m'[Loc(w', a)])
  {
    var b := Loc(w', a);
    assert b == a + k;
    MovedValueIsClean(w', k, m[a]);
  }

  lemma ShiftedMemoryIsClean(w': World, m: Memory, m': Memory, k: nat)
    requires ShiftsBy(w', k) && forall a :: a in m ==> !m[a].Page?
    requires IsMoved(m, m', k)
    ensures CorrMem(w', m, m')
  {
    forall a | a in m ensures Loc(w', a) in m' && Clean(w', m[a], m'[Loc(w', a)]) {
      MovedCellIsClean(w', m, m', k, a);
    }
  }

  lemma MovedIsRelated(w': World, s: State, k: nat)
    requires ShiftsBy(w', k) && NoPages(s)
    ensures Related(w', map[], s, Moved(s, k))
  {
    ShiftedMemoryIsClean(w', s.mem, MovedMemory(s.mem, k), k);
    var regs' := MovedRegs(s.regs, k);
    forall r: Reg ensures Clean(w', Get(s.regs, r), Get(regs', r)) {
      MovedValueIsClean(w', k, Get(s.regs, r));
    }
  }

  /** What is taken as given: a run of the whole straight-line listing, at its link address. */
  ghost predicate Setting(code: seq<Line>, sem: Semantics, w: World) {
    && Readable(code) && Straight(code) && Original(w)
    && forall k: nat :: Equivariant(sem, w, Shifted(w, k))
  }

  // ---- If the scan finds no fault, any shift is harmless ----

  lemma StraightStep(code: seq<Line>, sem: Semantics, w: World, s: State)
    requires Straight(code) && s.pc < |code| && Step(sem, w, code, s) != Stuck
    ensures var o := Step(sem, w, code, s); if o.Next? then o.s.pc == s.pc + 1 else s.pc == |code| - 1
  {}

  lemma {:induction false} TreatedPathIsOk(code: seq<Line>, sem: Semantics, w: World, s: State, n: nat)
    requires Readable(code) && Straight(code) && Treated(code)
    requires s.pc <= |code| && Runs(sem, w, code, s, n)
    ensures PathOk(sem, w, code, {}, FlowAt(code, s.pc), s, n)
    decreases n
  {
    if n > 0 && s.pc < |code| {
      StraightStep(code, sem, w, s);
      assert LineTreated(code, s.pc);
      var o := Step(sem, w, code, s);
      if o.Next? {
        TreatedPathIsOk(code, sem, w, o.s, n - 1);
      }
    }
  }

  // ---- If it finds one, every shift that is no multiple of the page size shows it ----

  predicate WritesTo(line: Line, r: Reg) { line.Code? && r in Writes(line.inst) }

  predicate ReadsFrom(line: Line, r: Reg) { line.Code? && r in Reads(line.inst) }

  predicate NoWrite(code: seq<Line>, r: Reg, a: nat, i: nat)
    requires i <= |code|
  {
    forall k :: a < k < i ==> !WritesTo(code[k], r)
  }

  /** The adrp on line `a` has set `r`, and nothing has since. */
  predicate LiveAdrp(code: seq<Line>, r: Reg, a: nat, i: nat)
    requires i <= |code|
  {
    a < i && code[a].Code? && code[a].inst.Adrp? && code[a].inst.rd == r && NoWrite(code, r, a, i)
  }

  /** The last line before `i` that writes `r`. */
  function LastWrite(code: seq<Line>, r: Reg, i: nat): (a: Option<nat>)
    requires i <= |code|
    ensures a.Some? ==> a.value < i && WritesTo(code[a.value], r) && NoWrite(code, r, a.value, i)
    ensures a.None? ==> forall k :: 0 <= k < i ==> !WritesTo(code[k], r)
  {
    if i == 0 then None else if WritesTo(code[i - 1], r) then Some(i - 1) else LastWrite(code, r, i - 1)
  }

  function Holding(f: Flow, r: Reg): Option<Held> { if r in f then Some(f[r]) else None }

  /** The page that line `i` leaves in the register it writes. */
  function PageSet(code: seq<Line>, i: nat): Option<Held>
    requires Readable(code) && i < |code|
  {
    var p := AdrpPair(CodePairs(code), i);
    if MentionsAdrp(code[i]) && p.Some? then Some(HeldBy(code, p.value)) else None
  }

  lemma AfterLookup(code: seq<Line>, i: nat, f: Flow, r: Reg)
    requires Readable(code) && i < |code|
    ensures Holding(After(code, i, f), r) == if WritesTo(code[i], r) then PageSet(code, i) else Holding(f, r)
  {}

  /** The page the last line that wrote `r` left there. */
  function LastPage(code: seq<Line>, r: Reg, i: nat): Option<Held>
    requires Readable(code) && i <= |code|
  {
    var a := LastWrite(code, r, i);
    if a.Some? then PageSet(code, a.value) else None
  }

  lemma LastPageStep(code: seq<Line>, r: Reg, i: nat)
    requires Readable(code) && i < |code|
    ensures LastPage(code, r, i + 1) == if WritesTo(code[i], r) then PageSet(code, i) else LastPage(code, r, i)
  {}

  lemma FlowStep(code: seq<Line>, r: Reg, i: nat)
    requires Readable(code) && i < |code|
    ensures Holding(FlowAt(code, i + 1), r) == if WritesTo(code[i], r) then PageSet(code, i) else Holding(FlowAt(code, i), r)
  {
    AfterLookup(code, i, FlowAt(code, i), r);
  }

  /** What the scan knows of a register is what the last line that wrote it left there. */
  lemma {:induction false} FlowIsLastWrite(code: seq<Line>, i: nat, r: Reg)
    requires Readable(code) && i <= |code|
    ensures Holding(FlowAt(code, i), r) == LastPage(code, r, i)
    decreases i
  {
    if i > 0 {
      FlowIsLastWrite(code, i - 1, r);
      FlowStep(code, r, i - 1);
      LastPageStep(code, r, i - 1);
    }
  }

  /** A page the scan knows of comes from a live adrp. */
  lemma FlowComesFromLiveAdrp(code: seq<Line>, i: nat, r: Reg) returns (a: nat)
    requires Readable(code) && i <= |code| && r in FlowAt(code, i)
    ensures LiveAdrp(code, r, a, i)
    ensures AdrpPair(CodePairs(code), a).Some? && FlowAt(code, i)[r] == HeldBy(code, AdrpPair(CodePairs(code), a).value)
  {
    FlowIsLastWrite(code, i, r);
    a := LastWrite(code, r, i).value;
  }

  lemma LastWriteOfLiveAdrp(code: seq<Line>, r: Reg, a: nat, i: nat)
    requires i <= |code| && LiveAdrp(code, r, a, i)
    ensures LastWrite(code, r, i) == Some(a)
  {
    assert WritesTo(code[a], r);
  }

  /** And the page of a live adrp that has a pair is known to the scan. */
  lemma LiveAdrpIsInFlow(code: seq<Line>, i: nat, r: Reg, a: nat)
    requires Readable(code) && i <= |code| && LiveAdrp(code, r, a, i) && AdrpPair(CodePairs(code), a).Some?
    ensures r in FlowAt(code, i)
  {
    FlowIsLastWrite(code, i, r);
    LastWriteOfLiveAdrp(code, r, a, i);
  }

  lemma HeldPagesAreAligned(code: seq<Line>, i: nat, r: Reg)
    requires Readable(code) && i <= |code| && r in FlowAt(code, i)
    ensures FlowAt(code, i)[r].page % PAGE == 0
  {
    var a := FlowComesFromLiveAdrp(code, i, r);
    LookupSpec(CodePairs(code), a);
  }

  /** A pair whose use reads the page of a live adrp begins at that adrp. */
  lemma PairBeginsAtLiveAdrp(code: seq<Line>, q: Pair, r: Reg, a: nat)
    requires Readable(code) && q in CodePairs(code) && q.u < |code|
    requires Uses(code[q.u], r) && LiveAdrp(code, r, a, q.u)
    ensures a == q.a
  {
    var lines := Refined(code);
    PairsAreSeparate(lines);
    PairOfLine(code, q);
    assert lines[q.a] == Reworded(code[q.a]) && lines[a] == Reworded(code[a]);
    assert !WritesTo(code[q.a], r) || q.a <= a;
    assert !Opens(lines[a], r) || a <= q.a;
  }

  lemma OneAdrpOnePair(lines: seq<Line>, p: Pair, q: Pair)
    requires p in Pairs(lines) && q in Pairs(lines) && p.a == q.a
    ensures p == q
  {
    PairsAreSeparate(lines);
    PairedOnce(lines, p.a, p.u, q.a, q.u);
  }

  /** On straight-line code the only page a paired use can find is its own. */
  lemma PairedUseFindsItsPage(code: seq<Line>, i: nat)
    requires Readable(code) && i < |code| && PairedUse(code, i)
    requires code[i].inst.rn in FlowAt(code, i)
    ensures FlowAt(code, i)[code[i].inst.rn] == HeldBy(code, UsePair(CodePairs(code), i).value)
  {
    var pairs := CodePairs(code);
    var a := FlowComesFromLiveAdrp(code, i, code[i].inst.rn);
    LookupSpec(pairs, i);
    LookupSpec(pairs, a);
    PairOfLine(code, UsePair(pairs, i).value);
    PairBeginsAtLiveAdrp(code, UsePair(pairs, i).value, code[i].inst.rn, a);
    OneAdrpOnePair(Refined(code), UsePair(pairs, i).value, AdrpPair(pairs, a).value);
  }

  lemma PagesDoNotShift(p: nat, a: nat, k: nat)
    requires p % PAGE == 0 && k % PAGE != 0
    ensures PageBase(a) != p + k
  {}

  lemma StrayPageIsNoticed(w: World, w': World, k: nat, h: Held, v: Value, v': Value, d: nat)
    requires k % PAGE != 0 && h.page % PAGE == 0 && ShiftsBy(w', k) && HoldsPage(w', h, v, v')
    ensures !Corr(w', v, v')
    ensures var e, e' := Displace(w, v, d), Displace(w', v', d);
            e.Some? && e'.Some? && !Corr(w', e.value, e'.value)
  {
    PagesDoNotShift(h.page, Loc(w', h.target), k);
    assert Loc(w', h.page) == h.page + k && Loc(w', h.page + d) == h.page + d + k;
  }

  /** The low twelve bits of address `a` shifted by `k`. */
  function LowBits(a: nat, k: nat): nat { (a + k) % PAGE }

  lemma ClobberedUseIsNoticed(w: World, w': World, k: nat, v: Value, v': Value, d: nat, t: nat)
    requires ShiftsBy(w', k)
    requires Clean(w', v, v') && Displace(w, v, d).Some?
    requires LowBits(t, k) != d
    ensures var e' := Displace(w', v', Amount(w', Lo12(PrintHex(t))));
            e'.Some? ==> !Corr(w', Displace(w, v, d).value, e'.value)
  {
    assert Loc(w', t) == t + k;
  }

  /** The new run has taken in corresponding operands, and goes on where the old one does. */
  ghost predicate InStep(sem: Semantics, w: World, w': World, code: seq<Line>, s: State, s': State)
    requires Readable(code)
  {
    AgreeHere(w, w', code, s, s') && (Step(sem, w, code, s).Next? ==> Step(sem, w', Translated(code), s').Next?)
  }

  lemma UnpairedAdrpIsNoticed(code: seq<Line>, sem: Semantics, w: World, w': World, s: State, s': State)
    requires Readable(code) && s.pc < |code| && code[s.pc].Code? && code[s.pc].inst.Adrp?
    requires AdrpPair(CodePairs(code), s.pc).None? && Step(sem, w, code, s) != Stuck
    ensures !InStep(sem, w, w', code, s, s')
  {
    TranslatedLine(code, s.pc);
  }

  lemma StrayReadDisagrees(w: World, w': World, k: nat, line: Line, line': Line, h: Held, regs: Regs, regs': Regs, r: Reg)
    requires k % PAGE != 0 && h.page % PAGE == 0 && ShiftsBy(w', k) && HoldsPage(w', h, Get(regs, r), Get(regs', r))
    requires line.Code? && line'.Code? && WellFormedInst(line.inst) && r in Reads(line.inst)
    requires FormsAddress(line.inst) ==> line'.inst == line.inst
    ensures !Agree(w, w', line, line', regs, regs')
  {
    var inst := line.inst;
    StrayPageIsNoticed(w, w', k, h, Get(regs, r), Get(regs', r), if inst.Add? || inst.Ldr? then Amount(w, inst.imm) else 0);
    if FormsAddress(inst) {
      assert r == inst.rn;
    }
  }

  lemma StrayReadAt(code: seq<Line>, w: World, w': World, k: nat, h: Held, s: State, s': State, r: Reg)
    requires Readable(code) && s.pc < |code| && code[s.pc].Code?
    requires k % PAGE != 0 && ShiftsBy(w', k) && h.page % PAGE == 0 && HoldsPage(w', h, Get(s.regs, r), Get(s'.regs, r))
    requires !code[s.pc].inst.Adrp? && !PairedUse(code, s.pc) && r in Reads(code[s.pc].inst)
    ensures !AgreeHere(w, w', code, s, s')
  {
    TranslatedLine(code, s.pc);
    StrayReadDisagrees(w, w', k, code[s.pc], Translated(code)[s.pc], h, s.regs, s'.regs, r);
  }

  lemma StrayReadIsNoticed(code: seq<Line>, w: World, w': World, k: nat, f: Flow, s: State, s': State)
    requires Readable(code) && s.pc < |code| && code[s.pc].Code? && f == FlowAt(code, s.pc)
    requires k % PAGE != 0 && ShiftsBy(w', k) && RegsRelated(w', f, s.regs, s'.regs)
    requires !code[s.pc].inst.Adrp? && !PairedUse(code, s.pc) && !QuietRead(code[s.pc].inst, {}, f)
    ensures !AgreeHere(w, w', code, s, s')
  {
    var r := StrayRead(code[s.pc].inst, f);
    HeldPagesAreAligned(code, s.pc, r);
    StrayReadAt(code, w, w', k, f[r], s, s', r);
  }

  lemma StrayRead(inst: Inst, f: Flow) returns (r: Reg)
    requires !QuietRead(inst, {}, f)
    ensures r in Reads(inst) && r in f
  {
    if inst.LdrBare? && inst.rn in f {
      r := inst.rn;
    } else {
      r :| r in Reads(inst) && r in f;
    }
  }

  lemma ClobberDisagrees(w: World, w': World, k: nat, line: Line, line': Line, t: nat, regs: Regs, regs': Regs)
    requires ShiftsBy(w', k) && line.Code? && (line.inst.Add? || line.inst.Ldr?)
    requires line'.Code? && line'.inst == line.inst.(imm := Lo12(PrintHex(t)))
    requires Clean(w', Get(regs, line.inst.rn), Get(regs', line.inst.rn))
    requires !Narrow(line.inst.view)
    requires Effective(w, line.inst, regs).Some? && LowBits(t, k) != Amount(w, line.inst.imm)
    ensures !Agree(w, w', line, line', regs, regs')
  {
    ClobberedUseIsNoticed(w, w', k, Get(regs, line.inst.rn), Get(regs', line.inst.rn), Amount(w, line.inst.imm), t);
  }

  lemma AddressIsFormed(code: seq<Line>, sem: Semantics, w: World, s: State)
    requires s.pc < |code| && code[s.pc].Code? && FormsAddress(code[s.pc].inst)
    requires Step(sem, w, code, s) != Stuck
    ensures Effective(w, code[s.pc].inst, s.regs).Some?
  {}

  lemma RetargetedUse(code: seq<Line>, i: nat)
    requires Readable(code) && i < |code| && PairedUse(code, i)
    ensures Translated(code)[i].Code?
    ensures Translated(code)[i].inst == code[i].inst.(imm := Lo12(PrintHex(UsePair(CodePairs(code), i).value.target)))
    ensures !Narrow(code[i].inst.view)
  {
    TranslatedLine(code, i);
    LookupSpec(CodePairs(code), i);
    PairOfLine(code, UsePair(CodePairs(code), i).value);
  }

  lemma ClobberIsNoticed(code: seq<Line>, sem: Semantics, w: World, w': World, k: nat, t: nat, f: Flow, s: State, s': State)
    requires Readable(code) && s.pc < |code| && PairedUse(code, s.pc) && code[s.pc].inst.rn !in f
    requires ShiftsBy(w', k) && RegsRelated(w', f, s.regs, s'.regs)
    requires Step(sem, w, code, s) != Stuck
    requires t == UsePair(CodePairs(code), s.pc).value.target
    requires LowBits(t, k) != Amount(w, code[s.pc].inst.imm)
    ensures !AgreeHere(w, w', code, s, s')
  {
    RetargetedUse(code, s.pc);
    AddressIsFormed(code, sem, w, s);
    ClobberDisagrees(w, w', k, code[s.pc], Translated(code)[s.pc], t, s.regs, s'.regs);
  }

  lemma BadPairedUse(code: seq<Line>, i: nat)
    requires Readable(code) && i < |code| && PairedUse(code, i) && !LineTreated(code, i)
    ensures code[i].inst.rn !in FlowAt(code, i)
  {
    if code[i].inst.rn in FlowAt(code, i) {
      PairedUseFindsItsPage(code, i);
    }
  }

  /** Away from a multiple of the page size the target's low bits are off the offset in the line. */
  lemma OffsetIsOff(code: seq<Line>, w: World, k: nat, i: nat)
    requires Readable(code) && i < |code| && PairedUse(code, i) && k % PAGE != 0
    ensures LowBits(UsePair(CodePairs(code), i).value.target, k) != Amount(w, code[i].inst.imm)
  {
    LookupSpec(CodePairs(code), i);
    var q := UsePair(CodePairs(code), i).value;
    PairOfLine(code, q);
    SumIsOff(PageAt(code, q), Displacement(code[i]), k);
  }

  lemma SumIsOff(p: nat, d: nat, k: nat)
    requires p % PAGE == 0 && k % PAGE != 0
    ensures LowBits(p + d, k) != d
  {}

  lemma BadUseIsNoticed(code: seq<Line>, sem: Semantics, w: World, w': World, k: nat, s: State, s': State)
    requires Readable(code) && s.pc < |code| && PairedUse(code, s.pc)
    requires !LineTreated(code, s.pc) && k % PAGE != 0
    requires ShiftsBy(w', k) && RegsRelated(w', FlowAt(code, s.pc), s.regs, s'.regs) && Step(sem, w, code, s) != Stuck
    ensures !AgreeHere(w, w', code, s, s')
  {
    BadPairedUse(code, s.pc);
    OffsetIsOff(code, w, k, s.pc);
    ClobberIsNoticed(code, sem, w, w', k, UsePair(CodePairs(code), s.pc).value.target, FlowAt(code, s.pc), s, s');
  }

  lemma BadReadIsNoticed(code: seq<Line>, w: World, w': World, k: nat, s: State, s': State)
    requires Readable(code) && s.pc < |code| && !LineTreated(code, s.pc)
    requires code[s.pc].Code? && !code[s.pc].inst.Adrp? && !PairedUse(code, s.pc)
    requires k % PAGE != 0 && ShiftsBy(w', k) && RegsRelated(w', FlowAt(code, s.pc), s.regs, s'.regs)
    ensures !AgreeHere(w, w', code, s, s')
  {
    StrayReadIsNoticed(code, w, w', k, FlowAt(code, s.pc), s, s');
  }

  lemma BadLineIsNoticed(code: seq<Line>, sem: Semantics, w: World, w': World, k: nat, s: State, s': State)
    requires Readable(code) && s.pc < |code| && !LineTreated(code, s.pc) && k % PAGE != 0
    requires ShiftsBy(w', k) && Related(w', FlowAt(code, s.pc), s, s') && Step(sem, w, code, s) != Stuck
    ensures !InStep(sem, w, w', code, s, s')
  {
    if code[s.pc].inst.Adrp? {
      UnpairedAdrpIsNoticed(code, sem, w, w', s, s');
    } else if PairedUse(code, s.pc) {
      BadUseIsNoticed(code, sem, w, w', k, s, s');
    } else {
      BadReadIsNoticed(code, w, w', k, s, s');
    }
  }

  lemma DivergenceShows(code: seq<Line>, sem: Semantics, w: World, w': World, s: State, s': State, n: nat)
    requires Readable(code) && n > 0 && Step(sem, w, code, s) != Stuck
    requires InStep(sem, w, w', code, s, s') ==>
               && Step(sem, w, code, s).Next?
               && !Reproduced(sem, w, w', code, Step(sem, w, code, s).s, Step(sem, w', Translated(code), s').s, n - 1)
    ensures !Reproduced(sem, w, w', code, s, s', n)
  {}

  lemma StraightStepIsReproduced(code: seq<Line>, sem: Semantics, w: World, w': World, s: State, s': State)
    requires Readable(code) && Straight(code) && Placement(sem, w, w')
    requires s.pc < |code| - 1 && Step(sem, w, code, s) != Stuck
    requires Related(w', FlowAt(code, s.pc), s, s') && LineTreated(code, s.pc)
    ensures var o, o' := Step(sem, w, code, s), Step(sem, w', Translated(code), s');
            o.Next? && o'.Next? && o.s.pc == s.pc + 1 && Related(w', FlowAt(code, o.s.pc), o.s, o'.s)
  {
    StraightStep(code, sem, w, s);
    StraightIsWellFormed(code);
    StepIsReproduced(code, sem, w, w', {}, FlowAt(code, s.pc), s, s');
  }

  lemma {:induction false} UntreatedRunDiverges(code: seq<Line>, sem: Semantics, w: World, w': World, k: nat, s: State, s': State, n: nat, bad: nat)
    requires Readable(code) && Straight(code) && Placement(sem, w, w') && ShiftsBy(w', k)
    requires s.pc <= bad < |code| && bad < s.pc + n && Runs(sem, w, code, s, n)
    requires Related(w', FlowAt(code, s.pc), s, s')
    requires !LineTreated(code, bad) && k % PAGE != 0
    requires forall i :: s.pc <= i < bad ==> LineTreated(code, i)
    ensures !Reproduced(sem, w, w', code, s, s', n)
    decreases n
  {
    if s.pc == bad {
      BadLineIsNoticed(code, sem, w, w', k, s, s');
    } else {
      StraightStepIsReproduced(code, sem, w, w', s, s');
      UntreatedRunDiverges(code, sem, w, w', k, Step(sem, w, code, s).s, Step(sem, w', Translated(code), s').s, n - 1, bad);
    }
    DivergenceShows(code, sem, w, w', s, s', n);
  }

  lemma {:induction false} FirstUntreated(code: seq<Line>, i: nat) returns (bad: nat)
    requires Readable(code) && i < |code| && !LineTreated(code, i)
    ensures bad <= i && !LineTreated(code, bad) && forall j :: 0 <= j < bad ==> LineTreated(code, j)
  {
    bad := i;
    if j :| 0 <= j < i && !LineTreated(code, j) {
      bad := FirstUntreated(code, j);
    }
  }

  lemma UntreatedIsExposed(code: seq<Line>, sem: Semantics, w: World, s: State, k: nat)
    requires Setting(code, sem, w) && NoPages(s) && s.pc == 0 && Runs(sem, w, code, s, |code| + 1)
    requires !Treated(code) && k % PAGE != 0
    ensures !Reproduced(sem, w, Shifted(w, k), code, s, Moved(s, k), |code| + 1)
  {
    var i :| 0 <= i < |code| && !LineTreated(code, i);
    var bad := FirstUntreated(code, i);
    ShiftMovesAll(w, k);
    MovedIsRelated(Shifted(w, k), s, k);
    UntreatedRunDiverges(code, sem, w, Shifted(w, k), k, s, Moved(s, k), |code| + 1, bad);
  }

  lemma TreatedIsReproduced(code: seq<Line>, sem: Semantics, w: World, s: State, k: nat)
    requires Setting(code, sem, w) && NoPages(s) && s.pc == 0 && Runs(sem, w, code, s, |code| + 1)
    requires Treated(code)
    ensures Reproduced(sem, w, Shifted(w, k), code, s, Moved(s, k), |code| + 1)
  {
    StraightIsWellFormed(code);
    TreatedPathIsOk(code, sem, w, s, |code| + 1);
    ShiftMovesAll(w, k);
    MovedIsRelated(Shifted(w, k), s, k);
    PathIsReproduced(code, sem, w, Shifted(w, k), {}, map[], s, Moved(s, k), |code| + 1);
  }

  /** A run of a straight-line listing, with its exit, is reproduced wherever the code is moved if
      and only if the forward scan finds no fault. */
  lemma {:induction false} ReproducedExactlyWhenTreated(code: seq<Line>, sem: Semantics, w: World, s: State)
    requires Setting(code, sem, w) && NoPages(s) && s.pc == 0 && Runs(sem, w, code, s, |code| + 1)
    ensures (forall k: nat :: Reproduced(sem, w, Shifted(w, k), code, s, Moved(s, k), |code| + 1)) <==> Treated(code)
  {
    if Treated(code) {
      forall k: nat ensures Reproduced(sem, w, Shifted(w, k), code, s, Moved(s, k), |code| + 1) {
        TreatedIsReproduced(code, sem, w, s, k);
      }
    } else {
      UntreatedIsExposed(code, sem, w, s, 16);
    }
  }

  // ---- What the scan looks for, read off the listing ----

  /** The adrp on line `a` is paired with line `u`; an offset use still finds the page, and
      nothing but that use reads the page before the register is written again. */
  predicate TidyPair(code: seq<Line>, a: nat, u: nat)
    requires Readable(code) && a < |code| && code[a].Code? && code[a].inst.Adrp?
  {
    var r := code[a].inst.rd;
    && Paired(Refined(code), a, u)
    && (UseOf(code[u]).OffsetUse? ==> NoWrite(code, r, a, u))
    && forall k :: a < k < |code| && ReadsFrom(code[k], r) && NoWrite(code, r, a, k) ==> k == u && UseOf(code[u]).OffsetUse?
  }

  /** Every adrp of the listing is used tidily. */
  predicate Tidy(code: seq<Line>)
    requires Readable(code)
  {
    forall a :: 0 <= a < |code| && code[a].Code? && code[a].inst.Adrp? ==> TidyAdrp(code, a)
  }

  predicate TidyAdrp(code: seq<Line>, a: nat)
    requires Readable(code) && a < |code| && code[a].Code? && code[a].inst.Adrp?
  {
    exists u :: a < u < |code| && TidyPair(code, a, u)
  }

  lemma AdrpPairIsPaired(code: seq<Line>, a: nat)
    requires Readable(code)
    ensures AdrpPair(CodePairs(code), a).Some? ==>
              var p := AdrpPair(CodePairs(code), a).value; p in CodePairs(code) && p.a == a && Paired(Refined(code), a, p.u)
  {
    LookupSpec(CodePairs(code), a);
    PairsAreSeparate(Refined(code));
  }

  lemma PairedIsFound(code: seq<Line>, a: nat, u: nat)
    requires Readable(code) && Paired(Refined(code), a, u)
    ensures AdrpPair(CodePairs(code), a).Some? && AdrpPair(CodePairs(code), a) == UsePair(CodePairs(code), u)
    ensures AdrpPair(CodePairs(code), a).value in CodePairs(code)
    ensures AdrpPair(CodePairs(code), a).value.a == a && AdrpPair(CodePairs(code), a).value.u == u
  {
    var lines, pairs := Refined(code), CodePairs(code);
    PairsExactly(lines);
    assert HasPair(pairs, a, u);
    var k :| 0 <= k < |pairs| && pairs[k].a == a && pairs[k].u == u;
    assert pairs[k] in pairs;
    LookupSpec(pairs, a);
    LookupSpec(pairs, u);
    PairsAreSeparate(lines);
    OneAdrpOnePair(lines, AdrpPair(pairs, a).value, pairs[k]);
    PairedOnce(lines, UsePair(pairs, u).value.a, u, a, u);
    OneAdrpOnePair(lines, UsePair(pairs, u).value, pairs[k]);
  }

  lemma PairedUseOffset(code: seq<Line>, i: nat)
    requires Readable(code) && i < |code|
    ensures PairedUse(code, i) <==> UsePair(CodePairs(code), i).Some? && UseOf(code[i]).OffsetUse?
    ensures UsePair(CodePairs(code), i).Some? ==>
              var q := UsePair(CodePairs(code), i).value;
              q in CodePairs(code) && q.u == i && q.a < i && Paired(Refined(code), q.a, i) && Uses(code[i], code[q.a].inst.rd)
  {
    LookupSpec(CodePairs(code), i);
    if UsePair(CodePairs(code), i).Some? {
      PairOfLine(code, UsePair(CodePairs(code), i).value);
      PairsAreSeparate(Refined(code));
      assert Uses(code[i], code[UsePair(CodePairs(code), i).value.a].inst.rd);
    }
  }

  lemma ReadsOfUse(line: Line)
    ensures UseOf(line) != NoUse ==> Reads(line.inst) == {UseOf(line).base}
    ensures line.Code? && (line.inst.Add? || line.inst.Ldr?) && UseOf(line) != NoUse ==> UseOf(line).base == line.inst.rn
  {}

  lemma QuietWhenNoneHeld(inst: Inst, f: Flow)
    ensures QuietRead(inst, {}, f) <==> forall r :: r in Reads(inst) ==> r !in f
  {}

  lemma TidyUseIsTreated(code: seq<Line>, i: nat)
    requires Readable(code) && Tidy(code) && i < |code| && PairedUse(code, i)
    ensures LineTreated(code, i)
  {
    PairedUseOffset(code, i);
    var q := UsePair(CodePairs(code), i).value;
    PairOfLine(code, q);
    assert TidyAdrp(code, q.a);
    var u :| q.a < u < |code| && TidyPair(code, q.a, u);
    PairedOnce(Refined(code), q.a, u, q.a, i);
    PairedIsFound(code, q.a, i);
    LiveAdrpIsInFlow(code, i, code[q.a].inst.rd, q.a);
    PairedUseFindsItsPage(code, i);
  }

  lemma TidyReadIsTreated(code: seq<Line>, i: nat, r: Reg)
    requires Readable(code) && Tidy(code) && i < |code| && !PairedUse(code, i) && ReadsFrom(code[i], r)
    ensures r !in FlowAt(code, i)
  {
    if r in FlowAt(code, i) {
      var a := FlowComesFromLiveAdrp(code, i, r);
      assert TidyAdrp(code, a);
      var u :| a < u < |code| && TidyPair(code, a, u);
      assert u == i;
      PairedIsFound(code, a, i);
      PairedUseOffset(code, i);
    }
  }

  lemma TidyIsTreated(code: seq<Line>)
    requires Readable(code) && Tidy(code)
    ensures Treated(code)
  {
    forall i | 0 <= i < |code| ensures LineTreated(code, i) {
      if code[i].Code? {
        if code[i].inst.Adrp? {
          assert TidyAdrp(code, i);
          var u :| i < u < |code| && TidyPair(code, i, u);
          PairedIsFound(code, i, u);
        } else if PairedUse(code, i) {
          TidyUseIsTreated(code, i);
        } else {
          forall r | r in Reads(code[i].inst) ensures r !in FlowAt(code, i) {
            TidyReadIsTreated(code, i, r);
          }
          QuietWhenNoneHeld(code[i].inst, FlowAt(code, i));
        }
      }
    }
  }

  lemma TreatedReaderIsUse(code: seq<Line>, a: nat, r: Reg, k: nat)
    requires Readable(code) && k < |code| && LineTreated(code, k) && ReadsFrom(code[k], r)
    requires LiveAdrp(code, r, a, k) && AdrpPair(CodePairs(code), a).Some?
    ensures k == AdrpPair(CodePairs(code), a).value.u && UseOf(code[k]).OffsetUse?
  {
    LiveAdrpIsInFlow(code, k, r, a);
    QuietWhenNoneHeld(code[k].inst, FlowAt(code, k));
    assert PairedUse(code, k);
    PairedUseOffset(code, k);
    ReadsOfUse(code[k]);
    PairBeginsAtLiveAdrp(code, UsePair(CodePairs(code), k).value, r, a);
    AdrpPairIsPaired(code, a);
    OneAdrpOnePair(Refined(code), UsePair(CodePairs(code), k).value, AdrpPair(CodePairs(code), a).value);
  }

  lemma TreatedUseIsLive(code: seq<Line>, a: nat)
    requires Readable(code) && a < |code| && AdrpPair(CodePairs(code), a).Some?
    requires var u := AdrpPair(CodePairs(code), a).value.u; u < |code| && LineTreated(code, u) && UseOf(code[u]).OffsetUse?
    ensures code[a].Code? && code[a].inst.Adrp?
    ensures NoWrite(code, code[a].inst.rd, a, AdrpPair(CodePairs(code), a).value.u)
  {
    AdrpPairIsPaired(code, a);
    var p := AdrpPair(CodePairs(code), a).value;
    PairOfLine(code, p);
    PairedIsFound(code, a, p.u);
    PairedUseOffset(code, p.u);
    ReadsOfUse(code[p.u]);
    var b := FlowComesFromLiveAdrp(code, p.u, code[a].inst.rd);
    PairBeginsAtLiveAdrp(code, p, code[a].inst.rd, b);
  }

  lemma TreatedIsTidy(code: seq<Line>)
    requires Readable(code) && Treated(code)
    ensures Tidy(code)
  {
    forall a | 0 <= a < |code| && code[a].Code? && code[a].inst.Adrp? ensures TidyAdrp(code, a) {
      assert LineTreated(code, a);
      TreatedAdrpIsTidy(code, a);
    }
  }

  lemma TreatedAdrpIsTidy(code: seq<Line>, a: nat)
    requires Readable(code) && Treated(code) && a < |code| && code[a].Code? && code[a].inst.Adrp?
    requires AdrpPair(CodePairs(code), a).Some?
    ensures TidyAdrp(code, a)
  {
    var r, u := code[a].inst.rd, AdrpPair(CodePairs(code), a).value.u;
    AdrpPairIsPaired(code, a);
    assert LineTreated(code, u);
    if UseOf(code[u]).OffsetUse? {
      TreatedUseIsLive(code, a);
    }
    forall k | a < k < |code| && ReadsFrom(code[k], r) && NoWrite(code, r, a, k)
      ensures k == u && UseOf(code[u]).OffsetUse?
    {
      assert LineTreated(code, k);
      TreatedReaderIsUse(code, a, r, k);
    }
    assert TidyPair(code, a, u);
  }

  /** The scan finds no fault exactly when the listing is tidy. */
  lemma TreatedExactlyWhenTidy(code: seq<Line>)
    requires Readable(code)
    ensures Treated(code) <==> Tidy(code)
  {
    if Treated(code) {
      TreatedIsTidy(code);
    } else if Tidy(code) {
      TidyIsTreated(code);
    }
  }

  /** Exactly when post.py may be trusted with a straight-line listing: a run of it, with its
      exit, is reproduced wherever the code is moved if and only if every adrp is used tidily. */
  lemma ReproducedExactlyWhenTidy(code: seq<Line>, sem: Semantics, w: World, s: State)
    requires Setting(code, sem, w) && NoPages(s) && s.pc == 0 && Runs(sem, w, code, s, |code| + 1)
    ensures (forall k: nat :: Reproduced(sem, w, Shifted(w, k), code, s, Moved(s, k), |code| + 1)) <==> Tidy(code)
  {
    TreatedExactlyWhenTidy(code);
    ReproducedExactlyWhenTreated(code, sem, w, s);
  }

  // ---- The scan is a certificate ----

  function ScanKnown(code: seq<Line>, i: nat): Known
    requires Readable(code) && i <= |code|
  {
    Known(FlowAt(code, i).Keys, FlowAt(code, i))
  }

  lemma ScanKnownAfter(code: seq<Line>, i: nat)
    requires Readable(code) && i < |code| && LineTreated(code, i)
    ensures KnownOk(code, {}, i, ScanKnown(code, i))
    ensures KnownAfter(code, i, ScanKnown(code, i)) == ScanKnown(code, i + 1)
  {
    var f := FlowAt(code, i);
    if code[i].Code? {
      assert (f - Writes(code[i].inst)).Keys == f.Keys - Writes(code[i].inst);
    }
  }

  /** For straight-line code the forward scan is itself a flow certificate. */
  lemma TreatedHasCertificate(code: seq<Line>)
    requires Readable(code) && Straight(code) && Treated(code)
    ensures Certificate(code, {}, seq(|code|, i requires 0 <= i < |code| => ScanKnown(code, i)))
  {
    forall i | 0 <= i < |code|
      ensures KnownOk(code, {}, i, ScanKnown(code, i)) && KnownAfter(code, i, ScanKnown(code, i)) == ScanKnown(code, i + 1)
    {
      assert LineTreated(code, i);
      ScanKnownAfter(code, i);
    }
    forall i, j | 0 <= i < |code| && j in Successors(code, i) ensures j == i + 1 {
    }
  }

  /** The same at each single distance that is no multiple of the page size. */
  lemma ReproducedAtDistanceExactlyWhenTidy(code: seq<Line>, sem: Semantics, w: World, s: State, k: nat)
    requires Setting(code, sem, w) && NoPages(s) && s.pc == 0 && Runs(sem, w, code, s, |code| + 1)
    requires k % PAGE != 0
    ensures Reproduced(sem, w, Shifted(w, k), code, s, Moved(s, k), |code| + 1) <==> Tidy(code)
  {
    TreatedExactlyWhenTidy(code);
    if Treated(code) {
      TreatedIsReproduced(code, sem, w, s, k);
    } else {
      UntreatedIsExposed(code, sem, w, s, k);
    }
  }

  /** A tidy listing does not only stand being moved: a run of it from the top is reproduced under
      every placement of its labels. */
  lemma TidyIsPreserved(code: seq<Line>, sem: Semantics, w: World, w': World, s: State, s': State, n: nat)
    requires Readable(code) && Straight(code) && Tidy(code) && Placement(sem, w, w')
    requires s.pc == 0 && Related(w', map[], s, s') && Runs(sem, w, code, s, n)
    ensures Reproduced(sem, w, w', code, s, s', n)
  {
    TreatedExactlyWhenTidy(code);
    TreatedHasCertificate(code);
    StraightIsWellFormed(code);
    var cert := seq(|code|, i requires 0 <= i < |code| => ScanKnown(code, i));
    assert |code| > 0 ==> Covers(cert[0], map[]);
    TranslationPreservesRuns(code, sem, w, w', {}, cert, map[], s, s', n);
  }
}
