/** Moving the code by a whole number of pages. Then the low twelve bits of every label stay as they
    were, a bare page moves like an address, and it no longer matters who reads it: all that can go
    wrong is an adrp without a pair. */
module WholePages {
  import opened Numerals
  import opened Assembly
  import opened Refine
  import opened Post
  import opened Sed
  import opened Machine
  import opened Simulation
  import opened Preservation
  import opened Exactness

  predicate CorrAll(w': World, vs: seq<Value>, vs': seq<Value>) {
    |vs| == |vs'| && forall i :: 0 <= i < |vs| ==> Corr(w', vs[i], vs'[i])
  }

  predicate SameEffectOnPages(w': World, o: Option<(seq<Value>, Memory)>, o': Option<(seq<Value>, Memory)>) {
    o.Some? ==> o'.Some? && CorrAll(w', o.value.0, o'.value.0) && CellsAgree(w', o.value.1, o'.value.1)
  }

  /** The remaining instructions treat bare pages, too, without looking at where they lie. */
  ghost predicate Tracks(sem: Semantics, w: World, w': World) {
    && (forall t, vs, vs', m, m' :: CorrAll(w', vs, vs') && CellsAgree(w', m, m') ==>
          SameEffectOnPages(w', sem.op(t, w.within, vs, m), sem.op(t, w'.within, vs', m')))
    && (forall c, v, v' :: Corr(w', v, v') && sem.cond(c, v).Some? ==> sem.cond(c, v') == sem.cond(c, v))
    && (forall t, v, v' :: Corr(w', v, v') && sem.test(t, v).Some? ==> sem.test(t, v') == sem.test(t, v))
  }

  /** Every adrp has a partner. */
  predicate AllPaired(code: seq<Line>)
    requires Readable(code)
  {
    forall a :: 0 <= a < |code| && code[a].Code? && code[a].inst.Adrp? ==> HasPartner(code, a)
  }

  predicate HasPartner(code: seq<Line>, a: nat)
    requires Readable(code) && a < |code|
  {
    exists u :: a < u < |code| && Paired(Refined(code), a, u)
  }

  /** No offset reaches beyond the page. */
  predicate SmallOffsets(code: seq<Line>) {
    forall i :: 0 <= i < |code| ==> Displacement(code[i]) < PAGE
  }

  ghost predicate ByPages(sem: Semantics, w: World, w': World, k: nat) {
    Original(w) && MovesObjects(w, w') && Tracks(sem, w, w') && ShiftsBy(w', k) && k % PAGE == 0
  }

  ghost predicate RegsCorr(w': World, regs: Regs, regs': Regs) {
    forall r: Reg :: Corr(w', Get(regs, r), Get(regs', r))
  }

  ghost predicate AllCorr(w': World, s: State, s': State) {
    s.pc == s'.pc && RegsCorr(w', s.regs, s'.regs) && CellsAgree(w', s.mem, s'.mem)
  }

  ghost predicate SameOutcomeOnPages(w': World, o: Outcome, o': Outcome) {
    match (o, o')
    case (Next(t), Next(t')) => AllCorr(w', t, t')
    case (Exit(h, t), Exit(h', t')) => HowCorr(w', h, h') && AllCorr(w', t, t')
    case _ => false
  }

  lemma PartnerIsFound(code: seq<Line>, a: nat)
    requires Readable(code) && a < |code| && code[a].Code? && code[a].inst.Adrp?
    ensures HasPartner(code, a) <==> AdrpPair(CodePairs(code), a).Some?
  {
    AdrpPairIsPaired(code, a);
    if HasPartner(code, a) {
      var u :| a < u < |code| && Paired(Refined(code), a, u);
      PairedIsFound(code, a, u);
    }
  }

  // ---- Values ----

  lemma DisplaceTracks(w: World, w': World, v: Value, v': Value, d: nat)
    requires MovesObjects(w, w') && Corr(w', v, v') && Displace(w, v, d).Some?
    requires v.Page? ==> Loc(w', v.base + d) == Loc(w', v.base) + d
    ensures Displace(w', v', d).Some? && Corr(w', Displace(w, v, d).value, Displace(w', v', d).value)
  {
    if v.Ptr? && d > 0 {
      assert w.within(v.at, v.at + d);
    }
  }

  lemma SetCorr(w': World, regs: Regs, regs': Regs, r: Reg, v: Value, v': Value)
    requires RegsCorr(w', regs, regs') && Corr(w', v, v')
    ensures RegsCorr(w', regs[r := v], regs'[r := v'])
  {
    var after, after' := regs[r := v], regs'[r := v'];
    forall x: Reg ensures Corr(w', Get(after, x), Get(after', x)) {
      assert Corr(w', Get(regs, x), Get(regs', x));
    }
  }

  lemma {:induction false} SetAllCorr(w': World, regs: Regs, regs': Regs, rs: seq<Reg>, vs: seq<Value>, vs': seq<Value>)
    requires RegsCorr(w', regs, regs') && CorrAll(w', vs, vs') && |rs| == |vs|
    ensures RegsCorr(w', SetAll(regs, rs, vs), SetAll(regs', rs, vs'))
    decreases |rs|
  {
    if rs != [] {
      var n := |rs| - 1;
      SetAllCorr(w', regs, regs', rs[..n], vs[..n], vs'[..n]);
      SetCorr(w', SetAll(regs, rs[..n], vs[..n]), SetAll(regs', rs[..n], vs'[..n]), rs[n], vs[n], vs'[n]);
    }
  }

  lemma WriteTracks(w': World, s: State, s': State, r: Reg, v: Value, v': Value)
    requires AllCorr(w', s, s') && Corr(w', v, v')
    ensures SameOutcomeOnPages(w', Write(s, r, v), Write(s', r, v'))
  {
    SetCorr(w', s.regs, s'.regs, r, v, v');
  }

  // ---- Lines ----

  /** On a page boundary the page of the label is the moved page, and the low bits of the label are
      the offset: the rewritten operands say what the old ones said. */
  lemma OperandsKeep(w': World, k: nat, p: nat, d: nat)
    requires ShiftsBy(w', k) && k % PAGE == 0 && p % PAGE == 0 && d < PAGE
    ensures PageBase(Loc(w', p + d)) == Loc(w', p)
    ensures Loc(w', p + d) % PAGE == d
  {
    assert Loc(w', p) == p + k && Loc(w', p + d) == p + d + k;
    SumOfPages(p, k, d);
  }

  lemma SumOfPages(p: nat, k: nat, d: nat)
    requires p % PAGE == 0 && k % PAGE == 0 && d < PAGE
    ensures (p + d + k) % PAGE == d
  {}

  lemma PairedAmount(code: seq<Line>, w: World, w': World, k: nat, i: nat)
    requires Readable(code) && SmallOffsets(code) && i < |code| && PairedUse(code, i)
    requires ShiftsBy(w', k) && k % PAGE == 0
    ensures Translated(code)[i].Code?
    ensures Translated(code)[i].inst == code[i].inst.(imm := Lo12(PrintHex(UsePair(CodePairs(code), i).value.target)))
    ensures Amount(w', Lo12(PrintHex(UsePair(CodePairs(code), i).value.target))) == Amount(w, code[i].inst.imm)
  {
    RetargetedUse(code, i);
    LookupSpec(CodePairs(code), i);
    var q := UsePair(CodePairs(code), i).value;
    PairOfLine(code, q);
    OperandsKeep(w', k, PageAt(code, q), Displacement(code[i]));
  }

  lemma SameAmountTracks(w: World, w': World, k: nat, inst: Inst, inst': Inst, regs: Regs, regs': Regs)
    requires FormsAddress(inst) && WellFormedInst(inst) && MovesObjects(w, w') && ShiftsBy(w', k) && RegsCorr(w', regs, regs')
    requires inst' == inst || (!inst.LdrBare? && (inst'.Add? || inst'.Ldr?) && inst' == inst.(imm := inst'.imm) && Amount(w', inst'.imm) == Amount(w, inst.imm))
    requires Effective(w, inst, regs).Some?
    ensures Effective(w', inst', regs').Some? && Corr(w', Effective(w, inst, regs).value, Effective(w', inst', regs').value)
  {
    if !(inst.Add? && Narrow(inst.view)) {
      var v, d := Get(regs, inst.rn), if inst.LdrBare? then 0 else Amount(w, inst.imm);
      assert v.Page? ==> Loc(w', v.base) == v.base + k && Loc(w', v.base + d) == v.base + d + k;
      DisplaceTracks(w, w', v, Get(regs', inst.rn), d);
    }
  }

  lemma EffectiveTracks(code: seq<Line>, w: World, w': World, k: nat, i: nat, regs: Regs, regs': Regs)
    requires Readable(code) && SmallOffsets(code) && i < |code| && code[i].Code? && FormsAddress(code[i].inst)
    requires MovesObjects(w, w') && ShiftsBy(w', k) && k % PAGE == 0 && RegsCorr(w', regs, regs')
    requires Effective(w, code[i].inst, regs).Some?
    ensures Translated(code)[i].Code?
    ensures var e' := Effective(w', Translated(code)[i].inst, regs');
            e'.Some? && Corr(w', Effective(w, code[i].inst, regs).value, e'.value)
  {
    TranslatedLine(code, i);
    if PairedUse(code, i) {
      PairedAmount(code, w, w', k, i);
    }
    SameAmountTracks(w, w', k, code[i].inst, Translated(code)[i].inst, regs, regs');
  }

  lemma AddressStepTracks(code: seq<Line>, code': seq<Line>, sem: Semantics, w: World, w': World, inst: Inst, inst': Inst, s: State, s': State)
    requires FormsAddress(inst) && FormsAddress(inst') && inst.Add? == inst'.Add? && inst.view == inst'.view && Writes(inst) == Writes(inst')
    requires AllCorr(w', s, s') && Execute(sem, w, code, inst, s) != Stuck
    requires Effective(w', inst', s'.regs).Some?
    requires Corr(w', Effective(w, inst, s.regs).value, Effective(w', inst', s'.regs).value)
    ensures SameOutcomeOnPages(w', Execute(sem, w, code, inst, s), Execute(sem, w', code', inst', s'))
  {
    var e, e' := Effective(w, inst, s.regs).value, Effective(w', inst', s'.regs).value;
    if inst.Add? {
      assert inst.rd in Writes(inst') && inst'.rd in Writes(inst);
      WriteTracks(w', s, s', inst.rd, e, e');
    } else {
      assert inst.rt in Writes(inst') && inst'.rt in Writes(inst);
      WriteTracks(w', s, s', inst.rt, s.mem[e.at], s'.mem[e'.at]);
    }
  }

  lemma AddressLineTracks(code: seq<Line>, sem: Semantics, w: World, w': World, k: nat, s: State, s': State)
    requires Readable(code) && SmallOffsets(code) && ByPages(sem, w, w', k) && AllCorr(w', s, s')
    requires s.pc < |code| && code[s.pc].Code? && FormsAddress(code[s.pc].inst)
    requires Execute(sem, w, code, code[s.pc].inst, s) != Stuck
    ensures SameOutcomeOnPages(w', Execute(sem, w, code, code[s.pc].inst, s),
                               Execute(sem, w', Translated(code), Translated(code)[s.pc].inst, s'))
  {
    AddressIsFormed(code, sem, w, s);
    EffectiveTracks(code, w, w', k, s.pc, s.regs, s'.regs);
    TranslatedLine(code, s.pc);
    AddressStepTracks(code, Translated(code), sem, w, w', code[s.pc].inst, Translated(code)[s.pc].inst, s, s');
  }

  lemma AdrpTracks(code: seq<Line>, code': seq<Line>, sem: Semantics, w: World, w': World, inst: Inst, target: nat, s: State, s': State)
    requires Original(w) && WellFormedInst(inst) && inst.Adrp? && AllCorr(w', s, s')
    requires PageBase(Loc(w', target)) == Loc(w', Address16(inst.page.text))
    ensures SameOutcomeOnPages(w', Execute(sem, w, code, inst, s), Execute(sem, w', code', Adrp(inst.rd, Label(PrintHex(target))), s'))
  {
    WriteTracks(w', s, s', inst.rd, Page(Address16(inst.page.text)), Page(PageBase(Loc(w', target))));
  }

  lemma PageLineTracks(code: seq<Line>, sem: Semantics, w: World, w': World, k: nat, s: State, s': State)
    requires Readable(code) && SmallOffsets(code) && ByPages(sem, w, w', k) && AllCorr(w', s, s')
    requires s.pc < |code| && code[s.pc].Code? && code[s.pc].inst.Adrp? && AdrpPair(CodePairs(code), s.pc).Some?
    ensures SameOutcomeOnPages(w', Execute(sem, w, code, code[s.pc].inst, s),
                               Execute(sem, w', Translated(code), Translated(code)[s.pc].inst, s'))
  {
    var q := AdrpPair(CodePairs(code), s.pc).value;
    LookupSpec(CodePairs(code), s.pc);
    TranslatedLine(code, s.pc);
    PairOfLine(code, q);
    OperandsKeep(w', k, PageAt(code, q), Displacement(code[q.u]));
    AdrpTracks(code, Translated(code), sem, w, w', code[s.pc].inst, q.target, s, s');
  }

  lemma GotoTracks(w': World, d: Dest, d': Dest, s: State, s': State)
    requires DestCorr(d, d') && AllCorr(w', s, s')
    ensures SameOutcomeOnPages(w', Goto(s, d), Goto(s', d'))
  {}

  lemma BranchTracks(w': World, taken: Option<bool>, d: Dest, d': Dest, s: State, s': State)
    requires taken.Some? && DestCorr(d, d') && AllCorr(w', s, s')
    ensures SameOutcomeOnPages(w', Branch(s, taken, d), Branch(s', taken, d'))
  {
    GotoTracks(w', d, d', s, s');
  }

  lemma JumpTracks(code: seq<Line>, code': seq<Line>, sem: Semantics, w: World, w': World, inst: Inst, to': Ref, s: State, s': State)
    requires Tracks(sem, w, w') && AllCorr(w', s, s') && (inst.Jump? || inst.Test?)
    requires DestCorr(Destination(code, inst.to), Destination(code', to'))
    requires Execute(sem, w, code, inst, s) != Stuck
    ensures SameOutcomeOnPages(w', Execute(sem, w, code, inst, s),
                               Execute(sem, w', code', if inst.Jump? then Jump(inst.kind, to') else Test(inst.test, inst.reg, to'), s'))
  {
    var d, d' := Destination(code, inst.to), Destination(code', to');
    GotoTracks(w', d, d', s, s');
    if inst.Test? {
      BranchTracks(w', sem.test(inst.test, Get(s.regs, inst.reg)), d, d', s, s');
    } else if inst.kind.BCond? {
      BranchTracks(w', sem.cond(inst.kind.cond, Get(s.regs, Flags)), d, d', s, s');
    }
  }

  lemma OpTracks(code: seq<Line>, code': seq<Line>, sem: Semantics, w: World, w': World, inst: Inst, s: State, s': State)
    requires Tracks(sem, w, w') && AllCorr(w', s, s') && inst.Op? && Execute(sem, w, code, inst, s) != Stuck
    ensures SameOutcomeOnPages(w', Execute(sem, w, code, inst, s), Execute(sem, w', code', inst, s'))
  {
    var o := sem.op(inst.text, w.within, GetAll(s.regs, inst.uses), s.mem);
    var o' := sem.op(inst.text, w'.within, GetAll(s'.regs, inst.uses), s'.mem);
    assert CorrAll(w', GetAll(s.regs, inst.uses), GetAll(s'.regs, inst.uses));
    assert SameEffectOnPages(w', o, o');
    SetAllCorr(w', s.regs, s'.regs, inst.defs, o.value.0, o'.value.0);
  }

  lemma AdrTracks(code: seq<Line>, code': seq<Line>, sem: Semantics, w: World, w': World, inst: Inst, s: State, s': State)
    requires Original(w) && WellFormedInst(inst) && inst.Adr? && AllCorr(w', s, s')
    ensures SameOutcomeOnPages(w', Execute(sem, w, code, inst, s), Execute(sem, w', code', Rewording(inst).value, s'))
  {
    LabelsAgree(inst.at.text, Address16(inst.at.text));
    WriteTracks(w', s, s', inst.rd, Ptr(w.place(inst.at.text)), Ptr(w'.place(inst.at.text)));
  }

  lemma ThroughTracks(code: seq<Line>, code': seq<Line>, sem: Semantics, w: World, w': World, inst: Inst, s: State, s': State)
    requires (inst.Nullary? || inst.Indirect?) && AllCorr(w', s, s')
    ensures SameOutcomeOnPages(w', Execute(sem, w, code, inst, s), Execute(sem, w', code', inst, s'))
  {}

  lemma BranchLineTracks(code: seq<Line>, sem: Semantics, w: World, w': World, k: nat, s: State, s': State)
    requires WellFormed(code) && ByPages(sem, w, w', k) && AllCorr(w', s, s')
    requires s.pc < |code| && code[s.pc].Code? && (code[s.pc].inst.Jump? || code[s.pc].inst.Test?)
    requires Execute(sem, w, code, code[s.pc].inst, s) != Stuck
    ensures SameOutcomeOnPages(w', Execute(sem, w, code, code[s.pc].inst, s),
                               Execute(sem, w', Translated(code), Translated(code)[s.pc].inst, s'))
  {
    var inst := code[s.pc].inst;
    TranslatedLine(code, s.pc);
    DestinationsAgree(code, inst.to);
    JumpTracks(code, Translated(code), sem, w, w', inst, RetargetedRef(inst.to), s, s');
  }

  lemma OtherLineTracks(code: seq<Line>, sem: Semantics, w: World, w': World, k: nat, s: State, s': State)
    requires WellFormed(code) && ByPages(sem, w, w', k) && AllCorr(w', s, s')
    requires s.pc < |code| && code[s.pc].Code? && !code[s.pc].inst.Adrp? && !FormsAddress(code[s.pc].inst)
    requires Execute(sem, w, code, code[s.pc].inst, s) != Stuck
    ensures SameOutcomeOnPages(w', Execute(sem, w, code, code[s.pc].inst, s),
                               Execute(sem, w', Translated(code), Translated(code)[s.pc].inst, s'))
  {
    var inst := code[s.pc].inst;
    TranslatedLine(code, s.pc);
    if inst.Adr? {
      AdrTracks(code, Translated(code), sem, w, w', inst, s, s');
    } else if inst.Op? {
      OpTracks(code, Translated(code), sem, w, w', inst, s, s');
    } else if inst.Jump? || inst.Test? {
      BranchLineTracks(code, sem, w, w', k, s, s');
    } else {
      ThroughTracks(code, Translated(code), sem, w, w', inst, s, s');
    }
  }

  lemma StepTracks(code: seq<Line>, sem: Semantics, w: World, w': World, k: nat, s: State, s': State)
    requires WellFormed(code) && SmallOffsets(code) && AllPaired(code) && ByPages(sem, w, w', k) && AllCorr(w', s, s')
    requires s.pc < |code| && Step(sem, w, code, s) != Stuck
    ensures SameOutcomeOnPages(w', Step(sem, w, code, s), Step(sem, w', Translated(code), s'))
    ensures AgreeHere(w, w', code, s, s')
  {
    TranslatedLine(code, s.pc);
    if code[s.pc].Code? {
      var inst := code[s.pc].inst;
      if inst.Adrp? {
        PartnerIsFound(code, s.pc);
        PageLineTracks(code, sem, w, w', k, s, s');
      } else if FormsAddress(inst) {
        AddressIsFormed(code, sem, w, s);
        EffectiveTracks(code, w, w', k, s.pc, s.regs, s'.regs);
        AddressLineTracks(code, sem, w, w', k, s, s');
      } else {
        OtherLineTracks(code, sem, w, w', k, s, s');
      }
    }
  }

  /** If every adrp has a partner, every run, with branches, and however the pages are read, is
      reproduced at every distance that is a multiple of the page size. */
  lemma {:induction false} PageMovesPreserveRuns(code: seq<Line>, sem: Semantics, w: World, w': World, k: nat, s: State, s': State, n: nat)
    requires WellFormed(code) && SmallOffsets(code) && AllPaired(code) && ByPages(sem, w, w', k)
    requires AllCorr(w', s, s') && Runs(sem, w, code, s, n)
    ensures Reproduced(sem, w, w', code, s, s', n)
    decreases n
  {
    if n > 0 && s.pc < |code| {
      StepTracks(code, sem, w, w', k, s, s');
      var o, o' := Step(sem, w, code, s), Step(sem, w', Translated(code), s');
      if o.Next? {
        PageMovesPreserveRuns(code, sem, w, w', k, o.s, o'.s, n - 1);
      }
    }
  }

  // ---- And an adrp without a partner stops every straight run ----

  lemma {:induction false} UnpairedStops(code: seq<Line>, sem: Semantics, w: World, w': World, s: State, s': State, n: nat, bad: nat)
    requires Readable(code) && Straight(code) && Runs(sem, w, code, s, n)
    requires s.pc <= bad < |code| && bad < s.pc + n
    requires code[bad].Code? && code[bad].inst.Adrp? && AdrpPair(CodePairs(code), bad).None?
    ensures !Reproduced(sem, w, w', code, s, s', n)
    decreases n
  {
    StraightStep(code, sem, w, s);
    if s.pc == bad {
      UnpairedAdrpIsNoticed(code, sem, w, w', s, s');
    } else {
      var o, o' := Step(sem, w, code, s), Step(sem, w', Translated(code), s');
      if o'.Next? {
        UnpairedStops(code, sem, w, w', o.s, o'.s, n - 1, bad);
      }
    }
  }

  lemma MovedCellCorr(w': World, m: Memory, m': Memory, k: nat, a: nat)
    requires ShiftsBy(w', k) && a in m && a + k in m' && m'[a + k] == MovedValue(m[a], k)
    ensures Loc(w', a) in m' && Corr(w', m[a], m'[Loc(w', a)])
  {
    var b := Loc(w', a);
    assert b == a + k;
    MovedValueCorr(w', k, m[a]);
  }

  lemma ShiftedCellsAgree(w': World, m: Memory, m': Memory, k: nat)
    requires ShiftsBy(w', k) && IsMoved(m, m', k)
    ensures CellsAgree(w', m, m')
  {
    forall a | a in m ensures Loc(w', a) in m' && Corr(w', m[a], m'[Loc(w', a)]) {
      MovedCellCorr(w', m, m', k, a);
    }
  }

  lemma MovedIsCorr(w': World, s: State, k: nat)
    requires ShiftsBy(w', k)
    ensures AllCorr(w', s, Moved(s, k))
  {
    ShiftedCellsAgree(w', s.mem, MovedMemory(s.mem, k), k);
    var regs' := MovedRegs(s.regs, k);
    forall r: Reg ensures Corr(w', Get(s.regs, r), Get(regs', r)) {
      MovedValueCorr(w', k, Get(s.regs, r));
    }
  }

  lemma MovedValueCorr(w': World, k: nat, v: Value)
    requires ShiftsBy(w', k)
    ensures Corr(w', v, MovedValue(v, k))
  {}

  /** At a distance that is a multiple of the page size a straight-line run is reproduced if and
      only if every adrp has a partner. */
  lemma ReproducedAtPageDistanceExactlyWhenPaired(code: seq<Line>, sem: Semantics, w: World, s: State, k: nat)
    requires Readable(code) && Straight(code) && SmallOffsets(code) && Original(w)
    requires k % PAGE == 0 && Tracks(sem, w, Shifted(w, k))
    requires s.pc == 0 && Runs(sem, w, code, s, |code| + 1)
    ensures Reproduced(sem, w, Shifted(w, k), code, s, Moved(s, k), |code| + 1) <==> AllPaired(code)
  {
    ShiftMovesAll(w, k);
    StraightIsWellFormed(code);
    if AllPaired(code) {
      MovedIsCorr(Shifted(w, k), s, k);
      PageMovesPreserveRuns(code, sem, w, Shifted(w, k), k, s, Moved(s, k), |code| + 1);
    } else {
      var a :| 0 <= a < |code| && code[a].Code? && code[a].inst.Adrp? && !HasPartner(code, a);
      PartnerIsFound(code, a);
      UnpairedStops(code, sem, w, Shifted(w, k), s, Moved(s, k), |code| + 1, a);
    }
  }
}
