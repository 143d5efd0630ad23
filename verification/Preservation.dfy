/** Whole runs: the translation reproduces every run along which the page registers are treated
    well, and a flow certificate for the listing guarantees that of every run. */
module Preservation {
  import opened Assembly
  import opened Sed
  import opened Machine
  import opened Simulation

  /** The old run can take `n` steps (or leaves before) without going wrong. */
  ghost predicate Runs(sem: Semantics, w: World, code: seq<Line>, s: State, n: nat)
    decreases n
  {
    n > 0 ==>
      var o := Step(sem, w, code, s);
      o != Stuck && (o.Next? ==> Runs(sem, w, code, o.s, n - 1))
  }

  /** What the instruction takes in corresponds: the address it forms, or the registers it reads. */
  ghost predicate Agree(w: World, w': World, line: Line, line': Line, regs: Regs, regs': Regs) {
    line.Code? ==>
      && line'.Code?
      && if FormsAddress(line.inst) then
           && Effective(w, line.inst, regs).Some? && Effective(w', line'.inst, regs').Some?
           && Corr(w', Effective(w, line.inst, regs).value, Effective(w', line'.inst, regs').value)
         else
           forall r :: r in Reads(line.inst) ==> Corr(w', Get(regs, r), Get(regs', r))
  }

  /** Every register that does not hold a bare page corresponds. */
  ghost predicate RegsAgree(w': World, regs: Regs, regs': Regs) {
    forall r: Reg :: !Get(regs, r).Page? ==> Corr(w', Get(regs, r), Get(regs', r))
  }

  /** Every cell corresponds, also one in which a bare page has been saved. */
  predicate CellsAgree(w': World, m: Memory, m': Memory) {
    forall a :: a in m ==> Loc(w', a) in m' && Corr(w', m[a], m'[Loc(w', a)])
  }

  ghost predicate StatesAgree(w': World, s: State, s': State) {
    s.pc == s'.pc && CellsAgree(w', s.mem, s'.mem) && RegsAgree(w', s.regs, s'.regs)
  }

  ghost predicate AgreeHere(w: World, w': World, code: seq<Line>, s: State, s': State)
    requires Readable(code)
  {
    && StatesAgree(w', s, s')
    && (s.pc < |code| ==> Agree(w, w', code[s.pc], Translated(code)[s.pc], s.regs, s'.regs))
  }

  /** For `n` steps the new run is on the line of the old one, with the same registers and memory
      up to placement, takes in corresponding operands, and leaves when and how the old one
      leaves, in a corresponding state. */
  ghost predicate Reproduced(sem: Semantics, w: World, w': World, code: seq<Line>, s: State, s': State, n: nat)
    requires Readable(code)
    decreases n
  {
    n > 0 ==>
      && AgreeHere(w, w', code, s, s')
      && match (Step(sem, w, code, s), Step(sem, w', Translated(code), s'))
         case (Next(t), Next(t')) => Reproduced(sem, w, w', code, t, t', n - 1)
         case (Exit(h, t), Exit(h', t')) => HowCorr(w', h, h') && StatesAgree(w', t, t')
         case _ => false
  }

  /** Along the old run from `s`, every line finds the page registers the way it needs them. */
  ghost predicate PathOk(sem: Semantics, w: World, code: seq<Line>, aligned: set<nat>, f: Flow, s: State, n: nat)
    requires Readable(code)
    decreases n
  {
    n > 0 && s.pc < |code| ==>
      && LineOk(code, aligned, s.pc, f)
      && var o := Step(sem, w, code, s);
         o.Next? ==> PathOk(sem, w, code, aligned, After(code, s.pc, f), o.s, n - 1)
  }

  lemma RelatedStatesAgree(w': World, f: Flow, s: State, s': State)
    requires Related(w', f, s, s')
    ensures StatesAgree(w', s, s')
  {
    forall r: Reg | !Get(s.regs, r).Page? ensures Corr(w', Get(s.regs, r), Get(s'.regs, r)) {
      assert r !in f ==> Clean(w', Get(s.regs, r), Get(s'.regs, r));
    }
  }

  lemma OkLinesAgree(code: seq<Line>, sem: Semantics, w: World, w': World, aligned: set<nat>, f: Flow, s: State, s': State)
    requires Readable(code) && Placement(sem, w, w')
    requires forall p :: p in aligned ==> Loc(w', p) % PAGE == 0
    requires Related(w', f, s, s') && s.pc < |code| && LineOk(code, aligned, s.pc, f)
    requires Step(sem, w, code, s) != Stuck
    ensures AgreeHere(w, w', code, s, s')
  {
    RelatedStatesAgree(w', f, s, s');
    TranslatedLine(code, s.pc);
    if code[s.pc].Code? {
      var inst := code[s.pc].inst;
      if FormsAddress(inst) {
        EffectiveAgrees(code, w, w', aligned, s.pc, f, s.regs, s'.regs);
      } else {
        forall r | r in Reads(inst) ensures Clean(w', Get(s.regs, r), Get(s'.regs, r)) {
        }
      }
    }
  }

  /** Semantic preservation along a run: whatever the placement, whatever the remaining
      instructions do, the rewritten code reproduces the run. */
  lemma {:induction false} PathIsReproduced(code: seq<Line>, sem: Semantics, w: World, w': World, aligned: set<nat>, f: Flow, s: State, s': State, n: nat)
    requires WellFormed(code) && Placement(sem, w, w')
    requires forall p :: p in aligned ==> Loc(w', p) % PAGE == 0
    requires Related(w', f, s, s')
    requires Runs(sem, w, code, s, n) && PathOk(sem, w, code, aligned, f, s, n)
    ensures Reproduced(sem, w, w', code, s, s', n)
    decreases n
  {
    RelatedStatesAgree(w', f, s, s');
    if n > 0 && s.pc < |code| {
      OkLinesAgree(code, sem, w, w', aligned, f, s, s');
      StepIsReproduced(code, sem, w, w', aligned, f, s, s');
      var o, o' := Step(sem, w, code, s), Step(sem, w', Translated(code), s');
      if o.Next? {
        PathIsReproduced(code, sem, w, w', aligned, After(code, s.pc, f), o.s, o'.s, n - 1);
      }
    }
  }

  // ---- A certificate for all runs ----

  /** On entry to a line at most the registers in `stale` hold pages, and those in `held` do. */
  datatype Known = Known(stale: set<Reg>, held: Flow)

  predicate Covers(e: Known, f: Flow) {
    f.Keys <= e.stale && forall r :: r in e.held ==> r in f && f[r] == e.held[r]
  }

  predicate KnownOk(code: seq<Line>, aligned: set<nat>, i: nat, e: Known)
    requires Readable(code) && i < |code|
  {
    if !code[i].Code? then true
    else
      var inst := code[i].inst;
      if inst.Adrp? then AdrpPair(CodePairs(code), i).Some?
      else if PairedUse(code, i) then inst.rn in e.held && e.held[inst.rn] == HeldBy(code, UsePair(CodePairs(code), i).value)
      else QuietReadAt(inst, aligned, e)
  }

  predicate QuietReadAt(inst: Inst, aligned: set<nat>, e: Known) {
    if inst.LdrBare? && inst.rn in e.held then e.held[inst.rn].target == e.held[inst.rn].page && e.held[inst.rn].page in aligned
    else Reads(inst) !! e.stale
  }

  function KnownAfter(code: seq<Line>, i: nat, e: Known): Known
    requires Readable(code) && i < |code|
  {
    if !code[i].Code? then e
    else
      var inst := code[i].inst;
      var p := AdrpPair(CodePairs(code), i);
      if inst.Adrp? && p.Some? then Known(e.stale + {inst.rd}, e.held[inst.rd := HeldBy(code, p.value)])
      else Known(e.stale - Writes(inst), e.held - Writes(inst))
  }

  predicate Weaker(e: Known, e': Known) {
    e.stale <= e'.stale && forall r :: r in e'.held ==> r in e.held && e.held[r] == e'.held[r]
  }

  /** The lines control can go to from line `i`. */
  function Successors(code: seq<Line>, i: nat): set<nat>
    requires i < |code|
  {
    match code[i]
    case Code(_, Jump(kind, to)) =>
      var d := Destination(code, to);
      (if d.Inside? && !kind.Bl? then {d.pc} else {}) + (if kind.BCond? then {i + 1} else {})
    case Code(_, Test(_, _, to)) =>
      var d := Destination(code, to);
      (if d.Inside? then {d.pc} else {}) + {i + 1}
    case Code(_, Indirect(_, _)) => {}
    case Code(_, Nullary(name)) => if name == "nop" then {i + 1} else {}
    case _ => {i + 1}
  }

  /** A dataflow table for the listing: each line is safe under its entry, and what it leaves
      fits the entry of every line that can come next. */
  predicate Certificate(code: seq<Line>, aligned: set<nat>, cert: seq<Known>)
    requires Readable(code)
  {
    && |cert| == |code|
    && (forall i :: 0 <= i < |code| ==> KnownOk(code, aligned, i, cert[i]))
    && (forall i, j :: 0 <= i < |code| && j in Successors(code, i) && j < |code| ==> Weaker(KnownAfter(code, i, cert[i]), cert[j]))
  }

  lemma CoversWithout(e: Known, f: Flow, gone: set<Reg>)
    requires Covers(e, f)
    ensures Covers(Known(e.stale - gone, e.held - gone), f - gone)
  {}

  lemma CoversWith(e: Known, f: Flow, r: Reg, h: Held)
    requires Covers(e, f)
    ensures Covers(Known(e.stale + {r}, e.held[r := h]), f[r := h])
  {}

  lemma StaleCoversReads(e: Known, f: Flow, read: set<Reg>)
    requires Covers(e, f) && read !! e.stale
    ensures read !! f.Keys
  {}

  lemma QuietKnown(inst: Inst, aligned: set<nat>, e: Known, f: Flow)
    requires Covers(e, f)
    ensures QuietReadAt(inst, aligned, e) ==> QuietRead(inst, aligned, f)
  {
    if Reads(inst) !! e.stale {
      StaleCoversReads(e, f, Reads(inst));
    }
  }

  lemma KnownIsSound(code: seq<Line>, aligned: set<nat>, i: nat, e: Known, f: Flow)
    requires Readable(code) && i < |code| && KnownOk(code, aligned, i, e) && Covers(e, f)
    ensures LineOk(code, aligned, i, f)
    ensures Covers(KnownAfter(code, i, e), After(code, i, f))
  {
    if code[i].Code? {
      var inst := code[i].inst;
      var p := AdrpPair(CodePairs(code), i);
      if inst.Adrp? {
        CoversWith(e, f, inst.rd, HeldBy(code, p.value));
      } else {
        CoversWithout(e, f, Writes(inst));
        QuietKnown(inst, aligned, e, f);
      }
    }
  }

  lemma NextIsSuccessor(code: seq<Line>, sem: Semantics, w: World, s: State)
    requires s.pc < |code| && Step(sem, w, code, s).Next?
    ensures Step(sem, w, code, s).s.pc in Successors(code, s.pc)
  {}

  lemma {:induction false} CertifiedPathsAreOk(code: seq<Line>, sem: Semantics, w: World, aligned: set<nat>, cert: seq<Known>, f: Flow, s: State, n: nat)
    requires Readable(code) && Certificate(code, aligned, cert)
    requires s.pc < |code| ==> Covers(cert[s.pc], f)
    ensures PathOk(sem, w, code, aligned, f, s, n)
    decreases n
  {
    if n > 0 && s.pc < |code| {
      KnownIsSound(code, aligned, s.pc, cert[s.pc], f);
      var o := Step(sem, w, code, s);
      if o.Next? {
        NextIsSuccessor(code, sem, w, s);
        var next := After(code, s.pc, f);
        if o.s.pc < |code| {
          assert Weaker(KnownAfter(code, s.pc, cert[s.pc]), cert[o.s.pc]);
          assert Covers(cert[o.s.pc], next);
        }
        CertifiedPathsAreOk(code, sem, w, aligned, cert, next, o.s, n - 1);
      }
    }
  }

  /** The theorem about the whole translator: for a certified listing, every run of the original
      from any line, of any length and with branches, is reproduced by the translated code under
      every placement of its labels. At the start of a function no register holds a page: `f` is
      empty there. */
  lemma {:induction false} TranslationPreservesRuns(code: seq<Line>, sem: Semantics, w: World, w': World, aligned: set<nat>, cert: seq<Known>, f: Flow, s: State, s': State, n: nat)
    requires WellFormed(code) && Placement(sem, w, w') && Certificate(code, aligned, cert)
    requires forall p :: p in aligned ==> Loc(w', p) % PAGE == 0
    requires s.pc < |code| ==> Covers(cert[s.pc], f)
    requires Related(w', f, s, s') && Runs(sem, w, code, s, n)
    ensures Reproduced(sem, w, w', code, s, s', n)
  {
    CertifiedPathsAreOk(code, sem, w, aligned, cert, f, s, n);
    PathIsReproduced(code, sem, w, w', aligned, f, s, s', n);
  }
}
