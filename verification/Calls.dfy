/** Runs that go on through calls and returns inside the listing. A call sets the link register to
    the address behind it; a return, or a branch through a register, comes to the line at the
    address the register holds. */
module Calls {
  import opened Assembly
  import opened Machine
  import opened Simulation
  import opened Preservation

  predicate Links(inst: Inst) {
    (inst.Jump? && inst.kind.Bl?) || (inst.Indirect? && inst.name == "blr")
  }

  /** The line at an address. */
  function LineAt(code: seq<Line>, w: World, a: nat, from: nat): (d: Option<nat>)
    requires from <= |code|
    ensures d.Some? ==> from <= d.value < |code| && code[d.value].Code? && w.place(code[d.value].at) == a
    decreases |code| - from
  {
    if from == |code| then None
    else if code[from].Code? && w.place(code[from].at) == a then Some(from)
    else LineAt(code, w, a, from + 1)
  }

  /** What a line that links leaves in the link register. */
  function ReturnAddress(w: World, line: Line): Value
    requires line.Code?
  {
    Ptr(w.place(line.at) + 4)
  }

  function Linked(w: World, line: Line, regs: Regs): Regs {
    if line.Code? && Links(line.inst) then regs[LINK := ReturnAddress(w, line)] else regs
  }

  /** The line control comes to when it leaves through a call or a register, if it is one. */
  function ComesTo(code: seq<Line>, w: World, how: How): Option<nat> {
    match how
    case Called(Inside(i)) => Some(i)
    case Through(_, Ptr(a)) => LineAt(code, w, a, 0)
    case _ => None
  }

  /** One step, through calls and returns. */
  function Turn(sem: Semantics, w: World, code: seq<Line>, s: State): Outcome {
    match Step(sem, w, code, s)
    case Exit(how, t) => (
      match ComesTo(code, w, how)
      case Some(i) => Next(State(i, if s.pc < |code| then Linked(w, code[s.pc], t.regs) else t.regs, t.mem))
      case None => Exit(how, t))
    case o => o
  }

  /** A call comes back to the moved return address, and nothing else is placed on a line. */
  ghost predicate KeepsLines(code: seq<Line>, w': World) {
    && (forall i :: 0 <= i < |code| && code[i].Code? && Links(code[i].inst) ==>
          Loc(w', Address16(code[i].at) + 4) == Loc(w', Address16(code[i].at)) + 4)
    && (forall i, a: nat :: 0 <= i < |code| && code[i].Code? && Loc(w', a) == Loc(w', Address16(code[i].at)) ==>
          a == Address16(code[i].at))
  }

  /** The old run takes `n` turns (or leaves before), and through a register it comes only to lines
      in `points`: behind calls, for one that returns as it was called. */
  ghost predicate Disciplined(sem: Semantics, w: World, code: seq<Line>, points: set<nat>, s: State, n: nat)
    decreases n
  {
    n > 0 ==>
      var o := Turn(sem, w, code, s);
      && o != Stuck
      && (o.Next? ==> (Step(sem, w, code, s).Exit? && Step(sem, w, code, s).how.Through? ==> o.s.pc in points)
                      && Disciplined(sem, w, code, points, o.s, n - 1))
  }

  /** As `Reproduced`, through calls and returns. */
  ghost predicate ReproducedThrough(sem: Semantics, w: World, w': World, code: seq<Line>, s: State, s': State, n: nat)
    requires Readable(code)
    decreases n
  {
    n > 0 ==>
      && AgreeHere(w, w', code, s, s')
      && match (Turn(sem, w, code, s), Turn(sem, w', Translated(code), s'))
         case (Next(t), Next(t')) => ReproducedThrough(sem, w, w', code, t, t', n - 1)
         case (Exit(h, t), Exit(h', t')) => HowCorr(w', h, h') && StatesAgree(w', t, t')
         case _ => false
  }

  /** The lines a call or a branch through a register can come to from line `i`. */
  function ThroughSuccessors(code: seq<Line>, points: set<nat>, i: nat): set<nat>
    requires i < |code|
  {
    match code[i]
    case Code(_, Jump(Bl, to)) => var d := Destination(code, to); if d.Inside? then {d.pc} else {}
    case Code(_, Indirect(_, _)) => points
    case Code(_, Nullary(name)) => if name == "nop" then {} else points
    case _ => {}
  }

  function LinkedKnown(line: Line, e: Known): Known {
    if line.Code? && Links(line.inst) then Known(e.stale - {LINK}, e.held - {LINK}) else e
  }

  /** A certificate that also covers calls and returns. */
  predicate CallCertificate(code: seq<Line>, aligned: set<nat>, points: set<nat>, cert: seq<Known>)
    requires Readable(code)
  {
    && Certificate(code, aligned, cert)
    && (forall i, j :: 0 <= i < |code| && j in ThroughSuccessors(code, points, i) && j < |code| ==>
          Weaker(LinkedKnown(code[i], cert[i]), cert[j]))
  }

  // ---- The same line at the moved address ----

  lemma {:induction false} SameLineAt(code: seq<Line>, code': seq<Line>, w: World, w': World, a: nat, from: nat)
    requires from <= |code| == |code'|
    requires forall i :: 0 <= i < |code| ==> code'[i].Code? == code[i].Code?
    requires forall i :: 0 <= i < |code| && code[i].Code? ==> (w'.place(code'[i].at) == Loc(w', a) <==> w.place(code[i].at) == a)
    ensures LineAt(code', w', Loc(w', a), from) == LineAt(code, w, a, from)
    decreases |code| - from
  {
    if from < |code| {
      SameLineAt(code, code', w, w', a, from + 1);
    }
  }

  lemma LineOfTranslation(code: seq<Line>, w: World, w': World, i: nat)
    requires Readable(code) && Original(w) && i < |code|
    ensures Translated(code)[i].Code? == code[i].Code?
    ensures code[i].Code? ==> w.place(code[i].at) == Address16(code[i].at)
    ensures code[i].Code? ==> w'.place(Translated(code)[i].at) == Loc(w', Address16(code[i].at))
  {
    TranslatedLine(code, i);
  }

  lemma LineMoves(code: seq<Line>, w: World, w': World, a: nat)
    requires Readable(code) && Original(w) && KeepsLines(code, w')
    ensures LineAt(Translated(code), w', Loc(w', a), 0) == LineAt(code, w, a, 0)
  {
    var code' := Translated(code);
    forall i | 0 <= i < |code|
      ensures code'[i].Code? == code[i].Code?
      ensures code[i].Code? ==> (w'.place(code'[i].at) == Loc(w', a) <==> w.place(code[i].at) == a)
    {
      LineOfTranslation(code, w, w', i);
    }
    SameLineAt(code, code', w, w', a, 0);
  }

  lemma ComesToSame(code: seq<Line>, w: World, w': World, how: How, how': How)
    requires Readable(code) && Original(w) && KeepsLines(code, w') && HowCorr(w', how, how')
    ensures ComesTo(Translated(code), w', how') == ComesTo(code, w, how)
  {
    if how.Through? && how.at.Ptr? {
      LineMoves(code, w, w', how.at.at);
    }
  }

  lemma LinkSame(code: seq<Line>, w: World, w': World, i: nat)
    requires Readable(code) && Original(w) && KeepsLines(code, w') && i < |code|
    ensures (Translated(code)[i].Code? && Links(Translated(code)[i].inst)) == (code[i].Code? && Links(code[i].inst))
    ensures code[i].Code? && Links(code[i].inst) ==>
              Clean(w', ReturnAddress(w, code[i]), ReturnAddress(w', Translated(code)[i]))
  {
    TranslatedLine(code, i);
    LineOfTranslation(code, w, w', i);
  }

  /** The flow behind a line that control left through a call or a register. */
  function LinkedFlow(line: Line, f: Flow): Flow {
    if line.Code? && Links(line.inst) then f - {LINK} else f
  }

  lemma LinkedRegs(code: seq<Line>, w: World, w': World, i: nat, f: Flow, regs: Regs, regs': Regs)
    requires Readable(code) && Original(w) && KeepsLines(code, w') && i < |code| && RegsRelated(w', f, regs, regs')
    ensures RegsRelated(w', LinkedFlow(code[i], f), Linked(w, code[i], regs), Linked(w', Translated(code)[i], regs'))
  {
    LinkSame(code, w, w', i);
    if code[i].Code? && Links(code[i].inst) {
      WriteClean(w', f, regs, regs', LINK, ReturnAddress(w, code[i]), ReturnAddress(w', Translated(code)[i]));
    }
  }

  /** A turn of the old run is matched by a turn of the new one. */
  lemma TurnIsReproduced(code: seq<Line>, sem: Semantics, w: World, w': World, aligned: set<nat>, f: Flow, s: State, s': State)
    requires WellFormed(code) && Placement(sem, w, w') && KeepsLines(code, w')
    requires forall p :: p in aligned ==> Loc(w', p) % PAGE == 0
    requires Related(w', f, s, s') && s.pc < |code| && LineOk(code, aligned, s.pc, f)
    requires Step(sem, w, code, s) != Stuck
    ensures SameOutcome(w', f, if Step(sem, w, code, s).Next? then After(code, s.pc, f) else LinkedFlow(code[s.pc], f),
                        Turn(sem, w, code, s), Turn(sem, w', Translated(code), s'))
  {
    StepIsReproduced(code, sem, w, w', aligned, f, s, s');
    var o, o' := Step(sem, w, code, s), Step(sem, w', Translated(code), s');
    if o.Exit? {
      ComesToSame(code, w, w', o.how, o'.how);
      LinkedRegs(code, w, w', s.pc, f, o.s.regs, o'.s.regs);
    }
  }

  // ---- Whole runs ----

  lemma LinkedCovers(line: Line, e: Known, f: Flow)
    requires Covers(e, f)
    ensures Covers(LinkedKnown(line, e), LinkedFlow(line, f))
  {
    CoversWithout(e, f, {LINK});
  }

  lemma WeakerCovers(e: Known, e': Known, f: Flow)
    requires Weaker(e, e') && Covers(e, f)
    ensures Covers(e', f)
  {}

  lemma ThroughIsSuccessor(code: seq<Line>, sem: Semantics, w: World, points: set<nat>, s: State)
    requires s.pc < |code| && Step(sem, w, code, s).Exit? && Turn(sem, w, code, s).Next?
    requires Step(sem, w, code, s).how.Through? ==> Turn(sem, w, code, s).s.pc in points
    ensures Turn(sem, w, code, s).s.pc in ThroughSuccessors(code, points, s.pc)
  {}

  lemma TurnIsCovered(code: seq<Line>, sem: Semantics, w: World, aligned: set<nat>, points: set<nat>, cert: seq<Known>, f: Flow, s: State)
    requires Readable(code) && CallCertificate(code, aligned, points, cert) && s.pc < |code| && Covers(cert[s.pc], f)
    requires Turn(sem, w, code, s).Next?
    requires Step(sem, w, code, s).Exit? && Step(sem, w, code, s).how.Through? ==> Turn(sem, w, code, s).s.pc in points
    ensures var t := Turn(sem, w, code, s).s;
            t.pc < |code| ==> Covers(cert[t.pc], if Step(sem, w, code, s).Next? then After(code, s.pc, f) else LinkedFlow(code[s.pc], f))
  {
    var t := Turn(sem, w, code, s).s;
    if t.pc < |code| {
      if Step(sem, w, code, s).Next? {
        KnownIsSound(code, aligned, s.pc, cert[s.pc], f);
        NextIsSuccessor(code, sem, w, s);
        WeakerCovers(KnownAfter(code, s.pc, cert[s.pc]), cert[t.pc], After(code, s.pc, f));
      } else {
        ThroughIsSuccessor(code, sem, w, points, s);
        LinkedCovers(code[s.pc], cert[s.pc], f);
        WeakerCovers(LinkedKnown(code[s.pc], cert[s.pc]), cert[t.pc], LinkedFlow(code[s.pc], f));
      }
    }
  }

  /** Semantic preservation across calls and returns: the same instructions in the same order, from
      any line on, for any number of turns, under every placement that keeps the lines. */
  lemma {:induction false} CallsArePreserved(code: seq<Line>, sem: Semantics, w: World, w': World, aligned: set<nat>, points: set<nat>,
                                            cert: seq<Known>, f: Flow, s: State, s': State, n: nat)
    requires WellFormed(code) && Placement(sem, w, w') && KeepsLines(code, w') && CallCertificate(code, aligned, points, cert)
    requires forall p :: p in aligned ==> Loc(w', p) % PAGE == 0
    requires s.pc < |code| ==> Covers(cert[s.pc], f)
    requires Related(w', f, s, s') && Disciplined(sem, w, code, points, s, n)
    ensures ReproducedThrough(sem, w, w', code, s, s', n)
    decreases n
  {
    RelatedStatesAgree(w', f, s, s');
    if n > 0 && s.pc < |code| {
      KnownIsSound(code, aligned, s.pc, cert[s.pc], f);
      OkLinesAgree(code, sem, w, w', aligned, f, s, s');
      TurnIsReproduced(code, sem, w, w', aligned, f, s, s');
      var o, o' := Turn(sem, w, code, s), Turn(sem, w', Translated(code), s');
      if o.Next? {
        TurnIsCovered(code, sem, w, aligned, points, cert, f, s);
        var g := if Step(sem, w, code, s).Next? then After(code, s.pc, f) else LinkedFlow(code[s.pc], f);
        CallsArePreserved(code, sem, w, w', aligned, points, cert, g, o.s, o'.s, n - 1);
      } else {
        RelatedStatesAgree(w', f, o.s, o'.s);
      }
    }
  }
}
