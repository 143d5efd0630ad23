/** A listing that calls a function of its own twice: the call and the return are part of the run. */
module Calling {
  import opened Assembly
  import opened Refine
  import opened Post
  import opened Sed
  import opened Machine
  import opened Simulation
  import opened Preservation
  import opened Exactness
  import opened Calls
  import opened Witness

  const CALL := Jump(Bl, Address("c", Plain("g")))
  const STAY := Jump(B, Address("8", Offset("f", "8")))

  /** bl g; bl g; 8: b 8; g: adrp x8; ldr x0, [x8,#8]; ret */
  function Caller(): seq<Line> {
    [Code("0", CALL), Code("4", CALL), Code("8", STAY), Head("c", "g"),
     Code("c", Adrp(X8, Address("0", BaseOffset("data", "0")))), Code("10", Ldr(XView, X0, X8, Dec("8"))), Code("14", Nullary("ret"))]
  }

  lemma CallerAddresses()
    ensures Address16("0") == 0 && Address16("4") == 4 && Address16("8") == 8
    ensures Address16("c") == 12 && Address16("10") == 16 && Address16("14") == 20
  {}

  lemma CallerLines()
    ensures forall i :: 0 <= i < 7 && Caller()[i].Code? ==> WellFormedInst(Caller()[i].inst)
  {
    CallerAddresses();
  }

  lemma CallerMarks()
    ensures Marked(Caller(), 3) == 4 && Marked(Caller(), 1) == 1 && Marked(Caller(), 2) == 2 && Marked(Caller(), 5) == 5 && Marked(Caller(), 6) == 6
    ensures Marked(Caller(), 4) == 4
  {}

  /** Where the lines stand. */
  const PLACES: seq<nat> := [0, 4, 8, 12, 12, 16, 20]

  lemma CallerPlaces()
    ensures forall i :: 0 <= i < 7 ==> !Caller()[i].Def? && !Caller()[i].Directive? && Address16(Caller()[i].at) == PLACES[i]
  {
    CallerAddresses();
  }

  lemma PlacesDiffer(i: nat, j: nat)
    requires i < j < 7 && i != 3
    ensures PLACES[i] < PLACES[j]
  {}

  lemma CallerIsReadable()
    ensures Readable(Caller())
  {
    CallerPlaces();
    CallerLines();
    CallerMarks();
    forall i, j | 0 <= i < j < 7 && Caller()[i].Code? && Caller()[j].Code? ensures Address16(Caller()[i].at) != Address16(Caller()[j].at) {
      PlacesDiffer(i, j);
    }
    forall i | 0 <= i < 7 ensures HeaderStands(Caller(), i) {
      if Caller()[i].Head? {
        assert i == 3;
      }
    }
  }

  lemma CallerDestinations()
    ensures ByHeader(Caller(), "g", 0) == Some(3)
    ensures Destination(Caller(), CALL.to) == Inside(4) && Destination(Caller(), STAY.to) == Inside(2)
  {
    CallerAddresses();
    assert ByAddress(Caller(), 12, 0) == Some(4);
    assert ByAddress(Caller(), 8, 0) == Some(2);
  }

  lemma CallerFalls()
    ensures forall i :: 0 <= i < 7 ==> FallsToNext(Caller(), i)
  {
    CallerAddresses();
    CallerMarks();
    forall i | 0 <= i < 7 ensures FallsToNext(Caller(), i) {
      assert i == 0 || i == 1 || i == 2 || i == 3 || i == 4 || i == 5 || i == 6;
    }
  }

  lemma CallReaches()
    requires Readable(Caller())
    ensures NameReaches(Caller(), CALL.to)
  {
    CallerAddresses();
    CallerDestinations();
    assert Imported("g") == "g";
  }

  lemma BranchesReach()
    requires Readable(Caller())
    ensures forall i :: 0 <= i < 7 && Caller()[i].Code? && Caller()[i].inst.Jump? && !NamesLabel(Caller()[i].inst.to) ==>
              NameReaches(Caller(), Caller()[i].inst.to)
  {
    CallReaches();
    assert NamesLabel(STAY.to);
  }

  lemma CallerIsAccepted()
    ensures WellFormed(Caller())
  {
    CallerIsReadable();
    CallerFalls();
    BranchesReach();
  }

  lemma CallerIsPaired()
    requires Readable(Caller())
    ensures Paired(Refined(Caller()), 4, 5)
  {
    var code, lines := Caller(), Refined(Caller());
    assert lines[4] == Reworded(code[4]) && lines[5] == Reworded(code[5]);
    RewordingKeepsUse(code[5]);
    AdjacentArePaired(lines, 4);
  }

  lemma AdjacentArePaired(lines: seq<Line>, a: nat)
    requires a + 1 < |lines| && Opens(lines[a], X8) && Uses(lines[a + 1], X8)
    ensures Paired(lines, a, a + 1)
  {
    assert MentionsAdrp(lines[a]);
    assert Shown(lines, a) && Shown(lines, a + 1);
  }

  /** Everywhere x8 may hold a page, and only the load may read it. */
  function CallerCertificate(h: Held): seq<Known> {
    var any := Known({X8}, map[]);
    [any, any, any, any, any, Known({X8}, map[X8 := h]), any]
  }

  /** Where `g` returns to. */
  const POINTS := {1, 2}

  lemma CallerLinesOk(h: Held)
    requires Readable(Caller()) && AdrpPair(CodePairs(Caller()), 4).Some? && UsePair(CodePairs(Caller()), 5).Some?
    requires UsePair(CodePairs(Caller()), 0).None? && UsePair(CodePairs(Caller()), 1).None?
    requires h == HeldBy(Caller(), UsePair(CodePairs(Caller()), 5).value)
    ensures forall i :: 0 <= i < 7 ==> KnownOk(Caller(), {}, i, CallerCertificate(h)[i])
  {
    var code, cert := Caller(), CallerCertificate(h);
    forall i | 0 <= i < 7 ensures KnownOk(code, {}, i, cert[i]) {
      assert i == 0 || i == 1 || i == 2 || i == 3 || i == 4 || i == 5 || i == 6;
    }
  }

  lemma CallerSuccessors()
    ensures Successors(Caller(), 0) == {} && Successors(Caller(), 1) == {} && Successors(Caller(), 2) == {2}
    ensures Successors(Caller(), 3) == {4} && Successors(Caller(), 4) == {5} && Successors(Caller(), 5) == {6} && Successors(Caller(), 6) == {}
    ensures ThroughSuccessors(Caller(), POINTS, 0) == {4} && ThroughSuccessors(Caller(), POINTS, 1) == {4}
    ensures ThroughSuccessors(Caller(), POINTS, 6) == POINTS
    ensures forall i :: 2 <= i < 6 ==> ThroughSuccessors(Caller(), POINTS, i) == {}
  {
    CallerDestinations();
    forall i | 2 <= i < 6 ensures ThroughSuccessors(Caller(), POINTS, i) == {} {
      assert i == 2 || i == 3 || i == 4 || i == 5;
    }
  }

  lemma CallerFlows(h: Held)
    requires Readable(Caller()) && AdrpPair(CodePairs(Caller()), 4).Some?
    requires h == HeldBy(Caller(), AdrpPair(CodePairs(Caller()), 4).value)
    ensures var code, cert := Caller(), CallerCertificate(h);
            && Weaker(KnownAfter(code, 2, cert[2]), cert[2])
            && Weaker(KnownAfter(code, 3, cert[3]), cert[4])
            && Weaker(KnownAfter(code, 4, cert[4]), cert[5])
            && Weaker(KnownAfter(code, 5, cert[5]), cert[6])
  {}

  lemma CallerEdges(h: Held)
    requires Readable(Caller()) && AdrpPair(CodePairs(Caller()), 4).Some?
    requires h == HeldBy(Caller(), AdrpPair(CodePairs(Caller()), 4).value)
    ensures var code, cert := Caller(), CallerCertificate(h);
            forall i, j :: 0 <= i < 7 && j in Successors(code, i) && j < 7 ==> Weaker(KnownAfter(code, i, cert[i]), cert[j])
  {
    var code, cert := Caller(), CallerCertificate(h);
    CallerFlows(h);
    CallerSuccessors();
    forall i, j | 0 <= i < 7 && j in Successors(code, i) && j < 7 ensures Weaker(KnownAfter(code, i, cert[i]), cert[j]) {
      assert i == 2 || i == 3 || i == 4 || i == 5;
    }
  }

  lemma CallerThroughEdges(h: Held)
    ensures var code, cert := Caller(), CallerCertificate(h);
            forall i, j :: 0 <= i < 7 && j in ThroughSuccessors(code, POINTS, i) && j < 7 ==> Weaker(LinkedKnown(code[i], cert[i]), cert[j])
  {
    var code, cert := Caller(), CallerCertificate(h);
    CallerSuccessors();
    forall i, j | 0 <= i < 7 && j in ThroughSuccessors(code, POINTS, i) && j < 7 ensures Weaker(LinkedKnown(code[i], cert[i]), cert[j]) {
      assert (i == 0 && j == 4) || (i == 1 && j == 4) || (i == 6 && (j == 1 || j == 2));
    }
  }

  lemma CallerIsCertified() returns (h: Held)
    requires Readable(Caller())
    ensures CallCertificate(Caller(), {}, POINTS, CallerCertificate(h))
  {
    CallerIsPaired();
    PairedIsFound(Caller(), 4, 5);
    h := HeldBy(Caller(), AdrpPair(CodePairs(Caller()), 4).value);
    CallsAreNoUses();
    CallerLinesOk(h);
    CallerEdges(h);
    CallerThroughEdges(h);
  }

  lemma CallsAreNoUses()
    requires Readable(Caller())
    ensures UsePair(CodePairs(Caller()), 0).None? && UsePair(CodePairs(Caller()), 1).None?
  {
    PairedUseOffset(Caller(), 0);
    PairedUseOffset(Caller(), 1);
  }

  /** Wherever its lines and data are placed, the calls, the two runs of `g` and the returns are
      those of the old code, for any number of turns. */
  lemma CallerRunsAnywhere(sem: Semantics, w: World, w': World, s: State, s': State, n: nat)
    requires Placement(sem, w, w') && KeepsLines(Caller(), w') && s.pc == 0 && Related(w', map[], s, s')
    requires Disciplined(sem, w, Caller(), POINTS, s, n)
    ensures Readable(Caller()) && ReproducedThrough(sem, w, w', Caller(), s, s', n)
  {
    CallerIsAccepted();
    var h := CallerIsCertified();
    assert Covers(CallerCertificate(h)[0], map[]);
    CallsArePreserved(Caller(), sem, w, w', {}, POINTS, CallerCertificate(h), map[], s, s', n);
  }

  // ---- There are such runs, of any length ----

  lemma ShiftKeepsLines(code: seq<Line>, w': World, k: nat)
    requires ShiftsBy(w', k)
    ensures KeepsLines(code, w')
  {}

  lemma ReturnLines(w: World)
    requires Original(w)
    ensures LineAt(Caller(), w, 4, 0) == Some(1) && LineAt(Caller(), w, 8, 0) == Some(2)
    ensures w.place("0") == 0 && w.place("4") == 4
  {
    CallerAddresses();
  }

  lemma {:induction false} StayingIsDisciplined(sem: Semantics, w: World, s: State, n: nat)
    requires s.pc == 2
    ensures Disciplined(sem, w, Caller(), POINTS, s, n)
    decreases n
  {
    CallerDestinations();
    if n > 0 {
      StayingIsDisciplined(sem, w, s, n - 1);
    }
  }

  /** If control leaves through a register here, it is for one of the points. */
  predicate InBounds(sem: Semantics, w: World, s: State) {
    var o, t := Step(sem, w, Caller(), s), Turn(sem, w, Caller(), s);
    o.Exit? && o.how.Through? && t.Next? ==> t.s.pc in POINTS
  }

  lemma OneMoreTurn(sem: Semantics, w: World, s: State, t: State, n: nat)
    requires Turn(sem, w, Caller(), s) == Next(t) && InBounds(sem, w, s)
    requires n > 0 ==> Disciplined(sem, w, Caller(), POINTS, t, n - 1)
    ensures Disciplined(sem, w, Caller(), POINTS, s, n)
  {}

  lemma PageTurn(sem: Semantics, w: World, s: State)
    requires Original(w) && s.pc == 4
    ensures Turn(sem, w, Caller(), s) == Next(State(5, s.regs[X8 := Page(0)], s.mem)) && InBounds(sem, w, s)
  {
    CallerAddresses();
  }

  lemma LoadTurn(sem: Semantics, w: World, s: State)
    requires s.pc == 5 && Get(s.regs, X8) == Page(0) && 8 in s.mem
    ensures Turn(sem, w, Caller(), s) == Next(State(6, s.regs[X0 := s.mem[8]], s.mem)) && InBounds(sem, w, s)
  {
    assert Effective(w, Caller()[5].inst, s.regs) == Some(Ptr(8));
  }

  lemma ReturnTurn(sem: Semantics, w: World, s: State, p: nat)
    requires Original(w) && s.pc == 6 && (p == 1 || p == 2) && Get(s.regs, X(30)) == Ptr(4 * p)
    ensures Turn(sem, w, Caller(), s) == Next(State(p, s.regs, s.mem)) && InBounds(sem, w, s)
  {
    ReturnLines(w);
  }

  lemma CallTurns(sem: Semantics, w: World, s: State)
    requires Original(w) && s.pc < 2
    ensures Turn(sem, w, Caller(), s) == Next(State(4, s.regs[X(30) := Ptr(4 * s.pc + 4)], s.mem)) && InBounds(sem, w, s)
  {
    CallerDestinations();
    ReturnLines(w);
  }

  lemma FourTurns(sem: Semantics, w: World, s: State, s4: State, s5: State, s6: State, back: State, n: nat)
    requires Turn(sem, w, Caller(), s) == Next(s4) && Turn(sem, w, Caller(), s4) == Next(s5)
    requires Turn(sem, w, Caller(), s5) == Next(s6) && Turn(sem, w, Caller(), s6) == Next(back)
    requires InBounds(sem, w, s) && InBounds(sem, w, s4) && InBounds(sem, w, s5) && InBounds(sem, w, s6)
    requires n > 3 ==> Disciplined(sem, w, Caller(), POINTS, back, n - 4)
    ensures Disciplined(sem, w, Caller(), POINTS, s, n)
  {
    if n > 2 {
      OneMoreTurn(sem, w, s6, back, n - 3);
    }
    if n > 1 {
      OneMoreTurn(sem, w, s5, s6, n - 2);
    }
    if n > 0 {
      OneMoreTurn(sem, w, s4, s5, n - 1);
    }
    OneMoreTurn(sem, w, s, s4, n);
  }

  lemma CallIsDisciplined(sem: Semantics, w: World, s: State, n: nat)
    requires Original(w) && s.pc < 2 && 8 in s.mem
    ensures Disciplined(sem, w, Caller(), POINTS, s, n)
    decreases 2 - s.pc
  {
    CallTurns(sem, w, s);
    var s4 := Turn(sem, w, Caller(), s).s;
    PageTurn(sem, w, s4);
    var s5 := Turn(sem, w, Caller(), s4).s;
    LoadTurn(sem, w, s5);
    var s6 := Turn(sem, w, Caller(), s5).s;
    ReturnTurn(sem, w, s6, s.pc + 1);
    var back := Turn(sem, w, Caller(), s6).s;
    if n > 3 {
      if back.pc == 2 {
        StayingIsDisciplined(sem, w, back, n - 4);
      } else {
        CallIsDisciplined(sem, w, back, n - 4);
      }
    }
    FourTurns(sem, w, s, s4, s5, s6, back, n);
  }
}
