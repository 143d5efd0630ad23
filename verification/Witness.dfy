/** Small listings: what is reproduced wherever it is put, and concrete inputs on which the scripts
    go wrong. */
module Witness {
  import opened Numerals
  import opened Assembly
  import opened Refine
  import opened Post
  import opened Sed
  import opened Machine
  import opened Simulation
  import opened Preservation
  import opened Exactness
  import opened WholePages

  const X0 := X(0)
  const X8 := X(8)
  const X9 := X(9)
  const NOP := Nullary("nop")

  function Opening(): Line { Code("0", Adrp(X8, Address("0", BaseOffset("data", "0")))) }

  /** adrp x8; add x9, x8, #0x4; ldr x0, [x8,#8] -- the page is read a second time. */
  function Reused(): seq<Line> {
    [Opening(), Code("4", Add(XView, X9, X8, Hex("4"))), Code("8", Ldr(XView, X0, X8, Dec("8")))]
  }

  /** adrp x8; ldr x0, [x8,#8]; ret */
  function Single(): seq<Line> {
    [Opening(), Code("4", Ldr(XView, X0, X8, Dec("8"))), Code("8", Nullary("ret"))]
  }

  /** adrp x8; ldr x0, [x8] -- the second script leaves such a load as it is. */
  function Bare(): seq<Line> {
    [Opening(), Code("4", LdrBare(XView, X0, X8))]
  }

  /** adrp x8; ldr w0, [x8,#8] -- the second script does not know 32-bit registers. */
  function Narrowed(): seq<Line> {
    [Opening(), Code("4", Ldr(WView, X0, X8, Dec("8")))]
  }

  function Silent(): Semantics {
    Semantics((t, within, vs, m) => None, (c, v) => None, (t, v) => None)
  }

  function LinkWorld(): World {
    World(t => if IsNumeral(t, 16) then ValueOf(t, 16) else 0, (a, b) => false)
  }

  function Start(): State {
    State(0, map[], map[0 := Data(5), 8 := Data(7)])
  }

  lemma AcceptedLines()
    ensures WellFormedInst(Opening().inst)
    ensures WellFormedInst(Add(XView, X9, X8, Hex("4"))) && WellFormedInst(Ldr(XView, X0, X8, Dec("8")))
    ensures Address16("0") == 0 && Address16("4") == 4 && Address16("8") == 8 && Address16("c") == 12
  {}

  /** Instructions one after another in memory. */
  predicate Consecutive(code: seq<Line>) {
    && (forall i :: 0 <= i < |code| ==> code[i].Code? && WellFormedInst(code[i].inst))
    && (forall i :: 0 < i < |code| ==> Address16(code[i].at) == Address16(code[i - 1].at) + 4)
  }

  lemma {:induction false} AddressesGrow(code: seq<Line>, i: nat, j: nat)
    requires Consecutive(code) && i < j < |code|
    ensures Address16(code[i].at) < Address16(code[j].at)
    decreases j
  {
    if i < j - 1 {
      AddressesGrow(code, i, j - 1);
    }
  }

  lemma ConsecutiveIsAccepted(code: seq<Line>)
    requires Consecutive(code)
    ensures Readable(code) && forall i :: 0 <= i < |code| ==> FallsToNext(code, i)
  {
    forall i, j | 0 <= i < j < |code| ensures Address16(code[i].at) != Address16(code[j].at) {
      AddressesGrow(code, i, j);
    }
  }

  lemma ReusedIsAccepted()
    ensures Readable(Reused()) && Straight(Reused())
  {
    AcceptedLines();
    ConsecutiveIsAccepted(Reused());
  }

  lemma SingleIsAccepted()
    ensures Readable(Single()) && Straight(Single())
  {
    AcceptedLines();
    ConsecutiveIsAccepted(Single());
  }

  lemma BareIsAccepted()
    ensures Readable(Bare()) && Straight(Bare())
  {
    AcceptedLines();
    ConsecutiveIsAccepted(Bare());
  }

  lemma NarrowedIsAccepted()
    ensures Readable(Narrowed())
  {
    AcceptedLines();
    ConsecutiveIsAccepted(Narrowed());
  }

  lemma SilentIsSetting(code: seq<Line>)
    requires Readable(code) && Straight(code)
    ensures Setting(code, Silent(), LinkWorld())
  {}

  predicate OpensX8(code: seq<Line>) {
    |code| >= 2 && code[0].Code? && code[0].inst.Adrp? && code[0].inst.rd == X8
  }

  lemma FirstLinesArePaired(code: seq<Line>)
    requires Readable(code) && OpensX8(code) && Uses(code[1], X8)
    ensures Paired(Refined(code), 0, 1)
    ensures AdrpPair(CodePairs(code), 0).Some? && AdrpPair(CodePairs(code), 0) == UsePair(CodePairs(code), 1)
  {
    var lines := Refined(code);
    assert lines[0] == Reworded(code[0]) && lines[1] == Reworded(code[1]);
    RewordingKeepsUse(code[1]);
    assert Shown(lines, 0) && Shown(lines, 1);
    PairedIsFound(code, 0, 1);
  }

  /** The pair of the first two lines is the only one the adrp can have. */
  lemma TidyOnlyWithFirst(code: seq<Line>)
    requires Readable(code) && OpensX8(code) && Uses(code[1], X8) && Tidy(code)
    ensures TidyPair(code, 0, 1)
  {
    FirstLinesArePaired(code);
    assert TidyAdrp(code, 0);
    var u :| 0 < u < |code| && TidyPair(code, 0, u);
    PairedOnce(Refined(code), 0, u, 0, 1);
  }

  lemma ReusedIsUntidy()
    requires Readable(Reused())
    ensures !Tidy(Reused())
  {
    assert ReadsFrom(Reused()[2], X8) && NoWrite(Reused(), X8, 0, 2);
    if Tidy(Reused()) {
      TidyOnlyWithFirst(Reused());
    }
  }

  lemma BareIsUntidy()
    requires Readable(Bare())
    ensures !Tidy(Bare())
  {
    assert ReadsFrom(Bare()[1], X8) && NoWrite(Bare(), X8, 0, 1);
    if Tidy(Bare()) {
      TidyOnlyWithFirst(Bare());
    }
  }

  lemma SingleIsTidy()
    requires Readable(Single())
    ensures Tidy(Single())
  {
    FirstLinesArePaired(Single());
    assert !ReadsFrom(Single()[2], X8);
    assert TidyPair(Single(), 0, 1);
  }

  /** adrp x8; adr x8; ldr x0, [x8] -- paired, and yet nobody reads the page. */
  function Overwritten(): seq<Line> {
    [Opening(), Code("4", Adr(X8, Address("8", BaseOffset("data", "8")))), Code("8", LdrBare(XView, X0, X8))]
  }

  lemma OverwrittenIsAccepted()
    ensures Readable(Overwritten())
  {
    AcceptedLines();
    ConsecutiveIsAccepted(Overwritten());
  }

  lemma OverwrittenIsPaired()
    requires Readable(Overwritten())
    ensures Paired(Refined(Overwritten()), 0, 2)
  {
    var code, lines := Overwritten(), Refined(Overwritten());
    assert lines[0] == Reworded(code[0]) && lines[1] == Reworded(code[1]) && lines[2] == Reworded(code[2]);
    ThirdLineIsPaired(lines);
  }

  lemma ThirdLineIsPaired(lines: seq<Line>)
    requires |lines| == 3 && Opens(lines[0], X8) && !Opens(lines[1], X8) && !Uses(lines[1], X8) && Uses(lines[2], X8)
    ensures Paired(lines, 0, 2)
  {
    assert Shown(lines, 0) && Shown(lines, 1) && Shown(lines, 2);
  }

  /** Tidiness does not ask for an offset use. */
  lemma OverwrittenPageIsTidy()
    ensures Readable(Overwritten()) && Tidy(Overwritten())
    ensures TidyPair(Overwritten(), 0, 2) && UseOf(Overwritten()[2]).BareUse?
  {
    OverwrittenIsAccepted();
    OverwrittenIsPaired();
    assert WritesTo(Overwritten()[1], X8) && !ReadsFrom(Overwritten()[1], X8);
    assert TidyPair(Overwritten(), 0, 2);
  }

  function AfterOpening(): State { State(1, map[X8 := Page(0)], Start().mem) }

  lemma OpeningStep(code: seq<Line>)
    requires code != [] && code[0] == Opening()
    ensures Step(Silent(), LinkWorld(), code, Start()) == Next(AfterOpening())
  {
    AcceptedLines();
  }

  lemma ReusedRuns()
    ensures Runs(Silent(), LinkWorld(), Reused(), Start(), 4)
  {
    OpeningStep(Reused());
    var s2 := Step(Silent(), LinkWorld(), Reused(), AfterOpening());
    assert s2.Next? && s2.s.pc == 2 && Get(s2.s.regs, X8) == Page(0) && s2.s.mem == Start().mem;
    var s3 := Step(Silent(), LinkWorld(), Reused(), s2.s);
    assert s3.Next? && s3.s.pc == 3;
    assert Runs(Silent(), LinkWorld(), Reused(), s3.s, 1);
    assert Runs(Silent(), LinkWorld(), Reused(), s2.s, 2);
  }

  lemma SingleRuns()
    ensures Runs(Silent(), LinkWorld(), Single(), Start(), 4)
  {
    OpeningStep(Single());
    assert Effective(LinkWorld(), Single()[1].inst, AfterOpening().regs) == Some(Ptr(8));
    var s2 := Step(Silent(), LinkWorld(), Single(), AfterOpening());
    assert s2.Next? && s2.s.pc == 2;
    assert Step(Silent(), LinkWorld(), Single(), s2.s).Exit?;
    assert Runs(Silent(), LinkWorld(), Single(), s2.s, 2);
  }

  lemma BareRuns()
    ensures Runs(Silent(), LinkWorld(), Bare(), Start(), 3)
  {
    OpeningStep(Bare());
    assert Effective(LinkWorld(), Bare()[1].inst, AfterOpening().regs) == Some(Ptr(0));
    var s2 := Step(Silent(), LinkWorld(), Bare(), AfterOpening());
    assert s2.Next? && s2.s.pc == 2;
    assert Runs(Silent(), LinkWorld(), Bare(), s2.s, 1);
  }

  ghost predicate RunsAt(code: seq<Line>, k: nat)
    requires Readable(code)
  {
    Reproduced(Silent(), LinkWorld(), Shifted(LinkWorld(), k), code, Start(), Moved(Start(), k), |code| + 1)
  }

  lemma RunsAnywhereExactlyWhenTidy(code: seq<Line>)
    requires Readable(code) && Straight(code) && Runs(Silent(), LinkWorld(), code, Start(), |code| + 1)
    ensures (forall k: nat :: RunsAt(code, k)) <==> Tidy(code)
  {
    SilentIsSetting(code);
    ReproducedExactlyWhenTidy(code, Silent(), LinkWorld(), Start());
    assert forall k: nat :: RunsAt(code, k) <==>
      Reproduced(Silent(), LinkWorld(), Shifted(LinkWorld(), k), code, Start(), Moved(Start(), k), |code| + 1);
  }

  /** A page that is read twice: the listing goes through both scripts without complaint, and
      yet at some distance the reassembled code takes in a wrong address. */
  lemma SecondReadBreaksRun()
    ensures Readable(Reused())
    ensures exists k: nat :: !RunsAt(Reused(), k)
  {
    ReusedIsAccepted();
    ReusedIsUntidy();
    ReusedRuns();
    RunsAnywhereExactlyWhenTidy(Reused());
  }

  /** But it is right at every distance that is a multiple of the page size. */
  lemma SecondReadRunsAtPages(k: nat)
    requires k % PAGE == 0
    ensures Readable(Reused()) && RunsAt(Reused(), k)
  {
    ReusedIsAccepted();
    ReusedIsAllPaired();
    ReusedRuns();
    ReproducedAtPageDistanceExactlyWhenPaired(Reused(), Silent(), LinkWorld(), Start(), k);
  }

  lemma ReusedIsAllPaired()
    requires Readable(Reused())
    ensures AllPaired(Reused()) && SmallOffsets(Reused())
  {
    FirstLinesArePaired(Reused());
    assert HasPartner(Reused(), 0);
  }

  /** A `[reg]` load: at some distance its label is off a page boundary, and the load reads the
      cell at the start of the page instead. */
  lemma BareReadBreaksRun()
    ensures Readable(Bare())
    ensures exists k: nat :: !RunsAt(Bare(), k)
  {
    BareIsAccepted();
    BareIsUntidy();
    BareRuns();
    RunsAnywhereExactlyWhenTidy(Bare());
  }

  /** A page that is read once: the reassembled function loads its cell and returns, at whatever
      distance. */
  lemma SingleReadRunsAnywhere()
    ensures Readable(Single())
    ensures forall k: nat :: RunsAt(Single(), k)
  {
    SingleIsAccepted();
    SingleIsTidy();
    SingleRuns();
    RunsAnywhereExactlyWhenTidy(Single());
  }

  /** A 32-bit load behind an adrp is no use in the eyes of post.py: the page stays unresolved. */
  lemma NarrowLoadStaysUnresolved()
    ensures Readable(Narrowed()) && OpensPage(Translated(Narrowed())[0])
  {
    NarrowedIsAccepted();
    var lines := Refined(Narrowed());
    assert lines[0] == Reworded(Narrowed()[0]) && lines[1] == Reworded(Narrowed()[1]);
    assert Shown(lines, 0) && Shown(lines, 1);
    assert Forsaken(lines, 0, 2);
    UnresolvedExactlyAbandoned(lines, 0);
  }

  function ToZeroEight(): Ref { Address("08", Offset("f", "0")) }

  /** 8: nop; c: b 08 <f+0x0> */
  function LeadingZero(): seq<Entry> {
    [Insn("8", NOP), Insn("c", Jump(B, ToZeroEight()))]
  }

  /** The labels are printed afresh and the targets are copied: a branch whose target is spelled
      with a leading zero goes to a label that no line of the output defines, although the line is
      in the listing. */
  lemma LeadingZeroLosesLabel()
    ensures AllAccepted(LeadingZero())
    ensures Destination(Kept(LeadingZero()), ToZeroEight()) == Inside(0)
    ensures EmittedAll(LeadingZero()) == [Code("8", NOP), Code("c", Jump(B, Label("08")))]
    ensures Destination(EmittedAll(LeadingZero()), Label("08")) == Elsewhere("08")
  {
    AcceptedLines();
    assert Address16("08") == 8;
    ReprintExactlyCanonical("8");
    ReprintExactlyCanonical("c");
    TwoEntries(LeadingZero()[0], LeadingZero()[1]);
    assert Kept(LeadingZero()) == [Code("8", NOP), Code("c", Jump(B, ToZeroEight()))];
    assert ByAddress(Kept(LeadingZero()), 8, 0) == Some(0);
  }

  lemma TwoEntries(one: Entry, two: Entry)
    requires Accepted(one) && Accepted(two)
    ensures EmittedAll([one, two]) == Emitted(one) + Emitted(two)
    ensures Kept([one, two]) == Kept([one]) + Kept([two])
  {
    assert [one, two][..1] == [one] && [one][..0] == [] && [two][..0] == [];
    assert EmittedAll([one]) == Emitted(one);
  }

  // ---- Branches to symbols ----

  function ToEight(name: string): Ref { Address("8", Plain(name)) }

  /** header: nop; b 8 <name> */
  function Branching(header: string, name: string): seq<Line> {
    [Head("8", header), Code("8", NOP), Code("c", Jump(B, ToEight(name)))]
  }

  /** Two functions of one name, and a branch to the second of them. */
  function TwoOfAName(): seq<Line> {
    [Head("4", "f"), Code("4", NOP), Head("8", "f"), Code("8", NOP), Code("c", Jump(B, ToEight("f")))]
  }

  lemma BranchingIsAccepted(header: string, name: string)
    ensures Readable(Branching(header, name))
  {
    AcceptedLines();
    assert Marked(Branching(header, name), 0) == 1;
  }

  lemma TwoOfANameIsAccepted()
    ensures Readable(TwoOfAName())
  {
    AcceptedLines();
    assert Marked(TwoOfAName(), 0) == 1 && Marked(TwoOfAName(), 2) == 3;
  }

  /** A branch to the header of the listing reaches it exactly when the name that is printed is
      the header's. */
  lemma PrintedNameMustMatch(header: string, name: string)
    ensures Readable(Branching(header, name))
    ensures WellFormed(Branching(header, name)) <==> Imported(name) == header
  {
    BranchingIsAccepted(header, name);
    AcceptedLines();
    var code := Branching(header, name);
    assert ByHeader(code, Imported(name), 0) == if Imported(name) == header then Some(0) else None;
    assert code[1].Code? && Address16(code[1].at) == 8;
    assert Stands(code, 8) && code[2].inst.to == ToEight(name);
    assert NameReaches(code, ToEight(name)) <==> Imported(name) == header;
  }

  /** The branch meant line `i`, and its translation goes elsewhere. */
  predicate GoesAstray(code: seq<Line>, to: Ref, i: nat)
    requires to.Address?
  {
    Readable(code) && Destination(code, to) == Inside(i) && Destination(Translated(code), RetargetedRef(to)) != Inside(i)
  }

  /** Three accepted listings whose branch goes astray: objdump prints an alias of the header's
      name, the name is redirected although its function is in the listing, and an earlier
      header has the same name. */
  lemma SymbolBranchesGoAstray()
    ensures GoesAstray(Branching("D1Ev", "D2Ev"), ToEight("D2Ev"), 1)
    ensures GoesAstray(Branching("memcpy", "memcpy"), ToEight("memcpy"), 1)
    ensures GoesAstray(TwoOfAName(), ToEight("f"), 3)
  {
    Astray("D1Ev", "D2Ev");
    Astray("memcpy", "memcpy");
    FirstOfAName();
  }

  lemma NameAndAddressDiffer()
    ensures Destination(TwoOfAName(), ToEight("f")) == Inside(3)
    ensures SymbolDest(TwoOfAName(), "f") == Inside(1)
  {
    AcceptedLines();
    assert ByHeader(TwoOfAName(), "f", 0) == Some(0);
    assert ByAddress(TwoOfAName(), 8, 0) == Some(3);
  }

  lemma FirstOfAName()
    ensures GoesAstray(TwoOfAName(), ToEight("f"), 3)
  {
    TwoOfANameIsAccepted();
    NameAndAddressDiffer();
    SameSymbolDest(TwoOfAName(), "f");
  }

  lemma Astray(header: string, name: string)
    requires Imported(name) != header
    ensures GoesAstray(Branching(header, name), ToEight(name), 1)
  {
    AcceptedLines();
    BranchingIsAccepted(header, name);
    SameSymbolDest(Branching(header, name), Imported(name));
    assert ByHeader(Branching(header, name), Imported(name), 0) == None;
    assert ByAddress(Branching(header, name), 8, 0) == Some(1);
  }

  // ---- A loop ----

  /** adrp x8; ldr x0, [x8,#4]; cbnz x0, back to the start */
  function Loop(): seq<Line> {
    [Opening(), Code("4", Ldr(XView, X0, X8, Dec("4"))), Code("8", Test(Cbnz, X0, Address("0", Offset("f", "0"))))]
  }

  lemma LoopIsAccepted()
    ensures WellFormed(Loop())
  {
    AcceptedLines();
    assert WellFormedInst(Ldr(XView, X0, X8, Dec("4"))) && WellFormedInst(Loop()[2].inst);
    ConsecutiveIsAccepted(Loop());
  }

  /** Around the loop x8 may hold a page that nobody reads again. */
  function LoopCertificate(h: Held): seq<Known> {
    [Known({X8}, map[]), Known({X8}, map[X8 := h]), Known({X8}, map[])]
  }

  lemma LoopLinesOk(h: Held)
    requires Readable(Loop()) && AdrpPair(CodePairs(Loop()), 0).Some? && UsePair(CodePairs(Loop()), 1).Some?
    requires h == HeldBy(Loop(), UsePair(CodePairs(Loop()), 1).value)
    ensures forall i :: 0 <= i < 3 ==> KnownOk(Loop(), {}, i, LoopCertificate(h)[i])
  {
    var cert := LoopCertificate(h);
    assert KnownOk(Loop(), {}, 0, cert[0]);
    assert KnownOk(Loop(), {}, 1, cert[1]);
    assert KnownOk(Loop(), {}, 2, cert[2]);
  }

  lemma LoopFlows(h: Held)
    requires Readable(Loop()) && AdrpPair(CodePairs(Loop()), 0).Some?
    requires h == HeldBy(Loop(), AdrpPair(CodePairs(Loop()), 0).value)
    ensures var cert := LoopCertificate(h);
            && Weaker(KnownAfter(Loop(), 0, cert[0]), cert[1])
            && Weaker(KnownAfter(Loop(), 1, cert[1]), cert[2])
            && Weaker(KnownAfter(Loop(), 2, cert[2]), cert[0])
  {}

  lemma LoopSuccessors()
    ensures Successors(Loop(), 0) == {1} && Successors(Loop(), 1) == {2} && Successors(Loop(), 2) == {0, 3}
  {
    AcceptedLines();
    assert ByAddress(Loop(), 0, 0) == Some(0);
  }

  lemma LoopIsCertified(h: Held)
    requires Readable(Loop()) && AdrpPair(CodePairs(Loop()), 0).Some?
    requires h == HeldBy(Loop(), AdrpPair(CodePairs(Loop()), 0).value)
    ensures Certificate(Loop(), {}, LoopCertificate(h))
  {
    FirstLinesArePaired(Loop());
    LoopLinesOk(h);
    LoopFlows(h);
    LoopSuccessors();
    var cert := LoopCertificate(h);
    forall i, j | 0 <= i < 3 && j in Successors(Loop(), i) && j < 3 ensures Weaker(KnownAfter(Loop(), i, cert[i]), cert[j]) {
      assert i == 0 || i == 1 || i == 2;
    }
  }

  /** However often the loop goes round, and wherever its labels are placed, the reassembled code
      does the same. */
  lemma LoopRunsAnywhere(sem: Semantics, w: World, w': World, s: State, s': State, n: nat)
    requires Placement(sem, w, w') && s.pc == 0 && Related(w', map[], s, s') && Runs(sem, w, Loop(), s, n)
    ensures Readable(Loop()) && Reproduced(sem, w, w', Loop(), s, s', n)
  {
    LoopIsAccepted();
    FirstLinesArePaired(Loop());
    var h := HeldBy(Loop(), AdrpPair(CodePairs(Loop()), 0).value);
    LoopIsCertified(h);
    TranslationPreservesRuns(Loop(), sem, w, w', {}, LoopCertificate(h), map[], s, s', n);
  }
}
