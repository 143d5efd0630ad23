/** The rewritten assembly, placed anywhere, does what the disassembled code did. */
module Simulation {
  import opened Numerals
  import opened Assembly
  import opened Refine
  import opened Post
  import opened Sed
  import opened Machine

  // ---- The listings the theorems are about, and their translation ----

  predicate NamesLabel(to: Ref) {
    to.Address? && (to.via.Offset? || to.via.BaseOffset?) && Canonical(to.text)
  }

  /** What objdump guarantees of an operand, without the operand shapes that refine.py prints raw. */
  predicate WellFormedInst(inst: Inst) {
    && Rewording(inst).Some?
    && match inst
       case Jump(_, to) => to.via.Plain? || to.via.Plt? || NamesLabel(to)
       case Test(_, _, to) => NamesLabel(to)
       case Adr(_, at) => NamesLabel(at)
       case Adrp(rd, page) => Numbered(rd) && Address16(page.text) % PAGE == 0
       case Add(_, _, _, imm) => imm.Hex?
       case Ldr(_, _, _, imm) => imm.Dec?
       case _ => true
  }

  /** A header stands in front of the instruction at its address. */
  predicate HeaderStands(code: seq<Line>, i: nat)
    requires i < |code|
  {
    code[i].Head? ==> Marked(code, i) < |code| && Address16(code[Marked(code, i)].at) == Address16(code[i].at)
  }

  /** What objdump guarantees of a listing, as refine.py keeps it. */
  predicate Readable(code: seq<Line>) {
    && (forall i :: 0 <= i < |code| ==> code[i].Head? || code[i].Code?)
    && (forall i :: 0 <= i < |code| ==> HeaderStands(code, i))
    && (forall i :: 0 <= i < |code| && code[i].Code? ==> WellFormedInst(code[i].inst))
    && (forall i, j :: 0 <= i < j < |code| && code[i].Code? && code[j].Code? ==> Address16(code[i].at) != Address16(code[j].at))
  }

  /** The pairs post.py finds in what refine.py prints. */
  function CodePairs(code: seq<Line>): seq<Pair>
    requires Readable(code)
  {
    Pairs(Refined(code))
  }

  /** refine.py followed by post.py. */
  function Translated(code: seq<Line>): (out: seq<Line>)
    requires Readable(code)
    ensures |out| == |code|
  {
    Rewrite(Refined(code), CodePairs(code))
  }

  lemma LabelsStayUnique(code: seq<Line>)
    requires Readable(code)
    ensures UniqueLabels(Refined(code))
  {}

  // ---- Corresponding values and states ----

  /** Where the new world puts the thing that was at address `a`. */
  function Loc(w': World, a: nat): nat { w'.place(PrintHex(a)) }

  predicate Corr(w': World, v: Value, v': Value) {
    match (v, v')
    case (Data(n), Data(m)) => n == m
    case (Ptr(a), Ptr(b)) => b == Loc(w', a)
    case (Page(p), Page(q)) => q == Loc(w', p)
    case _ => false
  }

  predicate Clean(w': World, v: Value, v': Value) { !v.Page? && Corr(w', v, v') }

  predicate CleanAll(w': World, vs: seq<Value>, vs': seq<Value>) {
    |vs| == |vs'| && forall i :: 0 <= i < |vs| ==> Clean(w', vs[i], vs'[i])
  }

  predicate CorrMem(w': World, m: Memory, m': Memory) {
    forall a :: a in m ==> Loc(w', a) in m' && Clean(w', m[a], m'[Loc(w', a)])
  }

  /** The disassembled code runs where it was linked. */
  ghost predicate Original(w: World) {
    forall t :: IsNumeral(t, 16) ==> w.place(t) == ValueOf(t, 16)
  }

  /** Objects move as wholes. */
  ghost predicate MovesObjects(w: World, w': World) {
    forall a, b :: w.within(a, b) ==> w'.within(Loc(w', a), Loc(w', b)) && Loc(w', b) + a == Loc(w', a) + b
  }

  /** If the old instruction does something, the new one does the same to corresponding things. */
  predicate SameEffect(w': World, o: Option<(seq<Value>, Memory)>, o': Option<(seq<Value>, Memory)>) {
    o.Some? ==> o'.Some? && CleanAll(w', o.value.0, o'.value.0) && CorrMem(w', o.value.1, o'.value.1)
  }

  /** The remaining instructions look at addresses only inside their objects. */
  ghost predicate Equivariant(sem: Semantics, w: World, w': World) {
    && (forall t, vs, vs', m, m' :: CleanAll(w', vs, vs') && CorrMem(w', m, m') ==>
          SameEffect(w', sem.op(t, w.within, vs, m), sem.op(t, w'.within, vs', m')))
    && (forall c, v, v' :: Clean(w', v, v') && sem.cond(c, v).Some? ==> sem.cond(c, v') == sem.cond(c, v))
    && (forall t, v, v' :: Clean(w', v, v') && sem.test(t, v).Some? ==> sem.test(t, v') == sem.test(t, v))
  }

  ghost predicate Placement(sem: Semantics, w: World, w': World) {
    Original(w) && MovesObjects(w, w') && Equivariant(sem, w, w')
  }

  // ---- Which registers hold the page of an adrp that is not used up ----

  /** A bare page in a register: the adrp's own page and the label target its pair gave it. */
  datatype Held = Held(page: nat, target: nat)

  type Flow = map<Reg, Held>

  function PageAt(code: seq<Line>, q: Pair): nat
    requires Readable(code)
  {
    if q.a < |code| && code[q.a].Code? && code[q.a].inst.Adrp? then Address16(code[q.a].inst.page.text) else 0
  }

  function HeldBy(code: seq<Line>, q: Pair): Held
    requires Readable(code)
  {
    Held(PageAt(code, q), q.target)
  }

  /** Line `i` may run when exactly the registers in `f` hold pages: an adrp is paired, a paired
      offset use still finds the page its pair was computed from, a `[reg]` load may read a page
      whose label is known to be page-aligned, and nothing else reads a register in `f`. */
  predicate LineOk(code: seq<Line>, aligned: set<nat>, i: nat, f: Flow)
    requires Readable(code) && i < |code|
  {
    if !code[i].Code? then true
    else
      var inst := code[i].inst;
      if inst.Adrp? then AdrpPair(CodePairs(code), i).Some?
      else if PairedUse(code, i) then inst.rn in f && f[inst.rn] == HeldBy(code, UsePair(CodePairs(code), i).value)
      else QuietRead(inst, aligned, f)
  }

  predicate QuietRead(inst: Inst, aligned: set<nat>, f: Flow) {
    if inst.LdrBare? && inst.rn in f then f[inst.rn].target == f[inst.rn].page && f[inst.rn].page in aligned
    else Reads(inst) !! f.Keys
  }

  function After(code: seq<Line>, i: nat, f: Flow): Flow
    requires Readable(code) && i < |code|
  {
    if !code[i].Code? then f
    else
      var inst := code[i].inst;
      var p := AdrpPair(CodePairs(code), i);
      if inst.Adrp? && p.Some? then f[inst.rd := HeldBy(code, p.value)] else f - Writes(inst)
  }

  predicate HoldsPage(w': World, h: Held, v: Value, v': Value) {
    v == Page(h.page) && v' == Page(PageBase(Loc(w', h.target)))
  }

  ghost predicate RegsRelated(w': World, f: Flow, regs: Regs, regs': Regs) {
    && (forall r :: r in f ==> HoldsPage(w', f[r], Get(regs, r), Get(regs', r)))
    && (forall r: Reg :: r !in f ==> Clean(w', Get(regs, r), Get(regs', r)))
  }

  ghost predicate Related(w': World, f: Flow, s: State, s': State) {
    s.pc == s'.pc && RegsRelated(w', f, s.regs, s'.regs) && CorrMem(w', s.mem, s'.mem)
  }

  // ---- What the translation makes of a line ----

  predicate PairedUse(code: seq<Line>, i: nat)
    requires Readable(code) && i < |code|
  {
    code[i].Code? && (code[i].inst.Add? || code[i].inst.Ldr?) && UsePair(CodePairs(code), i).Some?
  }

  lemma PairOfLine(code: seq<Line>, q: Pair)
    requires Readable(code) && q in CodePairs(code)
    ensures q.a < |code| && code[q.a].Code? && code[q.a].inst.Adrp?
    ensures PairShape(Refined(code), q) && PageOf(Refined(code)[q.a]) == PageAt(code, q)
    ensures q.u < |code| && code[q.u].Code?
    ensures Uses(code[q.u], code[q.a].inst.rd) && q.target == PageAt(code, q) + Displacement(code[q.u])
  {
    PairsAreSeparate(Refined(code));
    RewordingKeepsUse(code[q.u]);
    assert Refined(code)[q.u] == Reworded(code[q.u]);
  }

  lemma RewordingKeepsUse(line: Line)
    requires line.Code? ==> WellFormedInst(line.inst)
    ensures UseOf(Reworded(line)) == UseOf(line)
  {}

  /** The instruction the translation writes for `inst`, given the pairs its line is in. */
  function Retargeted(inst: Inst, adrp: Option<Pair>, use: Option<Pair>): Inst
    requires WellFormedInst(inst)
  {
    match (inst, adrp, use)
    case (Adrp(rd, _), Some(p), _) => Adrp(rd, Label(PrintHex(p.target)))
    case (Add(view, rd, rn, _), _, Some(p)) => Add(view, rd, rn, Lo12(PrintHex(p.target)))
    case (Ldr(view, rt, rn, _), _, Some(p)) => Ldr(view, rt, rn, Lo12(PrintHex(p.target)))
    case _ => Rewording(inst).value
  }

  lemma ResolvedLine(line: Line, adrp: Option<Pair>, use: Option<Pair>)
    requires line.Code? && WellFormedInst(line.inst)
    requires adrp.Some? ==> OpensPage(Reworded(line))
    requires use.Some? ==> UseOf(Reworded(line)) != NoUse
    ensures Resolved(Reworded(line), adrp, use) == Code(PrintHex(Address16(line.at)), Retargeted(line.inst, adrp, use))
  {}

  lemma TranslatedLine(code: seq<Line>, i: nat)
    requires Readable(code) && i < |code|
    ensures code[i].Head? ==> Translated(code)[i] == Def(code[i].sym)
    ensures code[i].Code? ==>
              Translated(code)[i] == Code(PrintHex(Address16(code[i].at)),
                                          Retargeted(code[i].inst, AdrpPair(CodePairs(code), i), UsePair(CodePairs(code), i)))
  {
    var pairs := CodePairs(code);
    PairsAreSeparate(Refined(code));
    LookupSpec(pairs, i);
    assert Refined(code)[i] == Reworded(code[i]);
    if code[i].Code? {
      ResolvedLine(code[i], AdrpPair(pairs, i), UsePair(pairs, i));
    }
  }

  // ---- Branches reach the image of the line they reached ----

  predicate DestCorr(d: Dest, d': Dest) {
    match (d, d')
    case (Inside(i), Inside(j)) => i == j
    case (Elsewhere(t), Elsewhere(t')) => t == t'
    case (External(name), External(name')) => name' == Imported(name)
    case _ => false
  }

  /** A line of the translation carries label `text` exactly when the text is canonical and
      denotes the address of the line. */
  lemma LabelOfLine(code: seq<Line>, text: HexText, i: nat)
    requires Readable(code) && i < |code|
    ensures Translated(code)[i].Code? == code[i].Code?
    ensures code[i].Code? ==>
              (Translated(code)[i].at == text <==> Canonical(text) && Address16(code[i].at) == Address16(text))
  {
    TranslatedLine(code, i);
    if code[i].Code? {
      LabelsAgree(text, Address16(code[i].at));
    }
  }

  lemma {:induction false} SameLookup(code: seq<Line>, code': seq<Line>, text: HexText, from: nat)
    requires from <= |code| == |code'|
    requires forall i :: 0 <= i < |code| ==> code'[i].Code? == code[i].Code?
    requires forall i :: 0 <= i < |code| && code[i].Code? ==> (code'[i].at == text <==> Address16(code[i].at) == Address16(text))
    ensures ByLabel(code', text, from) == ByAddress(code, Address16(text), from)
    decreases |code| - from
  {
    if from < |code| {
      SameLookup(code, code', text, from + 1);
    }
  }

  lemma SameTarget(code: seq<Line>, text: HexText)
    requires Readable(code) && Canonical(text)
    ensures ByLabel(Translated(code), text, 0) == ByAddress(code, Address16(text), 0)
  {
    var code' := Translated(code);
    forall i | 0 <= i < |code|
      ensures code'[i].Code? == code[i].Code?
      ensures code[i].Code? ==> (code'[i].at == text <==> Address16(code[i].at) == Address16(text))
    {
      LabelOfLine(code, text, i);
    }
    SameLookup(code, code', text, 0);
  }

  lemma NameOfLine(code: seq<Line>, sym: string, i: nat)
    requires Readable(code) && i < |code|
    ensures Translated(code)[i].Code? == code[i].Code?
    ensures Names(Translated(code)[i], sym) == Names(code[i], sym)
  {
    TranslatedLine(code, i);
  }

  lemma {:induction false} SameHeader(code: seq<Line>, code': seq<Line>, sym: string, from: nat)
    requires from <= |code| == |code'|
    requires forall i :: 0 <= i < |code| ==> Names(code'[i], sym) == Names(code[i], sym)
    ensures ByHeader(code', sym, from) == ByHeader(code, sym, from)
    decreases |code| - from
  {
    if from < |code| {
      SameHeader(code, code', sym, from + 1);
    }
  }

  lemma {:induction false} SameMark(code: seq<Line>, code': seq<Line>, i: nat)
    requires i <= |code| == |code'|
    requires forall k :: 0 <= k < |code| ==> code'[k].Code? == code[k].Code?
    ensures Marked(code', i) == Marked(code, i)
    decreases |code| - i
  {
    if i < |code| {
      SameMark(code, code', i + 1);
    }
  }

  lemma SameSymbolDest(code: seq<Line>, sym: string)
    requires Readable(code)
    ensures SymbolDest(Translated(code), sym) == SymbolDest(code, sym)
  {
    var code' := Translated(code);
    forall i | 0 <= i < |code|
      ensures code'[i].Code? == code[i].Code? && Names(code'[i], sym) == Names(code[i], sym)
    {
      NameOfLine(code, sym, i);
    }
    SameHeader(code, code', sym, 0);
    var h := ByHeader(code, sym, 0);
    if h.Some? {
      SameMark(code, code', h.value);
    }
  }

  function RetargetedRef(to: Ref): Ref
    requires to.Address?
  {
    if to.via.Plain? || to.via.Plt? then Symbol(Imported(to.via.sym)) else Label(to.text)
  }

  /** The address at which the first header with a name stands. */
  function HeaderAddress(code: seq<Line>, sym: string): Option<nat>
    requires Readable(code)
  {
    var h := ByHeader(code, sym, 0);
    if h.Some? then Some(Address16(code[h.value].at)) else None
  }

  /** Something of the listing stands at an address. */
  predicate Stands(code: seq<Line>, a: nat) {
    exists i :: 0 <= i < |code| && code[i].Code? && Address16(code[i].at) == a
  }

  /** The condition under which a branch to `<sym>` may be printed as a branch to a name: the
      first header with the printed name stands at the target, or neither the target nor the
      name is in the listing. A branch through the PLT is bound by name before and after, so
      the two names must mean the same. */
  predicate NameReaches(code: seq<Line>, to: Ref)
    requires Readable(code) && to.Address? && (to.via.Plain? || to.via.Plt?)
  {
    var found := HeaderAddress(code, Imported(to.via.sym));
    if to.via.Plt? then HeaderAddress(code, to.via.sym) == found
    else if found.Some? then found.value == Address16(to.text)
    else !Stands(code, Address16(to.text))
  }

  lemma MarkedIsAddressed(code: seq<Line>, h: nat, a: nat)
    requires Readable(code) && h < |code| && !code[h].Code?
    ensures ByAddress(code, a, 0) == Some(Marked(code, h)) <==> Address16(code[h].at) == a
  {
    assert HeaderStands(code, h);
  }

  lemma SameMarkSameAddress(code: seq<Line>, g: nat, h: nat)
    requires Readable(code) && g < |code| && !code[g].Code? && h < |code| && !code[h].Code?
    ensures Marked(code, g) == Marked(code, h) <==> Address16(code[g].at) == Address16(code[h].at)
  {
    MarkedIsAddressed(code, g, Address16(code[h].at));
    MarkedIsAddressed(code, h, Address16(code[h].at));
  }

  /** A branch to a symbol reaches the image of its old destination exactly under that condition:
      an alias of the header's name, a second header with the name, or a redirected function
      whose code is in the listing breaks it. */
  lemma SymbolBranchPreservedExactly(code: seq<Line>, to: Ref)
    requires Readable(code) && to.Address? && (to.via.Plain? || to.via.Plt?)
    ensures DestCorr(Destination(code, to), Destination(Translated(code), RetargetedRef(to))) <==> NameReaches(code, to)
  {
    var name := Imported(to.via.sym);
    SameSymbolDest(code, name);
    var h := ByHeader(code, name, 0);
    if to.via.Plt? {
      var g := ByHeader(code, to.via.sym, 0);
      if g.Some? && h.Some? {
        SameMarkSameAddress(code, g.value, h.value);
      }
    } else if h.Some? {
      MarkedIsAddressed(code, h.value, Address16(to.text));
    }
  }

  predicate MayFallThrough(inst: Inst) {
    (inst.Jump? ==> inst.kind.BCond?) && !inst.Indirect? && (inst.Nullary? ==> inst.name == "nop")
  }

  /** Where control falls through line `i`, the next instruction printed is the next in memory. */
  predicate FallsToNext(code: seq<Line>, i: nat)
    requires i < |code|
  {
    code[i].Code? && MayFallThrough(code[i].inst) ==>
      var j := Marked(code, i + 1);
      j < |code| ==> Address16(code[j].at) == Address16(code[i].at) + 4
  }

  /** A readable listing without gaps that control could fall into, all of whose branches to
      symbols can be printed by name. */
  predicate WellFormed(code: seq<Line>) {
    && Readable(code)
    && (forall i :: 0 <= i < |code| ==> FallsToNext(code, i))
    && forall i :: 0 <= i < |code| && code[i].Code? && code[i].inst.Jump? && !NamesLabel(code[i].inst.to) ==>
         NameReaches(code, code[i].inst.to)
  }

  lemma DestinationsAgree(code: seq<Line>, to: Ref)
    requires Readable(code) && to.Address?
    requires NamesLabel(to) || ((to.via.Plain? || to.via.Plt?) && NameReaches(code, to))
    ensures DestCorr(Destination(code, to), Destination(Translated(code), RetargetedRef(to)))
  {
    if NamesLabel(to) {
      SameTarget(code, to.text);
    } else {
      SymbolBranchPreservedExactly(code, to);
    }
  }

  /** A branch whose target is a line of the listing names a label that is defined exactly
      once, on the translation of that very line. */
  lemma BranchLabelDefinedOnce(code: seq<Line>, to: Ref, i: nat)
    requires Readable(code) && NamesLabel(to)
    requires i < |code| && code[i].Code? && Address16(code[i].at) == Address16(to.text)
    ensures Destination(Translated(code), Label(to.text)) == Inside(i)
    ensures forall j :: 0 <= j < |code| && Translated(code)[j].Code? && Translated(code)[j].at == to.text <==> j == i
  {
    forall j | 0 <= j < |code|
      ensures Translated(code)[j].Code? && Translated(code)[j].at == to.text <==> j == i
    {
      LabelOfLine(code, to.text, j);
    }
    SameTarget(code, to.text);
  }

  /** The label is defined at all exactly when the copied target text is canonical: the labels
      are printed afresh, the targets are copied as they are. */
  lemma BranchLabelDefinedExactly(code: seq<Line>, text: HexText, i: nat)
    requires Readable(code)
    requires i < |code| && code[i].Code? && Address16(code[i].at) == Address16(text)
    ensures Destination(Translated(code), Label(text)).Inside? <==> Canonical(text)
  {
    LabelOfLine(code, text, i);
    var d := ByLabel(Translated(code), text, 0);
    if d.Some? {
      LabelOfLine(code, text, d.value);
    }
  }

  // ---- Reading and writing registers ----

  lemma WriteClean(w': World, f: Flow, regs: Regs, regs': Regs, r: Reg, v: Value, v': Value)
    requires RegsRelated(w', f, regs, regs') && Clean(w', v, v')
    ensures RegsRelated(w', f - {r}, regs[r := v], regs'[r := v'])
  {
    forall x: Reg | x !in f - {r} ensures Clean(w', Get(regs[r := v], x), Get(regs'[r := v'], x)) {
      assert x != r ==> Clean(w', Get(regs, x), Get(regs', x));
    }
  }

  lemma WritePage(w': World, f: Flow, regs: Regs, regs': Regs, r: Reg, h: Held, v: Value, v': Value)
    requires RegsRelated(w', f, regs, regs') && HoldsPage(w', h, v, v')
    ensures RegsRelated(w', f[r := h], regs[r := v], regs'[r := v'])
  {
    var g, after, after' := f[r := h], regs[r := v], regs'[r := v'];
    forall x: Reg | x !in g ensures Clean(w', Get(after, x), Get(after', x)) {
      assert Clean(w', Get(regs, x), Get(regs', x));
    }
  }

  lemma DropOneMore(f: Flow, rs: seq<Reg>, last: Reg)
    ensures var all := rs + [last]; f - (set r | r in rs) - {last} == f - (set r | r in all)
  {}

  lemma {:induction false} WriteAllClean(w': World, f: Flow, regs: Regs, regs': Regs, rs: seq<Reg>, vs: seq<Value>, vs': seq<Value>)
    requires RegsRelated(w', f, regs, regs') && CleanAll(w', vs, vs') && |rs| == |vs|
    ensures RegsRelated(w', f - (set r | r in rs), SetAll(regs, rs, vs), SetAll(regs', rs, vs'))
  {
    if rs == [] {
      assert f - (set r | r in rs) == f;
    } else {
      var n := |rs| - 1;
      WriteAllClean(w', f, regs, regs', rs[..n], vs[..n], vs'[..n]);
      WriteClean(w', f - (set r | r in rs[..n]), SetAll(regs, rs[..n], vs[..n]), SetAll(regs', rs[..n], vs'[..n]), rs[n], vs[n], vs'[n]);
      assert rs == rs[..n] + [rs[n]];
      DropOneMore(f, rs[..n], rs[n]);
    }
  }

  lemma ReadAllClean(w': World, f: Flow, regs: Regs, regs': Regs, rs: seq<Reg>)
    requires RegsRelated(w', f, regs, regs') && forall r :: r in rs ==> r !in f
    ensures CleanAll(w', GetAll(regs, rs), GetAll(regs', rs))
  {
    forall i | 0 <= i < |rs| ensures Clean(w', Get(regs, rs[i]), Get(regs', rs[i])) {
      assert rs[i] !in f;
    }
  }

  // ---- Forming addresses ----

  lemma DisplaceClean(w: World, w': World, v: Value, v': Value, k: nat)
    requires MovesObjects(w, w') && Clean(w', v, v') && Displace(w, v, k).Some?
    ensures Displace(w', v', k).Some? && Clean(w', Displace(w, v, k).value, Displace(w', v', k).value)
  {
    if v.Ptr? && k > 0 {
      assert w.within(v.at, v.at + k);
    }
  }

  /** The heart of the rewriting: page of the label plus its low twelve bits is the label. */
  lemma DisplacePaired(w: World, w': World, page: nat, k: nat)
    ensures var t := page + k;
            var e, e' := Displace(w, Page(page), k), Displace(w', Page(PageBase(Loc(w', t))), Amount(w', Lo12(PrintHex(t))));
            e == Some(Ptr(t)) && e' == Some(Ptr(Loc(w', t)))
  {}

  /** A paired use whose base still holds the page of its adrp forms the address of its target
      before, and the place of that target's label after. */
  lemma PairedEffective(code: seq<Line>, w: World, w': World, i: nat, regs: Regs, regs': Regs)
    requires Readable(code) && i < |code| && PairedUse(code, i)
    requires HoldsPage(w', HeldBy(code, UsePair(CodePairs(code), i).value), Get(regs, code[i].inst.rn), Get(regs', code[i].inst.rn))
    ensures var target := UsePair(CodePairs(code), i).value.target;
            && Effective(w, code[i].inst, regs) == Some(Ptr(target))
            && Effective(w', Translated(code)[i].inst, regs') == Some(Ptr(Loc(w', target)))
  {
    var q := UsePair(CodePairs(code), i).value;
    LookupSpec(CodePairs(code), i);
    TranslatedLine(code, i);
    PairOfLine(code, q);
    DisplacePaired(w, w', PageAt(code, q), Displacement(code[i]));
  }

  /** A `[reg]` use is left as it is, so it reads the right cell exactly when its label is placed
      on a page boundary. */
  lemma BareUseNeedsAlignment(w: World, w': World, inst: Inst, page: nat, regs: Regs, regs': Regs)
    requires inst.LdrBare? && HoldsPage(w', Held(page, page), Get(regs, inst.rn), Get(regs', inst.rn))
    ensures Effective(w, inst, regs) == Some(Ptr(page))
    ensures Effective(w', inst, regs') == Some(Ptr(Loc(w', page))) <==> Loc(w', page) % PAGE == 0
  {}

  predicate FormsAddress(inst: Inst) { inst.Add? || inst.Ldr? || inst.LdrBare? }

  lemma UnpairedEffective(w: World, w': World, aligned: set<nat>, inst: Inst, f: Flow, regs: Regs, regs': Regs)
    requires MovesObjects(w, w') && forall p :: p in aligned ==> Loc(w', p) % PAGE == 0
    requires WellFormedInst(inst) && FormsAddress(inst) && Effective(w, inst, regs).Some?
    requires RegsRelated(w', f, regs, regs') && QuietRead(inst, aligned, f)
    ensures var e' := Effective(w', inst, regs');
            e'.Some? && Clean(w', Effective(w, inst, regs).value, e'.value)
  {
    if inst.LdrBare? && inst.rn in f {
      assert HoldsPage(w', f[inst.rn], Get(regs, inst.rn), Get(regs', inst.rn));
    } else if !(inst.Add? && Narrow(inst.view)) {
      DisplaceClean(w, w', Get(regs, inst.rn), Get(regs', inst.rn), if inst.LdrBare? then 0 else Amount(w, inst.imm));
    }
  }

  // ---- One step ----

  predicate HowCorr(w': World, h: How, h': How) {
    match (h, h')
    case (Left(d), Left(d')) => DestCorr(d, d')
    case (Called(d), Called(d')) => DestCorr(d, d')
    case (Through(name, v), Through(name', v')) => name == name' && Corr(w', v, v')
    case _ => h == h'
  }

  /** Both sides go on in related states, or both leave in the same way. */
  ghost predicate SameOutcome(w': World, f: Flow, after: Flow, o: Outcome, o': Outcome) {
    match (o, o')
    case (Next(t), Next(t')) => Related(w', after, t, t')
    case (Exit(h, t), Exit(h', t')) => HowCorr(w', h, h') && Related(w', f, t, t')
    case _ => false
  }

  lemma GotoDest(w': World, f: Flow, d: Dest, d': Dest, s: State, s': State)
    requires DestCorr(d, d') && Related(w', f, s, s')
    ensures SameOutcome(w', f, f, Goto(s, d), Goto(s', d'))
  {}

  lemma BranchOutcome(w': World, f: Flow, taken: Option<bool>, d: Dest, d': Dest, s: State, s': State)
    requires taken.Some? && DestCorr(d, d') && Related(w', f, s, s')
    ensures SameOutcome(w', f, f, Branch(s, taken, d), Branch(s', taken, d'))
  {
    GotoDest(w', f, d, d', s, s');
  }

  lemma StepJump(code: seq<Line>, code': seq<Line>, sem: Semantics, w: World, w': World, f: Flow, inst: Inst, to': Ref, s: State, s': State)
    requires Equivariant(sem, w, w') && inst.Jump?
    requires DestCorr(Destination(code, inst.to), Destination(code', to'))
    requires Related(w', f, s, s') && Reads(inst) !! f.Keys && Execute(sem, w, code, inst, s) != Stuck
    ensures SameOutcome(w', f, f, Execute(sem, w, code, inst, s), Execute(sem, w', code', Jump(inst.kind, to'), s'))
  {
    var d, d' := Destination(code, inst.to), Destination(code', to');
    if inst.kind.BCond? {
      assert Clean(w', Get(s.regs, Flags), Get(s'.regs, Flags));
      BranchOutcome(w', f, sem.cond(inst.kind.cond, Get(s.regs, Flags)), d, d', s, s');
    } else if inst.kind.B? {
      GotoDest(w', f, d, d', s, s');
    }
  }

  lemma StepTest(code: seq<Line>, code': seq<Line>, sem: Semantics, w: World, w': World, f: Flow, inst: Inst, to': Ref, s: State, s': State)
    requires Equivariant(sem, w, w') && inst.Test?
    requires DestCorr(Destination(code, inst.to), Destination(code', to'))
    requires Related(w', f, s, s') && Reads(inst) !! f.Keys && Execute(sem, w, code, inst, s) != Stuck
    ensures SameOutcome(w', f, f, Execute(sem, w, code, inst, s), Execute(sem, w', code', Test(inst.test, inst.reg, to'), s'))
  {
    assert Clean(w', Get(s.regs, inst.reg), Get(s'.regs, inst.reg));
    BranchOutcome(w', f, sem.test(inst.test, Get(s.regs, inst.reg)), Destination(code, inst.to), Destination(code', to'), s, s');
  }

  lemma StepThrough(code: seq<Line>, code': seq<Line>, sem: Semantics, w: World, w': World, f: Flow, inst: Inst, s: State, s': State)
    requires inst.Nullary? || inst.Indirect?
    requires Related(w', f, s, s') && Reads(inst) !! f.Keys
    ensures SameOutcome(w', f, f, Execute(sem, w, code, inst, s), Execute(sem, w', code', inst, s'))
  {
    var r := if inst.Indirect? then inst.reg else LINK;
    assert r in Reads(inst) ==> Clean(w', Get(s.regs, r), Get(s'.regs, r));
  }

  lemma StepOp(code: seq<Line>, code': seq<Line>, sem: Semantics, w: World, w': World, f: Flow, inst: Inst, s: State, s': State)
    requires Equivariant(sem, w, w') && inst.Op?
    requires Related(w', f, s, s') && Reads(inst) !! f.Keys
    requires Execute(sem, w, code, inst, s) != Stuck
    ensures SameOutcome(w', f, f - Writes(inst), Execute(sem, w, code, inst, s), Execute(sem, w', code', inst, s'))
  {
    forall r | r in inst.uses ensures r !in f {
    }
    ReadAllClean(w', f, s.regs, s'.regs, inst.uses);
    var o := sem.op(inst.text, w.within, GetAll(s.regs, inst.uses), s.mem);
    var o' := sem.op(inst.text, w'.within, GetAll(s'.regs, inst.uses), s'.mem);
    assert SameEffect(w', o, o');
    WriteAllClean(w', f, s.regs, s'.regs, inst.defs, o.value.0, o'.value.0);
  }

  lemma WriteStep(w': World, f: Flow, r: Reg, v: Value, v': Value, s: State, s': State)
    requires Related(w', f, s, s') && Clean(w', v, v')
    ensures SameOutcome(w', f, f - {r}, Write(s, r, v), Write(s', r, v'))
  {
    WriteClean(w', f, s.regs, s'.regs, r, v, v');
  }

  lemma LoadStep(w': World, f: Flow, view: View, r: Reg, e: Value, e': Value, s: State, s': State)
    requires Related(w', f, s, s') && Clean(w', e, e') && Load(s, view, r, Some(e)) != Stuck
    ensures SameOutcome(w', f, f - {r}, Load(s, view, r, Some(e)), Load(s', view, r, Some(e')))
  {
    WriteStep(w', f, r, s.mem[e.at], s'.mem[e'.at], s, s');
  }

  lemma StepPage(code: seq<Line>, code': seq<Line>, sem: Semantics, w: World, w': World, f: Flow, inst: Inst, h: Held, s: State, s': State)
    requires Original(w) && WellFormedInst(inst) && inst.Adrp? && h.page == Address16(inst.page.text)
    requires Related(w', f, s, s')
    ensures SameOutcome(w', f, f[inst.rd := h], Execute(sem, w, code, inst, s),
                        Execute(sem, w', code', Adrp(inst.rd, Label(PrintHex(h.target))), s'))
  {
    WritePage(w', f, s.regs, s'.regs, inst.rd, h, Page(h.page), Page(PageBase(Loc(w', h.target))));
  }

  lemma StepAdr(code: seq<Line>, code': seq<Line>, sem: Semantics, w: World, w': World, f: Flow, inst: Inst, s: State, s': State)
    requires Original(w) && WellFormedInst(inst) && inst.Adr?
    requires Related(w', f, s, s')
    ensures SameOutcome(w', f, f - Writes(inst), Execute(sem, w, code, inst, s), Execute(sem, w', code', Rewording(inst).value, s'))
  {
    LabelsAgree(inst.at.text, Address16(inst.at.text));
    WriteClean(w', f, s.regs, s'.regs, inst.rd, Ptr(w.place(inst.at.text)), Ptr(w'.place(inst.at.text)));
  }

  lemma EffectiveAgrees(code: seq<Line>, w: World, w': World, aligned: set<nat>, i: nat, f: Flow, regs: Regs, regs': Regs)
    requires Readable(code) && MovesObjects(w, w') && i < |code| && code[i].Code? && FormsAddress(code[i].inst)
    requires forall p :: p in aligned ==> Loc(w', p) % PAGE == 0
    requires RegsRelated(w', f, regs, regs') && LineOk(code, aligned, i, f)
    requires Effective(w, code[i].inst, regs).Some?
    ensures var e' := Effective(w', Translated(code)[i].inst, regs');
            e'.Some? && Clean(w', Effective(w, code[i].inst, regs).value, e'.value)
  {
    var inst := code[i].inst;
    if PairedUse(code, i) {
      assert HoldsPage(w', f[inst.rn], Get(regs, inst.rn), Get(regs', inst.rn));
      PairedEffective(code, w, w', i, regs, regs');
    } else {
      TranslatedLine(code, i);
      UnpairedEffective(w, w', aligned, inst, f, regs, regs');
    }
  }

  lemma StepAddress(code: seq<Line>, code': seq<Line>, sem: Semantics, w: World, w': World, f: Flow, inst: Inst, inst': Inst, s: State, s': State)
    requires FormsAddress(inst) && FormsAddress(inst') && inst.Add? == inst'.Add? && inst.view == inst'.view && Writes(inst) == Writes(inst')
    requires Related(w', f, s, s') && Execute(sem, w, code, inst, s) != Stuck
    requires Effective(w', inst', s'.regs).Some?
    requires Clean(w', Effective(w, inst, s.regs).value, Effective(w', inst', s'.regs).value)
    ensures SameOutcome(w', f, f - Writes(inst), Execute(sem, w, code, inst, s), Execute(sem, w', code', inst', s'))
  {
    var e, e' := Effective(w, inst, s.regs).value, Effective(w', inst', s'.regs).value;
    if inst.Add? {
      assert inst.rd in Writes(inst') && inst'.rd in Writes(inst);
      WriteStep(w', f, inst.rd, e, e', s, s');
    } else {
      assert inst.rt in Writes(inst') && inst'.rt in Writes(inst);
      LoadStep(w', f, inst.view, inst.rt, e, e', s, s');
    }
  }

  lemma StepAddressLine(code: seq<Line>, sem: Semantics, w: World, w': World, aligned: set<nat>, i: nat, f: Flow, s: State, s': State)
    requires Readable(code) && Placement(sem, w, w') && i < |code| && code[i].Code? && FormsAddress(code[i].inst)
    requires forall p :: p in aligned ==> Loc(w', p) % PAGE == 0
    requires Related(w', f, s, s') && LineOk(code, aligned, i, f)
    requires Execute(sem, w, code, code[i].inst, s) != Stuck
    ensures SameOutcome(w', f, f - Writes(code[i].inst), Execute(sem, w, code, code[i].inst, s),
                        Execute(sem, w', Translated(code), Translated(code)[i].inst, s'))
  {
    EffectiveAgrees(code, w, w', aligned, i, f, s.regs, s'.regs);
    TranslatedLine(code, i);
    StepAddress(code, Translated(code), sem, w, w', f, code[i].inst, Translated(code)[i].inst, s, s');
  }

  lemma StepPageLine(code: seq<Line>, sem: Semantics, w: World, w': World, i: nat, f: Flow, s: State, s': State)
    requires Readable(code) && Placement(sem, w, w') && i < |code| && code[i].Code? && code[i].inst.Adrp?
    requires AdrpPair(CodePairs(code), i).Some?
    requires Related(w', f, s, s')
    ensures SameOutcome(w', f, After(code, i, f), Execute(sem, w, code, code[i].inst, s), Execute(sem, w', Translated(code), Translated(code)[i].inst, s'))
  {
    var q := AdrpPair(CodePairs(code), i).value;
    LookupSpec(CodePairs(code), i);
    TranslatedLine(code, i);
    StepPage(code, Translated(code), sem, w, w', f, code[i].inst, HeldBy(code, q), s, s');
  }

  lemma StepBranch(code: seq<Line>, sem: Semantics, w: World, w': World, i: nat, f: Flow, s: State, s': State)
    requires WellFormed(code) && Placement(sem, w, w') && i < |code| && code[i].Code?
    requires code[i].inst.Jump? || code[i].inst.Test?
    requires Related(w', f, s, s') && Reads(code[i].inst) !! f.Keys
    requires Execute(sem, w, code, code[i].inst, s) != Stuck
    ensures SameOutcome(w', f, f, Execute(sem, w, code, code[i].inst, s), Execute(sem, w', Translated(code), Translated(code)[i].inst, s'))
  {
    var inst := code[i].inst;
    TranslatedLine(code, i);
    DestinationsAgree(code, inst.to);
    if inst.Jump? {
      StepJump(code, Translated(code), sem, w, w', f, inst, RetargetedRef(inst.to), s, s');
    } else {
      StepTest(code, Translated(code), sem, w, w', f, inst, RetargetedRef(inst.to), s, s');
    }
  }

  lemma StepOther(code: seq<Line>, sem: Semantics, w: World, w': World, i: nat, f: Flow, s: State, s': State)
    requires WellFormed(code) && Placement(sem, w, w') && i < |code| && code[i].Code?
    requires !code[i].inst.Adrp? && !FormsAddress(code[i].inst)
    requires Related(w', f, s, s') && Reads(code[i].inst) !! f.Keys
    requires Execute(sem, w, code, code[i].inst, s) != Stuck
    ensures SameOutcome(w', f, f - Writes(code[i].inst), Execute(sem, w, code, code[i].inst, s),
                        Execute(sem, w', Translated(code), Translated(code)[i].inst, s'))
  {
    var inst := code[i].inst;
    TranslatedLine(code, i);
    if inst.Adr? {
      StepAdr(code, Translated(code), sem, w, w', f, inst, s, s');
    } else if inst.Op? {
      StepOp(code, Translated(code), sem, w, w', f, inst, s, s');
    } else {
      assert f - Writes(inst) == f;
      if inst.Nullary? || inst.Indirect? {
        StepThrough(code, Translated(code), sem, w, w', f, inst, s, s');
      } else {
        StepBranch(code, sem, w, w', i, f, s, s');
      }
    }
  }

  /** One step of the disassembled code is matched by one step of its translation. */
  lemma {:induction false} StepIsReproduced(code: seq<Line>, sem: Semantics, w: World, w': World, aligned: set<nat>, f: Flow, s: State, s': State)
    requires WellFormed(code) && Placement(sem, w, w')
    requires forall p :: p in aligned ==> Loc(w', p) % PAGE == 0
    requires Related(w', f, s, s') && s.pc < |code| && LineOk(code, aligned, s.pc, f)
    requires Step(sem, w, code, s) != Stuck
    ensures SameOutcome(w', f, After(code, s.pc, f), Step(sem, w, code, s), Step(sem, w', Translated(code), s'))
  {
    TranslatedLine(code, s.pc);
    if code[s.pc].Code? {
      var inst := code[s.pc].inst;
      if inst.Adrp? {
        StepPageLine(code, sem, w, w', s.pc, f, s, s');
      } else if FormsAddress(inst) {
        StepAddressLine(code, sem, w, w', aligned, s.pc, f, s, s');
      } else {
        StepOther(code, sem, w, w', s.pc, f, s, s');
      }
    }
  }
}
