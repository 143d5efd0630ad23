/** refine.py: an objdump listing becomes labelled assembly, one line at a time. */
module Refine {
  import opened Numerals
  import opened Assembly

  /** Functions left to the original library, renamed with `o_`. */
  predicate IsUnsafe(sym: string) {
    sym in {
      "fopen", "fread", "fwrite", "fclose", "exit", "abort", "setjmp", "longjmp",
      "__stack_chk_fail", "__sfp_handle_exceptions",
      "__cxa_begin_catch", "__cxa_end_catch", "__cxa_rethrow", "_Unwind_Resume"}
  }

  /** Functions with a replacement of their own, renamed with `s_`. */
  predicate IsStatic(sym: string) {
    sym in {
      "malloc", "free", "calloc", "realloc", "_ZdaPv", "_ZdlPv", "_Znam", "_Znwm",
      "memset", "memcpy", "memcmp", "memmove", "sin", "cos", "sqrt", "pow",
      "crc32", "inflate", "inflateEnd", "inflateInit_", "inflateReset",
      "sprintf", "fprintf", "fputc"}
  }

  datatype NoiseKind = Blank | Comment | FileFormat | SectionTitle

  /** One line of the listing, classified the way the driver's patterns classify it. */
  datatype Entry =
    | Noise(kind: NoiseKind)
    | Header(at: HexText, name: SymRef)
    | Insn(at: HexText, inst: Inst)
    | Junk

  function Imported(sym: string): string {
    if IsUnsafe(sym) then "o_" + sym
    else if IsStatic(sym) then "s_" + sym
    else sym
  }

  predicate Redirected(sym: string) {
    IsUnsafe(sym) || IsStatic(sym)
  }

  /** The names that redirection gives. */
  predicate Prefixed(name: string) {
    |name| >= 2 && (name[..2] == "o_" || name[..2] == "s_")
  }

  predicate HasOffsetMark(s: string) {
    |s| >= 3 && (s[..3] == "+0x" || HasOffsetMark(s[1..]))
  }

  /** The instruction that is printed, or None where `process_insts` gives up. */
  function Rewording(inst: Inst): Option<Inst> {
    match inst
    case Jump(kind, Address(text, via)) => (
      match via
      case Plain(sym) => Some(Jump(kind, Symbol(Imported(sym))))
      case Plt(sym) => Some(Jump(kind, Symbol(Imported(sym))))
      case Offset(_, _) => Some(Jump(kind, Label(text)))
      case BaseOffset(_, _) => Some(Jump(kind, Label(text)))
      case Base(_) => None)
    case Jump(_, _) => None
    case Test(test, reg, Address(text, via)) => (
      match via
      case Offset(_, _) => Some(Test(test, reg, Label(text)))
      case BaseOffset(_, _) => Some(Test(test, reg, Label(text)))
      case Plain(_) => Some(inst)
      case _ => None)
    case Adrp(rd, Address(text, via)) =>
      if via.Plain? || via.Plt? then None else Some(Adrp(rd, Hole(text)))
    case Adrp(_, _) => None
    case Adr(rd, Address(text, via)) => (
      match via
      case BaseOffset(_, _) => Some(Adr(rd, Label(text)))
      case Plain(_) => Some(inst)
      case _ => None)
    case Op(text, _, _) =>
      if '@' in text || HasOffsetMark(text) then None else Some(inst)
    case Nullary(name) => if name == "ret" || name == "nop" then Some(inst) else None
    case _ => Some(inst)
  }

  /** The symbols `import_sym` is called with. */
  function Imports(inst: Inst): seq<string> {
    match inst
    case Jump(_, Address(_, Plain(sym))) => [sym]
    case Jump(_, Address(_, Plt(sym))) => [sym]
    case _ => []
  }

  predicate Accepted(e: Entry) {
    match e
    case Noise(_) => true
    case Header(_, name) => name.Plain? || name.Base? || name.BaseOffset?
    case Insn(_, inst) => Rewording(inst).Some?
    case Junk => false
  }

  predicate AllAccepted(es: seq<Entry>) {
    forall i :: 0 <= i < |es| ==> Accepted(es[i])
  }

  function Emitted(e: Entry): seq<Line>
    requires Accepted(e)
  {
    match e
    case Header(_, name) => if name.BaseOffset? then [] else [Def(name.sym)]
    case Insn(at, inst) => [Code(PrintHex(Address16(at)), Rewording(inst).value)]
    case _ => []
  }

  function EmittedAll(es: seq<Entry>): seq<Line>
    requires AllAccepted(es)
  {
    if es == [] then [] else EmittedAll(es[..|es| - 1]) + Emitted(es[|es| - 1])
  }

  function EntryImports(e: Entry): seq<string> {
    if e.Insn? then Imports(e.inst) else []
  }

  function EntryHeaders(e: Entry): seq<string> {
    if e.Header? && (e.name.Plain? || e.name.Base?) then [e.name.sym] else []
  }

  function ImportsAll(es: seq<Entry>): seq<string> {
    if es == [] then [] else ImportsAll(es[..|es| - 1]) + EntryImports(es[|es| - 1])
  }

  function HeadersAll(es: seq<Entry>): seq<string> {
    if es == [] then [] else HeadersAll(es[..|es| - 1]) + EntryHeaders(es[|es| - 1])
  }

  function AddOnce(xs: seq<string>, x: string): seq<string> {
    if x in xs then xs else xs + [x]
  }

  /** Adds the at most one name that a single line contributes. */
  function Extend(xs: seq<string>, ys: seq<string>): seq<string>
    requires |ys| <= 1
  {
    if ys == [] then xs else AddOnce(xs, ys[0])
  }

  function FirstUses(xs: seq<string>): seq<string> {
    if xs == [] then [] else AddOnce(FirstUses(xs[..|xs| - 1]), xs[|xs| - 1])
  }

  /** What FirstUses keeps: every name once, in the order of the first occurrences. */
  lemma {:induction false} FirstUsesInOrder(xs: seq<string>)
    ensures forall x :: x in FirstUses(xs) <==> x in xs
    ensures var f := FirstUses(xs);
            && (forall i, j :: 0 <= i < j < |f| ==> f[i] != f[j])
            && (forall i, j, q :: 0 <= i < j < |f| && 0 <= q < |xs| && xs[q] == f[j] ==> f[i] in xs[..q])
  {
    if xs != [] {
      var rest := xs[..|xs| - 1];
      FirstUsesInOrder(rest);
      var f := FirstUses(xs);
      assert xs == rest + [xs[|xs| - 1]];
      forall i, j, q | 0 <= i < j < |f| && 0 <= q < |xs| && xs[q] == f[j]
        ensures f[i] in xs[..q]
      {
        assert FirstUses(rest) == f[..|FirstUses(rest)|];
        assert f[i] in FirstUses(rest);
        if q < |rest| {
          assert rest[q] == xs[q] && rest[..q] == xs[..q];
        } else {
          assert xs[..q] == rest;
        }
      }
    }
  }

  class Translator {
    var lineno: nat
    var symbols: seq<string>
    var localSymbols: seq<string>
    var output: seq<Line>

    constructor ()
      ensures lineno == 0 && symbols == [] && localSymbols == [] && output == []
    {
      lineno, symbols, localSymbols, output := 0, [], [], [];
    }

    method ImportSym(sym: string) returns (name: string)
      modifies this`symbols
      ensures name == Imported(sym)
      ensures symbols == AddOnce(old(symbols), sym)
    {
      if sym !in symbols {
        symbols := symbols + [sym];
      }
      if IsUnsafe(sym) {
        return "o_" + sym;
      }
      if IsStatic(sym) {
        return "s_" + sym;
      }
      return sym;
    }

    method ProcessInst(at: HexText, inst: Inst) returns (done: bool)
      modifies this`symbols, this`output
      ensures done <==> Accepted(Insn(at, inst))
      ensures done ==> output == old(output) + Emitted(Insn(at, inst))
      ensures !done ==> output == old(output)
      ensures symbols == if done then Extend(old(symbols), Imports(inst)) else old(symbols)
    {
      var mark := PrintHex(Address16(at));
      match inst {
        case Jump(kind, Address(text, via)) =>
          if via.Plain? || via.Plt? {
            var name := ImportSym(via.sym);
            output := output + [Code(mark, Jump(kind, Symbol(name)))];
            return true;
          }
          if via.Offset? || via.BaseOffset? {
            output := output + [Code(mark, Jump(kind, Label(text)))];
            return true;
          }
          return false;
        case Jump(_, _) =>
          return false;
        case Test(test, reg, Address(text, via)) =>
          if via.BaseOffset? || via.Offset? {
            output := output + [Code(mark, Test(test, reg, Label(text)))];
            return true;
          }
          if via.Plt? || via.Base? {
            return false;
          }
        case Adrp(rd, page) =>
          if page.Address? && (page.via.BaseOffset? || page.via.Base? || page.via.Offset?) {
            output := output + [Code(mark, Adrp(rd, Hole(page.text)))];
            return true;
          }
          return false;
        case Adr(rd, Address(text, via)) =>
          if via.BaseOffset? {
            output := output + [Code(mark, Adr(rd, Label(text)))];
            return true;
          }
          if !via.Plain? {
            return false;
          }
        case Op(text, _, _) =>
          if '@' in text {
            return false;
          }
          if HasOffsetMark(text) {
            return false;
          }
        case Nullary(name) =>
          if name != "ret" && name != "nop" {
            return false;
          }
        case _ =>
      }
      output := output + [Code(mark, inst)];
      return true;
    }

    method ProcessEntry(e: Entry) returns (done: bool)
      modifies this`symbols, this`localSymbols, this`output
      ensures done <==> Accepted(e)
      ensures done ==> output == old(output) + Emitted(e)
      ensures !done ==> output == old(output)
      ensures symbols == if done then Extend(old(symbols), EntryImports(e)) else old(symbols)
      ensures localSymbols == if done then Extend(old(localSymbols), EntryHeaders(e)) else old(localSymbols)
    {
      match e {
        case Noise(_) =>
        case Header(_, name) =>
          if name.Plain? || name.Base? {
            if name.sym !in localSymbols {
              localSymbols := localSymbols + [name.sym];
            }
            output := output + [Def(name.sym)];
          } else if !name.BaseOffset? {
            return false;
          }
        case Insn(at, inst) =>
          done := ProcessInst(at, inst);
          return done;
        case Junk =>
          return false;
      }
      return true;
    }

    /** The fields hold the translation of the lines `es`. */
    ghost predicate Holds(es: seq<Entry>)
      reads this
    {
      && AllAccepted(es)
      && output == EmittedAll(es)
      && symbols == FirstUses(ImportsAll(es))
      && localSymbols == FirstUses(HeadersAll(es))
    }

    /** The driver loop. Whether or not it stops early, `lineno - 1` lines went through and
        the output is exactly their translation. */
    method Run(entries: seq<Entry>) returns (ok: bool)
      requires lineno == 0 && symbols == [] && localSymbols == [] && output == []
      modifies this
      ensures 1 <= lineno <= |entries| + 1
      ensures Holds(entries[..lineno - 1])
      ensures ok <==> AllAccepted(entries)
      ensures ok ==> lineno == |entries| + 1
      ensures !ok ==> lineno <= |entries| && !Accepted(entries[lineno - 1])
    {
      var i := 0;
      lineno := 1;
      while i < |entries|
        invariant 0 <= i <= |entries| && lineno == i + 1
        invariant Holds(entries[..i])
      {
        var done := ProcessEntry(entries[i]);
        if !done {
          return false;
        }
        OneMoreLine(entries, i);
        OneMoreName(entries, i);
        i := i + 1;
        lineno := lineno + 1;
      }
      assert entries[..i] == entries;
      ok := true;
    }
  }

  lemma OneMoreLine(es: seq<Entry>, i: nat)
    requires i < |es| && AllAccepted(es[..i]) && Accepted(es[i])
    ensures AllAccepted(es[..i + 1])
    ensures EmittedAll(es[..i + 1]) == EmittedAll(es[..i]) + Emitted(es[i])
  {
    assert es[..i + 1][..i] == es[..i];
  }

  lemma OneMoreName(es: seq<Entry>, i: nat)
    requires i < |es|
    ensures FirstUses(ImportsAll(es[..i + 1])) == Extend(FirstUses(ImportsAll(es[..i])), EntryImports(es[i]))
    ensures FirstUses(HeadersAll(es[..i + 1])) == Extend(FirstUses(HeadersAll(es[..i])), EntryHeaders(es[i]))
  {
    assert es[..i + 1][..i] == es[..i];
    FirstUsesAppend(ImportsAll(es[..i]), EntryImports(es[i]));
    FirstUsesAppend(HeadersAll(es[..i]), EntryHeaders(es[i]));
  }

  lemma FirstUsesAppend(xs: seq<string>, ys: seq<string>)
    requires |ys| <= 1
    ensures FirstUses(xs + ys) == Extend(FirstUses(xs), ys)
  {
    if ys == [] {
      assert xs + ys == xs;
    } else {
      assert (xs + ys)[..|xs + ys| - 1] == xs;
    }
  }

  // ---- The translation seen as a map over the lines that are kept ----

  /** The listing without the lines that vanish. */
  function Kept(es: seq<Entry>): seq<Line> {
    if es == [] then []
    else
      var last := es[|es| - 1];
      Kept(es[..|es| - 1]) +
      match last
      case Header(at, name) => if name.Plain? || name.Base? then [Head(at, name.sym)] else []
      case Insn(at, inst) => [Code(at, inst)]
      case _ => []
  }

  predicate Translatable(code: seq<Line>) {
    forall i :: 0 <= i < |code| && code[i].Code? ==> Rewording(code[i].inst).Some?
  }

  function Reworded(line: Line): Line
    requires line.Code? ==> Rewording(line.inst).Some?
  {
    match line
    case Head(_, sym) => Def(sym)
    case Code(at, inst) => Code(PrintHex(Address16(at)), Rewording(inst).value)
    case _ => line
  }

  function Refined(code: seq<Line>): (out: seq<Line>)
    requires Translatable(code)
  {
    seq(|code|, i requires 0 <= i < |code| => Reworded(code[i]))
  }

  /** An accepted listing is translated line by line, in order, and nothing but the noise and
      the continuation headers is lost. */
  lemma {:induction false} TranslatedLineByLine(es: seq<Entry>)
    requires AllAccepted(es)
    ensures Translatable(Kept(es))
    ensures EmittedAll(es) == Refined(Kept(es))
  {
    if es != [] {
      var before, last := es[..|es| - 1], es[|es| - 1];
      TranslatedLineByLine(before);
      assert Kept(es) == Kept(before) + Kept([last]) by {
        assert [last][..0] == [];
      }
      assert Refined(Kept([last])) == Emitted(last);
    }
  }

  // ---- Imported names ----

  lemma RedirectedNamesAreNew(sym: string)
    requires Prefixed(sym)
    ensures !Redirected(sym)
  {
    assert sym[0] == sym[..2][0] && sym[1] == sym[..2][1];
  }

  lemma RedirectionPrefixes(sym: string)
    ensures Redirected(sym) ==> Prefixed(Imported(sym)) && Imported(sym)[2..] == sym
    ensures !Redirected(sym) ==> Imported(sym) == sym
  {
    assert ("o_" + sym)[..2] == "o_" && ("o_" + sym)[2..] == sym;
    assert ("s_" + sym)[..2] == "s_" && ("s_" + sym)[2..] == sym;
  }

  /** A redirected name is never again one that should have been redirected. */
  lemma ImportsAreRedirected(sym: string)
    ensures !Redirected(Imported(sym))
  {
    RedirectionPrefixes(sym);
    if Redirected(sym) {
      RedirectedNamesAreNew(Imported(sym));
    }
  }

  /** Redirection merges two symbols exactly when one of them is already called what the other
      becomes. */
  lemma ImportsCollideExactly(a: string, b: string)
    ensures Imported(a) == Imported(b) <==>
            a == b || (Redirected(a) && b == Imported(a)) || (Redirected(b) && a == Imported(b))
  {
    RedirectionPrefixes(a);
    RedirectionPrefixes(b);
    ImportsAreRedirected(a);
    ImportsAreRedirected(b);
  }

  function Call(at: HexText, target: HexText, sym: string): Entry {
    Insn(at, Jump(Bl, Address(target, Plain(sym))))
  }

  /** It does happen: calls of `memcpy` and of a function that is itself called `s_memcpy` come
      out as calls of one symbol. */
  lemma RedirectionMerges(at: HexText, at': HexText, target: HexText, target': HexText)
    ensures var calls := [Call(at, target, "memcpy"), Call(at', target', "s_memcpy")];
            && AllAccepted(calls)
            && EmittedAll(calls) == [Code(PrintHex(Address16(at)), Jump(Bl, Symbol("s_memcpy"))),
                                     Code(PrintHex(Address16(at')), Jump(Bl, Symbol("s_memcpy")))]
  {
    var one, two := Call(at, target, "memcpy"), Call(at', target', "s_memcpy");
    assert [one, two][..1] == [one] && [one][..0] == [];
    assert EmittedAll([one]) == Emitted(one);
    assert EmittedAll([one, two]) == Emitted(one) + Emitted(two);
    assert Imported("memcpy") == "s_memcpy";
    ImportsCollideExactly("memcpy", "s_memcpy");
  }

  /** No branch in the output goes straight to an unsafe or a replaced function. */
  lemma {:induction false} NoDirectCalls(es: seq<Entry>)
    requires AllAccepted(es)
    ensures forall line :: line in EmittedAll(es) && line.Code? && line.inst.Jump? && line.inst.to.Symbol? ==>
              !Redirected(line.inst.to.name)
  {
    if es != [] {
      NoDirectCalls(es[..|es| - 1]);
      var last := es[|es| - 1];
      if last.Insn? && last.inst.Jump? && last.inst.to.Address? && (last.inst.to.via.Plain? || last.inst.to.via.Plt?) {
        ImportsAreRedirected(last.inst.to.via.sym);
      }
    }
  }

  // ---- What comes out, said without the functions that compute it ----

  lemma {:induction false} EmittedIsKept(es: seq<Entry>, i: nat)
    requires AllAccepted(es) && i < |es|
    ensures forall line :: line in Emitted(es[i]) ==> line in EmittedAll(es)
    decreases |es|
  {
    var last := |es| - 1;
    if i < last {
      assert es[..last][i] == es[i];
      EmittedIsKept(es[..last], i);
    }
  }

  lemma {:induction false} EmittedFromSome(es: seq<Entry>, line: Line) returns (i: nat)
    requires AllAccepted(es) && line in EmittedAll(es)
    ensures i < |es| && line in Emitted(es[i])
    decreases |es|
  {
    var last := |es| - 1;
    if line in Emitted(es[last]) {
      i := last;
    } else {
      i := EmittedFromSome(es[..last], line);
      assert es[..last][i] == es[i];
    }
  }

  /** A branch, in the two forms that are printed with a name. */
  predicate BranchesTo(e: Entry, kind: JumpKind, sym: string) {
    && e.Insn? && e.inst.Jump? && e.inst.kind == kind && e.inst.to.Address?
    && (e.inst.to.via == Plain(sym) || e.inst.to.via == Plt(sym))
  }

  /** A branch to an unsafe function comes out as a branch to its `o_` name, a branch to a replaced
      function as one to its `s_` name, any other as it is. */
  lemma BranchesAreRedirected(es: seq<Entry>, i: nat, kind: JumpKind, sym: string)
    requires AllAccepted(es) && i < |es| && BranchesTo(es[i], kind, sym)
    ensures var at := PrintHex(Address16(es[i].at));
            && (IsUnsafe(sym) ==> Emitted(es[i]) == [Code(at, Jump(kind, Symbol("o_" + sym)))])
            && (IsStatic(sym) ==> Emitted(es[i]) == [Code(at, Jump(kind, Symbol("s_" + sym)))])
            && (!IsUnsafe(sym) && !IsStatic(sym) ==> Emitted(es[i]) == [Code(at, Jump(kind, Symbol(sym)))])
    ensures forall line :: line in Emitted(es[i]) ==> line in EmittedAll(es)
  {
    EmittedIsKept(es, i);
    ListsAreDisjoint(sym);
  }

  lemma ListsAreDisjoint(sym: string)
    ensures !(IsUnsafe(sym) && IsStatic(sym))
  {}

  /** So no call of an unsafe function comes out under the name of a replacement. */
  lemma UnsafeIsNotReplaced(es: seq<Entry>, i: nat, j: nat, kind: JumpKind, kind': JumpKind, unsafe: string, replaced: string)
    requires AllAccepted(es) && i < |es| && j < |es|
    requires BranchesTo(es[i], kind, unsafe) && IsUnsafe(unsafe) && BranchesTo(es[j], kind', replaced) && IsStatic(replaced)
    ensures |Emitted(es[i])| == |Emitted(es[j])| == 1
    ensures Emitted(es[i])[0].inst.to.name != Emitted(es[j])[0].inst.to.name
  {
    BranchesAreRedirected(es, i, kind, unsafe);
    BranchesAreRedirected(es, j, kind', replaced);
    assert ("o_" + unsafe)[0] != ("s_" + replaced)[0];
  }

  predicate OccursAt(text: string, s: string, i: nat) {
    i + |text| <= |s| && s[i..i + |text|] == text
  }

  ghost predicate OccursIn(text: string, s: string) {
    exists i: nat :: OccursAt(text, s, i)
  }

  lemma {:induction false} OffsetMarkOccurs(s: string)
    ensures HasOffsetMark(s) <==> OccursIn("+0x", s)
    decreases |s|
  {
    var mark := "+0x";
    if |s| >= 3 {
      OffsetMarkOccurs(s[1..]);
      if i: nat :| OccursAt(mark, s, i) {
        assert i > 0 ==> s[1..][i - 1..i - 1 + 3] == s[i..i + 3] && OccursAt(mark, s[1..], i - 1);
      }
      if i: nat :| OccursAt(mark, s[1..], i) {
        assert s[1..][i..i + 3] == s[i + 1..i + 1 + 3] && OccursAt(mark, s, i + 1);
      }
      assert s[..3] == mark ==> OccursAt(mark, s, 0);
    }
  }

  /** What can stand in the output: names and labels, but no address, except behind the operands
      that go through as they are. */
  ghost predicate MayBePrinted(inst: Inst) {
    match inst
    case Jump(_, to) => to.Symbol? || to.Label?
    case Test(_, _, to) => !to.Address? || to.via.Plain?
    case Adrp(_, page) => page.Hole?
    case Adr(_, at) => !at.Address? || at.via.Plain?
    case Op(text, _, _) => '@' !in text && !OccursIn("+0x", text)
    case Nullary(name) => name == "ret" || name == "nop"
    case _ => true
  }

  lemma OutputIsPrintable(es: seq<Entry>, line: Line)
    requires AllAccepted(es) && line in EmittedAll(es) && line.Code?
    ensures MayBePrinted(line.inst)
  {
    var i := EmittedFromSome(es, line);
    if line.inst.Op? {
      OffsetMarkOccurs(line.inst.text);
    }
  }

  /** The operands of a listing that are refused. */
  ghost predicate Refused(inst: Inst) {
    match inst
    case Jump(_, Address(_, via)) => via.Base?
    case Test(_, _, Address(_, via)) => via.Base? || via.Plt?
    case Adrp(_, Address(_, via)) => via.Plain? || via.Plt?
    case Adr(_, Address(_, via)) => via.Offset? || via.Base? || via.Plt?
    case Op(text, _, _) => '@' in text || OccursIn("+0x", text)
    case Nullary(name) => name != "ret" && name != "nop"
    case _ => false
  }

  predicate Listed(inst: Inst) {
    match inst
    case Jump(_, to) => to.Address?
    case Test(_, _, to) => to.Address?
    case Adrp(_, page) => page.Address?
    case Adr(_, at) => at.Address?
    case _ => true
  }

  /** Of the lines of a listing exactly those are refused. */
  lemma RefusedExactly(at: HexText, inst: Inst)
    requires Listed(inst)
    ensures Accepted(Insn(at, inst)) <==> !Refused(inst)
  {
    if inst.Op? {
      OffsetMarkOccurs(inst.text);
    }
  }

  /** The local symbols are the symbols of the printed headers. */
  lemma {:induction false} LocalSymbolsArePrinted(es: seq<Entry>, sym: string)
    requires AllAccepted(es)
    ensures sym in HeadersAll(es) <==> Def(sym) in EmittedAll(es)
    decreases |es|
  {
    if es != [] {
      LocalSymbolsArePrinted(es[..|es| - 1], sym);
    }
  }

  predicate BranchesByName(line: Line, name: string) {
    line.Code? && line.inst.Jump? && line.inst.to == Symbol(name)
  }

  /** The symbols are those the output branches to by name, before redirection. */
  lemma {:induction false} SymbolsAreBranchedTo(es: seq<Entry>, name: string)
    requires AllAccepted(es)
    ensures (exists line :: line in EmittedAll(es) && BranchesByName(line, name)) <==>
            (exists sym :: sym in ImportsAll(es) && Imported(sym) == name)
    decreases |es|
  {
    if es != [] {
      var before, last := es[..|es| - 1], es[|es| - 1];
      SymbolsAreBranchedTo(before, name);
      assert (exists line :: line in Emitted(last) && BranchesByName(line, name)) <==>
             (exists sym :: sym in EntryImports(last) && Imported(sym) == name) by {
        NamesOfEntry(last, name);
      }
    }
  }

  lemma NamesOfEntry(e: Entry, name: string)
    requires Accepted(e)
    ensures (exists line :: line in Emitted(e) && BranchesByName(line, name)) <==>
            (exists sym :: sym in EntryImports(e) && Imported(sym) == name)
  {
    if EntryImports(e) != [] {
      assert Emitted(e)[0] in Emitted(e) && EntryImports(e)[0] in EntryImports(e);
    }
  }

  // ---- The lists against the symbols that ututna/stub.s provides ----

  const O_STUBS := [
    "abort", "__cxa_begin_catch", "__cxa_end_catch", "__cxa_rethrow", "exit", "fwrite", "setjmp",
    "__sfp_handle_exceptions", "__stack_chk_fail", "_Unwind_Resume"]

  const S_STUBS := [
    "calloc", "cos", "crc32", "fprintf", "fputc", "free", "inflate", "inflateEnd", "inflateInit_", "inflateReset",
    "malloc", "memcmp", "memcpy", "memset", "pow", "realloc", "sin", "sprintf", "sqrt",
    "_ZdaPv", "_ZdlPv", "_Znam", "_Znwm"]

  /** Every redirected name has its stub, except five. */
  lemma StubsCoverLists(sym: string)
    ensures IsUnsafe(sym) <==> sym in O_STUBS || sym in ["fopen", "fread", "fclose", "longjmp"]
    ensures IsStatic(sym) <==> sym in S_STUBS || sym == "memmove"
  {}
}
