/** post.py, second half: the collected substitutions are applied to the file in place, one
    after another, each to every line. */
module Sed {
  import opened Numerals
  import opened Assembly
  import opened Post

  /** An immediate as it stands behind the `#`; a rewritten one matches no rule. */
  function Spelled(imm: Imm): string {
    match imm
    case Hex(h) => "0x" + h
    case Dec(d) => d
    case Lo12(text) => ":lo12:L" + text
  }

  /** `s/#<was>/#:lo12:L<target>/`: where the operand begins with the old text, that part is
      replaced and the rest is kept. */
  function SubstituteImm(was: Imm, target: string, imm: Imm): Imm {
    var from, text := Spelled(was), Spelled(imm);
    if !was.Lo12? && !imm.Lo12? && from <= text then Lo12(target + text[|from|..]) else imm
  }

  function Substitute(rule: Rule, line: Line): Line {
    match (rule, line)
    case (PageRule(at, page, target), Code(l, Adrp(rd, Hole(p)))) =>
      if l == at && page <= p then Code(l, Adrp(rd, Label(target + p[|page|..]))) else line
    case (ImmRule(at, imm, target), Code(l, Add(view, rd, rn, i))) =>
      if l == at then Code(l, Add(view, rd, rn, SubstituteImm(imm, target, i))) else line
    case (ImmRule(at, imm, target), Code(l, Ldr(view, rt, rn, i))) =>
      if l == at then Code(l, Ldr(view, rt, rn, SubstituteImm(imm, target, i))) else line
    case _ => line
  }

  function OnEveryLine(rule: Rule, lines: seq<Line>): (out: seq<Line>)
    ensures |out| == |lines|
  {
    seq(|lines|, i requires 0 <= i < |lines| => Substitute(rule, lines[i]))
  }

  function ApplyAll(lines: seq<Line>, rules: seq<Rule>): (out: seq<Line>)
    ensures |out| == |lines|
  {
    if rules == [] then lines else OnEveryLine(rules[|rules| - 1], ApplyAll(lines, rules[..|rules| - 1]))
  }

  /** One `sed -i`. */
  method ApplyRule(file: array<Line>, rule: Rule)
    modifies file
    ensures file[..] == OnEveryLine(rule, old(file[..]))
  {
    for i := 0 to file.Length
      invariant forall j :: 0 <= j < i ==> file[j] == Substitute(rule, old(file[j]))
      invariant forall j :: i <= j < file.Length ==> file[j] == old(file[j])
    {
      file[i] := Substitute(rule, file[i]);
    }
  }

  method ApplyRules(file: array<Line>, rules: seq<Rule>)
    modifies file
    ensures file[..] == ApplyAll(old(file[..]), rules)
  {
    for k := 0 to |rules|
      invariant file[..] == ApplyAll(old(file[..]), rules[..k])
    {
      ApplyRule(file, rules[k]);
      assert rules[..k + 1][..k] == rules[..k];
    }
    assert rules[..|rules|] == rules;
  }

  // ---- One simultaneous rewrite ----

  function AdrpPair(pairs: seq<Pair>, i: nat): Option<Pair> {
    if pairs == [] then None
    else if pairs[|pairs| - 1].a == i then Some(pairs[|pairs| - 1])
    else AdrpPair(pairs[..|pairs| - 1], i)
  }

  function UsePair(pairs: seq<Pair>, i: nat): Option<Pair> {
    if pairs == [] then None
    else if pairs[|pairs| - 1].u == i then Some(pairs[|pairs| - 1])
    else UsePair(pairs[..|pairs| - 1], i)
  }

  /** The line with the operand that its pair, if it has one, gives it. */
  function Resolved(line: Line, adrp: Option<Pair>, use: Option<Pair>): Line {
    if adrp.Some? && OpensPage(line) then
      line.(inst := Adrp(line.inst.rd, Label(PrintHex(adrp.value.target))))
    else if use.Some? && UseOf(line).OffsetUse? then
      var imm := Lo12(PrintHex(use.value.target));
      match line.inst
      case Add(view, rd, rn, _) => line.(inst := Add(view, rd, rn, imm))
      case Ldr(view, rt, rn, _) => line.(inst := Ldr(view, rt, rn, imm))
    else line
  }

  function Rewrite(lines: seq<Line>, pairs: seq<Pair>): (out: seq<Line>)
    ensures |out| == |lines|
  {
    seq(|lines|, i requires 0 <= i < |lines| => Resolved(lines[i], AdrpPair(pairs, i), UsePair(pairs, i)))
  }

  predicate UniqueLabels(lines: seq<Line>) {
    forall i, j :: 0 <= i < j < |lines| && lines[i].Code? && lines[j].Code? ==> lines[i].at != lines[j].at
  }

  /** Every line belongs to at most one pair, in one role. */
  predicate Separate(pairs: seq<Pair>) {
    && (forall p, q :: p in pairs && q in pairs ==> p.a != q.u)
    && (forall j, k :: 0 <= j < k < |pairs| ==> pairs[j].a != pairs[k].a && pairs[j].u != pairs[k].u)
  }

  lemma PairsAreSeparate(lines: seq<Line>)
    ensures forall p :: p in Pairs(lines) ==> PairShape(lines, p) && Paired(lines, p.a, p.u)
    ensures Separate(Pairs(lines))
  {
    PairsExactly(lines);
    var pairs := Pairs(lines);
    forall p | p in pairs ensures PairShape(lines, p) && Paired(lines, p.a, p.u) {
      assert HasPair(pairs, p.a, p.u);
    }
    forall p, q | p in pairs && q in pairs ensures p.a != q.u {
      PairedOnce(lines, p.a, p.u, q.a, q.u);
    }
    forall j, k | 0 <= j < k < |pairs| ensures pairs[j].a != pairs[k].a && pairs[j].u != pairs[k].u {
      PairedOnce(lines, pairs[j].a, pairs[j].u, pairs[k].a, pairs[k].u);
    }
  }

  lemma {:induction false} LookupSpec(pairs: seq<Pair>, i: nat)
    ensures AdrpPair(pairs, i).Some? <==> exists p :: p in pairs && p.a == i
    ensures UsePair(pairs, i).Some? <==> exists p :: p in pairs && p.u == i
    ensures AdrpPair(pairs, i).Some? ==> AdrpPair(pairs, i).value in pairs && AdrpPair(pairs, i).value.a == i
    ensures UsePair(pairs, i).Some? ==> UsePair(pairs, i).value in pairs && UsePair(pairs, i).value.u == i
  {
    if pairs != [] {
      LookupSpec(pairs[..|pairs| - 1], i);
    }
  }

  // ---- The effect on a single line ----

  function OnOneLine(rules: seq<Rule>, line: Line): Line {
    if rules == [] then line else Substitute(rules[|rules| - 1], OnOneLine(rules[..|rules| - 1], line))
  }

  lemma {:induction false} LineByLine(lines: seq<Line>, rules: seq<Rule>, i: nat)
    requires i < |lines|
    ensures ApplyAll(lines, rules)[i] == OnOneLine(rules, lines[i])
  {
    if rules != [] {
      LineByLine(lines, rules[..|rules| - 1], i);
    }
  }

  lemma {:induction false} OnOneLineAppend(rules: seq<Rule>, more: seq<Rule>, line: Line)
    ensures OnOneLine(rules + more, line) == OnOneLine(more, OnOneLine(rules, line))
  {
    if more == [] {
      assert rules + more == rules;
    } else {
      var all, n := rules + more, |more| - 1;
      assert all[..|all| - 1] == rules + more[..n] && all[|all| - 1] == more[n];
      OnOneLineAppend(rules, more[..n], line);
    }
  }

  lemma SubstituteOtherLine(rule: Rule, line: Line)
    requires line.Code? ==> line.at != rule.at
    ensures Substitute(rule, line) == line
  {}

  lemma {:induction false} OnOtherLine(rules: seq<Rule>, line: Line)
    requires forall r :: r in rules && line.Code? ==> line.at != r.at
    ensures OnOneLine(rules, line) == line
  {
    if rules != [] {
      OnOtherLine(rules[..|rules| - 1], line);
      SubstituteOtherLine(rules[|rules| - 1], line);
    }
  }

  lemma OneRule(rule: Rule, line: Line)
    ensures OnOneLine([rule], line) == Substitute(rule, line)
  {
    assert [rule][..0] == [];
  }

  lemma OneOrTwoRules(rules: seq<Rule>, line: Line)
    requires 1 <= |rules| <= 2
    ensures OnOneLine(rules, line) == if |rules| == 1 then Substitute(rules[0], line) else Substitute(rules[1], Substitute(rules[0], line))
  {
    OneRule(rules[0], line);
    if |rules| == 1 {
      assert rules == [rules[0]];
    } else {
      assert rules[..1] == [rules[0]];
    }
  }

  /** On the line it was made for, a rule replaces the operand as a whole. */
  lemma WholePage(line: Line, target: HexText)
    requires OpensPage(line)
    ensures Substitute(PageRule(line.at, line.inst.page.text, target), line) ==
            line.(inst := Adrp(line.inst.rd, Label(target)))
  {
    var page := line.inst.page.text;
    assert page[|page|..] == "" && target + "" == target;
  }

  lemma WholeImm(imm: Imm, target: HexText)
    requires !imm.Lo12?
    ensures SubstituteImm(imm, target, imm) == Lo12(target)
  {
    var text := Spelled(imm);
    assert text[|text|..] == "" && target + "" == target;
  }

  /** On another line with the same label it would replace what the operand begins with: `#8` in
      `#88`, and the `#0` of every hexadecimal operand. */
  lemma OnlyTheBeginningGoes(target: string)
    ensures SubstituteImm(Dec("8"), target, Dec("88")) == Lo12(target + "8")
    ensures SubstituteImm(Dec("0"), target, Hex("8d8")) == Lo12(target + "x8d8")
    ensures SubstituteImm(Hex("8"), target, Dec("8")) == Dec("8")
  {
    assert "88"[1..] == "8" && "88"[..1] == "8";
    assert "0x" + "8d8" == "0x8d8" && "0x8d8"[1..] == "x8d8" && "0x8d8"[..1] == "0";
    assert |"0x" + "8"| == 3;
  }

  /** Substituting for one pair on a line that no other pair has touched. */
  lemma OnOwnLine(lines: seq<Line>, p: Pair, i: nat)
    requires UniqueLabels(lines) && i < |lines| && PairShape(lines, p) && p.a != p.u && (i == p.a || i == p.u)
    ensures OnOneLine(RulesOfPair(lines, p), lines[i]) ==
            Resolved(lines[i], if i == p.a then Some(p) else None, if i == p.u then Some(p) else None)
  {
    OneOrTwoRules(RulesOfPair(lines, p), lines[i]);
    assert lines[p.a].at != lines[p.u].at;
    if i == p.a {
      WholePage(lines[i], PrintHex(p.target));
    } else if UseOf(lines[i]).OffsetUse? {
      WholeImm(ImmOf(lines[i]), PrintHex(p.target));
    }
  }

  predicate Untouched(pairs: seq<Pair>, i: nat) {
    forall q :: q in pairs ==> q.a != i && q.u != i
  }

  lemma LookupAppend(pairs: seq<Pair>, p: Pair, i: nat)
    ensures AdrpPair(pairs + [p], i) == if p.a == i then Some(p) else AdrpPair(pairs, i)
    ensures UsePair(pairs + [p], i) == if p.u == i then Some(p) else UsePair(pairs, i)
    ensures Untouched(pairs, i) ==> AdrpPair(pairs, i) == None && UsePair(pairs, i) == None
  {
    assert (pairs + [p])[..|pairs|] == pairs;
    LookupSpec(pairs, i);
  }

  lemma OnePairMore(lines: seq<Line>, pairs: seq<Pair>, p: Pair, i: nat)
    requires UniqueLabels(lines) && i < |lines| && PairShape(lines, p) && p.a != p.u
    requires Untouched(pairs, p.a) && Untouched(pairs, p.u)
    ensures OnOneLine(RulesOfPair(lines, p), Resolved(lines[i], AdrpPair(pairs, i), UsePair(pairs, i))) ==
            Resolved(lines[i], AdrpPair(pairs + [p], i), UsePair(pairs + [p], i))
  {
    LookupAppend(pairs, p, i);
    if i == p.a || i == p.u {
      OnOwnLine(lines, p, i);
    } else {
      OnOtherLine(RulesOfPair(lines, p), Resolved(lines[i], AdrpPair(pairs, i), UsePair(pairs, i)));
    }
  }

  lemma {:induction false} RulesResolveLine(lines: seq<Line>, pairs: seq<Pair>, i: nat)
    requires UniqueLabels(lines) && Separate(pairs) && i < |lines|
    requires forall p :: p in pairs ==> PairShape(lines, p)
    ensures OnOneLine(RulesOf(lines, pairs), lines[i]) == Resolved(lines[i], AdrpPair(pairs, i), UsePair(pairs, i))
  {
    if pairs != [] {
      var before, p := pairs[..|pairs| - 1], pairs[|pairs| - 1];
      RulesResolveLine(lines, before, i);
      assert before + [p] == pairs && p in pairs;
      assert RulesOf(lines, pairs) == RulesOf(lines, before) + RulesOfPair(lines, p);
      OnOneLineAppend(RulesOf(lines, before), RulesOfPair(lines, p), lines[i]);
      OnePairMore(lines, before, p, i);
    }
  }

  /** With unique labels, running the substitutions one after another is one rewrite in which
      every line changes according to its own pair and every other line stays as it was. */
  lemma SequentialIsSimultaneous(lines: seq<Line>, pairs: seq<Pair>)
    requires UniqueLabels(lines) && Separate(pairs)
    requires forall p :: p in pairs ==> PairShape(lines, p)
    ensures ApplyAll(lines, RulesOf(lines, pairs)) == Rewrite(lines, pairs)
  {
    forall i | 0 <= i < |lines|
      ensures ApplyAll(lines, RulesOf(lines, pairs))[i] == Rewrite(lines, pairs)[i]
    {
      LineByLine(lines, RulesOf(lines, pairs), i);
      RulesResolveLine(lines, pairs, i);
    }
  }

  // ---- The order of the rules does not matter ----

  /** No two different rules address the same line. */
  predicate OneRulePerLine(rules: seq<Rule>) {
    forall r, s :: r in rules && s in rules && r.at == s.at ==> r == s
  }

  lemma SubstituteTwice(rule: Rule, line: Line)
    ensures Substitute(rule, Substitute(rule, line)) == Substitute(rule, line)
  {}

  predicate FromText(rules: seq<Rule>) {
    forall r :: r in rules && r.ImmRule? ==> !r.imm.Lo12?
  }

  lemma {:induction false} OneRuleDecides(rules: seq<Rule>, line: Line)
    requires OneRulePerLine(rules) && FromText(rules)
    ensures forall r :: r in rules && line.Code? && r.at == line.at ==> OnOneLine(rules, line) == Substitute(r, line)
    ensures (forall r :: r in rules && line.Code? ==> r.at != line.at) ==> OnOneLine(rules, line) == line
  {
    if rules != [] {
      var before, last := rules[..|rules| - 1], rules[|rules| - 1];
      OneRuleDecides(before, line);
      SubstituteTwice(last, line);
      if line.Code? && last.at == line.at {
        assert last in before || forall r :: r in before ==> r.at != line.at;
      } else {
        SubstituteOtherLine(last, OnOneLine(before, line));
      }
    }
  }

  /** Rule lists with the same rules, in whatever order and however often, do the same. */
  lemma {:induction false} OrderIsIrrelevant(lines: seq<Line>, rules: seq<Rule>, shuffled: seq<Rule>)
    requires OneRulePerLine(rules) && FromText(rules)
    requires forall r :: r in rules <==> r in shuffled
    ensures ApplyAll(lines, rules) == ApplyAll(lines, shuffled)
  {
    forall i | 0 <= i < |lines| ensures ApplyAll(lines, rules)[i] == ApplyAll(lines, shuffled)[i] {
      LineByLine(lines, rules, i);
      LineByLine(lines, shuffled, i);
      OneRuleDecides(rules, lines[i]);
      OneRuleDecides(shuffled, lines[i]);
    }
  }

  lemma {:induction false} RuleHasPair(lines: seq<Line>, pairs: seq<Pair>, r: Rule) returns (p: Pair)
    requires forall q :: q in pairs ==> PairShape(lines, q)
    requires r in RulesOf(lines, pairs)
    ensures p in pairs && r in RulesOfPair(lines, p)
  {
    var last := pairs[|pairs| - 1];
    if r in RulesOfPair(lines, last) {
      p := last;
    } else {
      p := RuleHasPair(lines, pairs[..|pairs| - 1], r);
    }
  }

  lemma SameLineSameRule(lines: seq<Line>, p: Pair, q: Pair, r: Rule, s: Rule)
    requires UniqueLabels(lines) && r.at == s.at
    requires PairShape(lines, p) && Paired(lines, p.a, p.u) && r in RulesOfPair(lines, p)
    requires PairShape(lines, q) && Paired(lines, q.a, q.u) && s in RulesOfPair(lines, q)
    ensures r == s
  {
    var i, j := if r.PageRule? then p.a else p.u, if s.PageRule? then q.a else q.u;
    assert lines[i].at == r.at && lines[j].at == s.at && i == j;
    PairedOnce(lines, p.a, p.u, q.a, q.u);
    PairedOnce(lines, q.a, q.u, p.a, p.u);
    assert p == q;
  }

  lemma OneRulePerPairedLine(lines: seq<Line>, pairs: seq<Pair>)
    requires UniqueLabels(lines)
    requires forall p :: p in pairs ==> PairShape(lines, p) && Paired(lines, p.a, p.u)
    ensures OneRulePerLine(RulesOf(lines, pairs))
  {
    var rules := RulesOf(lines, pairs);
    forall r, s | r in rules && s in rules && r.at == s.at ensures r == s {
      var p := RuleHasPair(lines, pairs, r);
      var q := RuleHasPair(lines, pairs, s);
      SameLineSameRule(lines, p, q, r, s);
    }
  }

  lemma ImmsAreText(lines: seq<Line>, pairs: seq<Pair>)
    requires forall p :: p in pairs ==> PairShape(lines, p)
    ensures FromText(RulesOf(lines, pairs))
  {
    forall r | r in RulesOf(lines, pairs) && r.ImmRule? ensures !r.imm.Lo12? {
      var p := RuleHasPair(lines, pairs, r);
    }
  }

  /** Every rule of the scan. */
  function AllRules(lines: seq<Line>): seq<Rule> {
    PairsAreSeparate(lines);
    RulesOf(lines, Pairs(lines))
  }

  /** The scan never aims two different rules at one line. */
  lemma RulesAreOnePerLine(lines: seq<Line>)
    requires UniqueLabels(lines)
    ensures OneRulePerLine(AllRules(lines)) && FromText(AllRules(lines))
  {
    PairsAreSeparate(lines);
    OneRulePerPairedLine(lines, Pairs(lines));
    ImmsAreText(lines, Pairs(lines));
  }

  /** Running the rules in any order gives the same one-pass rewrite. */
  lemma AnyOrderRewrites(lines: seq<Line>, shuffled: seq<Rule>)
    requires UniqueLabels(lines)
    requires forall r :: r in AllRules(lines) <==> r in shuffled
    ensures ApplyAll(lines, shuffled) == Rewrite(lines, Pairs(lines))
  {
    RulesAreOnePerLine(lines);
    OrderIsIrrelevant(lines, AllRules(lines), shuffled);
    PairsAreSeparate(lines);
    SequentialIsSimultaneous(lines, Pairs(lines));
  }

  // ---- The whole of post.py ----

  /** `name.replace(".s", ".inc")` */
  function ReplaceExtension(name: string): string {
    if name == "" then ""
    else if |name| >= 2 && name[..2] == ".s" then ".inc" + ReplaceExtension(name[2..])
    else [name[0]] + ReplaceExtension(name[1..])
  }

  lemma {:induction false} ExtensionIsReplaced(stem: string)
    requires '.' !in stem
    ensures ReplaceExtension(stem + ".s") == stem + ".inc"
  {
    var name := stem + ".s";
    if stem == "" {
      assert name[2..] == "";
    } else {
      assert name[..2][0] == stem[0] && name[1..] == stem[1..] + ".s";
      ExtensionIsReplaced(stem[1..]);
    }
  }

  /** The two lines that are appended to a file of this name. */
  function Appended(name: string): seq<Line> {
    [Directive(""), Directive(".include \"" + ReplaceExtension(name) + "\"")]
  }

  lemma LastLineIncludes(name: string)
    ensures |Appended(name)| == 2
    ensures forall stem: string :: '.' !in stem && name == stem + ".s" ==>
              Appended(name)[1] == Directive(".include \"" + stem + ".inc\"")
  {
    forall stem: string | '.' !in stem && name == stem + ".s"
      ensures Appended(name)[1] == Directive(".include \"" + stem + ".inc\"")
    {
      ExtensionIsReplaced(stem);
    }
  }

  /** `name` is the base name of the file; `text` is what the file holds in the end. */
  method Process(file: array<Line>, name: string) returns (count: nat, text: seq<Line>)
    modifies file
    ensures text == ApplyAll(old(file[..]), AllRules(old(file[..]))) + Appended(name)
    ensures UniqueLabels(old(file[..])) ==> text == Rewrite(old(file[..]), Pairs(old(file[..]))) + Appended(name)
    ensures count == RuleCount(old(file[..]), Pairs(old(file[..])))
    ensures |text| == |old(file[..])| + 2
    ensures forall stem: string :: '.' !in stem && name == stem + ".s" ==>
              text[|text| - 1] == Directive(".include \"" + stem + ".inc\"")
  {
    var lines := file[..];
    var scanner := new Scanner();
    scanner.ReadResults(lines, Grep(lines, |lines|));
    ApplyRules(file, scanner.rules);
    PairsAreSeparate(lines);
    if UniqueLabels(lines) {
      SequentialIsSimultaneous(lines, Pairs(lines));
    }
    TwoRulesPerOffsetPair(lines, Pairs(lines));
    count := |scanner.rules|;
    text := file[..] + Appended(name);
    LastLineIncludes(name);
  }

  /** Two rules for a pair with an offset, one for a `[reg]` pair. */
  function RuleCount(lines: seq<Line>, pairs: seq<Pair>): nat {
    2 * |pairs| - BarePairs(lines, pairs)
  }

  function BarePairs(lines: seq<Line>, pairs: seq<Pair>): (n: nat)
    ensures n <= |pairs|
  {
    if pairs == [] then 0
    else
      var p := pairs[|pairs| - 1];
      BarePairs(lines, pairs[..|pairs| - 1]) + if p.u < |lines| && UseOf(lines[p.u]).BareUse? then 1 else 0
  }

  lemma {:induction false} TwoRulesPerOffsetPair(lines: seq<Line>, pairs: seq<Pair>)
    requires forall p :: p in pairs ==> PairShape(lines, p)
    ensures |RulesOf(lines, pairs)| == RuleCount(lines, pairs)
  {
    if pairs != [] {
      assert PairShape(lines, pairs[|pairs| - 1]);
      TwoRulesPerOffsetPair(lines, pairs[..|pairs| - 1]);
    }
  }

  /** The pages still unresolved in the output are exactly the abandoned ones. */
  lemma UnresolvedExactlyAbandoned(lines: seq<Line>, a: nat)
    requires a < |lines|
    ensures OpensPage(Rewrite(lines, Pairs(lines))[a]) <==> Abandoned(lines, a)
  {
    var pairs := Pairs(lines);
    PairsExactly(lines);
    LookupSpec(pairs, a);
    if OpensPage(lines[a]) {
      UnpairedExactlyAbandoned(lines, a);
      if AdrpPair(pairs, a).Some? {
        var p := AdrpPair(pairs, a).value;
        assert HasPair(pairs, a, p.u);
      }
      forall u: nat | Paired(lines, a, u) ensures AdrpPair(pairs, a).Some? {
        assert HasPair(pairs, a, u);
      }
    }
  }
}
