/** What the regular expressions of post.py match, said on whole files: which lines come out changed,
    and into what. */
module Patterns {
  import opened Numerals
  import opened Assembly
  import opened Post
  import opened Sed

  /** `[x|d|q][0-9]+` */
  predicate Recognised(view: View, r: Reg) {
    (view == XView || view == DView || view == QView) && (r.X? || r.V?)
  }

  function PageLine(at: HexText, r: Reg, page: HexText): Line { Code(at, Adrp(r, Hole(page))) }

  /** Nothing to do with register `r`: neither a page for it nor an address formed from it. */
  predicate Idle(line: Line, r: Reg) {
    line.Code? ==>
      match line.inst
      case Adrp(rd, _) => rd != r
      case Add(_, _, rn, _) => rn != r
      case Ldr(_, _, rn, _) => rn != r
      case LdrBare(_, _, rn) => rn != r
      case _ => true
  }

  /** An adrp on line `a`, and line `u` within the seven lines grep shows behind it, with nothing in
      between that has to do with the register. */
  predicate Opened(lines: seq<Line>, a: nat, u: nat, at: HexText, r: Reg, page: HexText) {
    && a < u < |lines| && u <= a + 7
    && (r.X? || r.V?)
    && lines[a] == PageLine(at, r, page)
    && forall k :: a < k < u ==> Idle(lines[k], r)
  }

  lemma OpenedPairs(lines: seq<Line>, a: nat, u: nat, at: HexText, r: Reg, page: HexText)
    requires Opened(lines, a, u, at, r, page) && Uses(lines[u], r)
    ensures Paired(lines, a, u)
  {
    assert MentionsAdrp(lines[a]);
    forall k | a <= k <= u ensures Shown(lines, k) {
    }
  }

  lemma OutputOfPair(lines: seq<Line>, a: nat, u: nat, target: HexText)
    requires Paired(lines, a, u) && target == PrintHex(PageOf(lines[a]) + Displacement(lines[u]))
    ensures var out := Rewrite(lines, Pairs(lines));
            && out[a] == lines[a].(inst := Adrp(lines[a].inst.rd, Label(target)))
            && (UseOf(lines[u]).OffsetUse? ==> lines[u].inst.Add? || lines[u].inst.Ldr?)
            && out[u] == if UseOf(lines[u]).OffsetUse? then lines[u].(inst := lines[u].inst.(imm := Lo12(target))) else lines[u]
  {
    var pairs := Pairs(lines);
    PairsExactly(lines);
    PairsAreSeparate(lines);
    LookupSpec(pairs, a);
    LookupSpec(pairs, u);
    assert HasPair(pairs, a, u);
    PairedOnce(lines, AdrpPair(pairs, a).value.a, AdrpPair(pairs, a).value.u, a, u);
    PairedOnce(lines, UsePair(pairs, u).value.a, UsePair(pairs, u).value.u, a, u);
  }

  /** L57fc0: ldr x23, [x23,#2912] */
  lemma LoadIsResolved(lines: seq<Line>, a: nat, u: nat, at: HexText, r: Reg, page: HexText,
                       at': HexText, view: View, rt: Reg, d: DecText)
    requires Opened(lines, a, u, at, r, page)
    requires lines[u] == Code(at', Ldr(view, rt, r, Dec(d))) && Recognised(view, rt)
    ensures var target := PrintHex(Address16(page) + ValueOf(d, 10));
            && Rewrite(lines, Pairs(lines))[a] == Code(at, Adrp(r, Label(target)))
            && Rewrite(lines, Pairs(lines))[u] == Code(at', Ldr(view, rt, r, Lo12(target)))
  {
    OpenedPairs(lines, a, u, at, r, page);
    OutputOfPair(lines, a, u, PrintHex(Address16(page) + ValueOf(d, 10)));
  }

  /** L56e40: add x9, x9, #0x8d8 */
  lemma AddIsResolved(lines: seq<Line>, a: nat, u: nat, at: HexText, r: Reg, page: HexText,
                      at': HexText, view: View, rd: Reg, h: HexText)
    requires Opened(lines, a, u, at, r, page)
    requires lines[u] == Code(at', Add(view, rd, r, Hex(h))) && Recognised(view, rd)
    ensures var target := PrintHex(Address16(page) + Address16(h));
            && Rewrite(lines, Pairs(lines))[a] == Code(at, Adrp(r, Label(target)))
            && Rewrite(lines, Pairs(lines))[u] == Code(at', Add(view, rd, r, Lo12(target)))
  {
    OpenedPairs(lines, a, u, at, r, page);
    OutputOfPair(lines, a, u, PrintHex(Address16(page) + Address16(h)));
  }

  /** L445780: ldr d2, [x10] */
  lemma BareLoadIsResolved(lines: seq<Line>, a: nat, u: nat, at: HexText, r: Reg, page: HexText,
                           at': HexText, view: View, rt: Reg)
    requires Opened(lines, a, u, at, r, page)
    requires lines[u] == Code(at', LdrBare(view, rt, r)) && Recognised(view, rt)
    ensures Rewrite(lines, Pairs(lines))[a] == Code(at, Adrp(r, Label(PrintHex(Address16(page)))))
    ensures Rewrite(lines, Pairs(lines))[u] == lines[u]
  {
    OpenedPairs(lines, a, u, at, r, page);
    OutputOfPair(lines, a, u, PrintHex(Address16(page)));
  }

  /** A load or add into a register that the patterns do not know. */
  predicate Unrecognised(line: Line) {
    && line.Code?
    && match line.inst
       case Add(view, rd, _, _) => !Recognised(view, rd)
       case Ldr(view, rt, _, _) => !Recognised(view, rt)
       case LdrBare(view, rt, _) => !Recognised(view, rt)
       case _ => false
  }

  function Without(lines: seq<Line>, u: nat): (out: seq<Line>)
    requires u < |lines|
    ensures |out| == |lines|
  {
    lines[u := Directive("")]
  }

  lemma {:induction false} SameGrep(lines: seq<Line>, u: nat, n: nat)
    requires u < |lines| && Unrecognised(lines[u]) && n <= |lines|
    ensures Grep(Without(lines, u), n) == Grep(lines, n)
    decreases n
  {
    if n > 0 {
      SameGrep(lines, u, n - 1);
      SameShown(lines, u, n - 1);
      if n > 1 {
        SameShown(lines, u, n - 2);
      }
    }
  }

  lemma SameShown(lines: seq<Line>, u: nat, i: nat)
    requires u < |lines| && Unrecognised(lines[u]) && i < |lines|
    ensures Shown(Without(lines, u), i) == Shown(lines, i)
  {
    var out := Without(lines, u);
    assert forall j :: 0 <= j < |lines| ==> MentionsAdrp(out[j]) == MentionsAdrp(lines[j]);
  }

  lemma SameRead(lines: seq<Line>, u: nat, s: Scan, i: nat)
    requires u < |lines| && Unrecognised(lines[u]) && i < |lines|
    requires PendingOk(lines, s.pending) && PendingOk(Without(lines, u), s.pending)
    ensures Read(Without(lines, u), s, i) == Read(lines, s, i)
  {}

  lemma {:induction false} SameScan(lines: seq<Line>, u: nat, items: seq<Item>)
    requires u < |lines| && Unrecognised(lines[u])
    requires forall k :: 0 <= k < |items| && items[k].Text? ==> items[k].i < |lines|
    ensures ReadAll(Without(lines, u), items) == ReadAll(lines, items)
    decreases |items|
  {
    if items != [] {
      var last := |items| - 1;
      SameScan(lines, u, items[..last]);
      if items[last].Text? {
        SameRead(lines, u, ReadAll(lines, items[..last]), items[last].i);
      }
    }
  }

  /** Such a line is as good as a blank one: the pairs are those without it, and it is in none, so
      it stays as it is. */
  lemma UnrecognisedIsIgnored(lines: seq<Line>, u: nat)
    requires u < |lines| && Unrecognised(lines[u])
    ensures Pairs(Without(lines, u)) == Pairs(lines)
    ensures Rewrite(lines, Pairs(lines)) == Rewrite(Without(lines, u), Pairs(lines))[u := lines[u]]
  {
    SameGrep(lines, u, |lines|);
    SameScan(lines, u, Grep(lines, |lines|));
    var pairs := Pairs(lines);
    PairsAreSeparate(lines);
    LookupSpec(pairs, u);
    var out, out' := Rewrite(lines, pairs), Rewrite(Without(lines, u), pairs)[u := lines[u]];
    forall i | 0 <= i < |lines| ensures out[i] == out'[i] {
    }
  }

  /** More than seven lines behind an adrp, with no other adrp in between, a use comes too late. */
  lemma LateUseIsMissed(lines: seq<Line>, a: nat, at: HexText, r: Reg, page: HexText)
    requires a < |lines| && lines[a] == PageLine(at, r, page)
    requires forall k :: a < k <= a + 8 && k < |lines| ==> !(lines[k].Code? && lines[k].inst.Adrp?)
    requires forall k :: a < k <= a + 7 && k < |lines| ==> Idle(lines[k], r)
    ensures Rewrite(lines, Pairs(lines))[a] == lines[a]
  {
    LookupSpec(Pairs(lines), a);
    PairsAreSeparate(lines);
    forall u | a < u <= a + 7 && u < |lines| ensures !Uses(lines[u], r) {
      assert Idle(lines[u], r);
    }
    assert a + 8 < |lines| ==> !Shown(lines, a + 8);
    forall u: nat ensures !Paired(lines, a, u) {
      assert u > a + 8 && u < |lines| ==> a <= a + 8 < u;
    }
  }
}
