/** post.py: one pass over `grep adrp -A 7` that pairs every adrp with the first use of its
    register, and the list of line substitutions it collects. */
module Post {
  import opened Numerals
  import opened Assembly

  // ---- What the patterns recognise ----

  datatype Use = NoUse | OffsetUse(base: Reg, disp: nat) | BareUse(base: Reg)

  predicate Numbered(r: Reg) { r.X? || r.V? }

  /** The patterns know x, d and q registers only. */
  predicate Matched(view: View) { view.XView? || view.DView? || view.QView? }

  function UseOf(line: Line): Use {
    match line
    case Code(_, Add(view, rd, rn, Hex(h))) =>
      if Matched(view) && Numbered(rd) && Numbered(rn) then OffsetUse(rn, ValueOf(h, 16)) else NoUse
    case Code(_, Ldr(view, rt, rn, Dec(d))) =>
      if Matched(view) && Numbered(rt) && Numbered(rn) then OffsetUse(rn, ValueOf(d, 10)) else NoUse
    case Code(_, LdrBare(view, rt, rn)) =>
      if Matched(view) && Numbered(rt) && Numbered(rn) then BareUse(rn) else NoUse
    case _ => NoUse
  }

  predicate Uses(line: Line, r: Reg) {
    UseOf(line) != NoUse && UseOf(line).base == r
  }

  predicate MentionsAdrp(line: Line) {
    line.Code? && line.inst.Adrp?
  }

  predicate OpensPage(line: Line) {
    MentionsAdrp(line) && line.inst.page.Hole? && Numbered(line.inst.rd)
  }

  predicate Opens(line: Line, r: Reg) {
    OpensPage(line) && line.inst.rd == r
  }

  // ---- grep adrp -A 7 ----

  datatype Item = Separator | Text(i: nat)

  /** A line is shown when it or one of the seven lines before it mentions adrp. */
  predicate Shown(lines: seq<Line>, i: nat)
    requires i < |lines|
  {
    exists j :: 0 <= j <= i && i <= j + 7 && MentionsAdrp(lines[j])
  }

  /** What grep has printed after `n` lines, with `--` between groups that are not adjacent. */
  function Grep(lines: seq<Line>, n: nat): (items: seq<Item>)
    requires n <= |lines|
    ensures forall k :: 0 <= k < |items| && items[k].Text? ==> items[k].i < n
  {
    if n == 0 then []
    else
      var before := Grep(lines, n - 1);
      if !Shown(lines, n - 1) then before
      else if before != [] && !Shown(lines, n - 2) then before + [Separator, Text(n - 1)]
      else before + [Text(n - 1)]
  }

  // ---- The scan ----

  datatype Rule =
    | PageRule(at: HexText, page: HexText, target: HexText)  // /^L<at>:/s/?<page>/L<target>/
    | ImmRule(at: HexText, imm: Imm, target: HexText)        // /^L<at>:/s/#<imm>/#:lo12:L<target>/

  /** The adrp on line `a` and the use on line `u` were paired; together they denote `target`. */
  datatype Pair = Pair(a: nat, u: nat, target: nat)

  datatype Scan = Scan(pending: map<Reg, nat>, pairs: seq<Pair>)

  ghost predicate PendingOk(lines: seq<Line>, pending: map<Reg, nat>) {
    forall r :: r in pending ==> pending[r] < |lines| && Opens(lines[pending[r]], r)
  }

  function PageOf(line: Line): nat
    requires OpensPage(line)
  {
    Address16(line.inst.page.text)
  }

  function Displacement(line: Line): nat {
    var use := UseOf(line);
    if use.OffsetUse? then use.disp else 0
  }

  /** The pair that the use on line `i` completes. */
  function NewPair(lines: seq<Line>, s: Scan, i: nat): (p: Pair)
    requires i < |lines| && PendingOk(lines, s.pending)
    requires UseOf(lines[i]) != NoUse && UseOf(lines[i]).base in s.pending
    ensures PairShape(lines, p)
  {
    var a := s.pending[UseOf(lines[i]).base];
    Pair(a, i, PageOf(lines[a]) + Displacement(lines[i]))
  }

  function Read(lines: seq<Line>, s: Scan, i: nat): (s': Scan)
    requires i < |lines| && PendingOk(lines, s.pending)
    ensures PendingOk(lines, s'.pending)
  {
    var line := lines[i];
    var use := UseOf(line);
    if OpensPage(line) then
      s.(pending := s.pending[line.inst.rd := i])
    else if use != NoUse && use.base in s.pending then
      Scan(s.pending - {use.base}, s.pairs + [NewPair(lines, s, i)])
    else s
  }

  function ReadAll(lines: seq<Line>, items: seq<Item>): (s: Scan)
    requires forall k :: 0 <= k < |items| && items[k].Text? ==> items[k].i < |lines|
    ensures PendingOk(lines, s.pending)
  {
    if items == [] then Scan(map[], [])
    else
      var before := ReadAll(lines, items[..|items| - 1]);
      match items[|items| - 1]
      case Separator => before.(pending := map[])
      case Text(i) => Read(lines, before, i)
  }

  function Pairs(lines: seq<Line>): seq<Pair> {
    ReadAll(lines, Grep(lines, |lines|)).pairs
  }

  function ImmOf(line: Line): Imm
    requires UseOf(line).OffsetUse?
  {
    line.inst.imm
  }

  predicate PairShape(lines: seq<Line>, p: Pair) {
    && p.a < |lines| && OpensPage(lines[p.a])
    && p.u < |lines| && Uses(lines[p.u], lines[p.a].inst.rd)
    && p.target == PageOf(lines[p.a]) + Displacement(lines[p.u])
  }

  function RulesOfPair(lines: seq<Line>, p: Pair): seq<Rule>
    requires PairShape(lines, p)
  {
    var first := PageRule(lines[p.a].at, lines[p.a].inst.page.text, PrintHex(p.target));
    if UseOf(lines[p.u]).BareUse? then [first]
    else [first, ImmRule(lines[p.u].at, ImmOf(lines[p.u]), PrintHex(p.target))]
  }

  function RulesOf(lines: seq<Line>, pairs: seq<Pair>): seq<Rule>
    requires forall p :: p in pairs ==> PairShape(lines, p)
  {
    if pairs == [] then []
    else RulesOf(lines, pairs[..|pairs| - 1]) + RulesOfPair(lines, pairs[|pairs| - 1])
  }

  datatype Group = Group(at: HexText, page: HexText)

  function GroupOf(line: Line): Group
    requires OpensPage(line)
  {
    Group(line.at, line.inst.page.text)
  }

  class Scanner {
    var tmp: map<Reg, Group>
    var rules: seq<Rule>

    constructor ()
      ensures tmp == map[] && rules == []
    {
      tmp, rules := map[], [];
    }

    /** The dictionary and the rule list hold what the scan `s` of `lines` says. */
    ghost predicate Holds(lines: seq<Line>, s: Scan)
      reads this
    {
      && PendingOk(lines, s.pending)
      && tmp.Keys == s.pending.Keys
      && (forall r :: r in s.pending ==> tmp[r] == GroupOf(lines[s.pending[r]]))
      && (forall p :: p in s.pairs ==> PairShape(lines, p))
      && rules == RulesOf(lines, s.pairs)
    }

    method ReadLine(lines: seq<Line>, i: nat, ghost s: Scan)
      requires i < |lines| && Holds(lines, s)
      modifies this
      ensures Holds(lines, Read(lines, s, i))
    {
      var line := lines[i];
      if OpensPage(line) {
        tmp := tmp[line.inst.rd := Group(line.at, line.inst.page.text)];
        return;
      }
      match UseOf(line) {
        case NoUse =>
        case OffsetUse(base, disp) =>
          if base in tmp {
            Resolve(lines, i, s, Address16(tmp[base].page) + disp);
          }
        case BareUse(base) =>
          if base in tmp {
            Resolve(lines, i, s, Address16(tmp[base].page));
          }
      }
    }

    method Resolve(lines: seq<Line>, i: nat, ghost s: Scan, target: nat)
      requires i < |lines| && Holds(lines, s)
      requires UseOf(lines[i]) != NoUse && UseOf(lines[i]).base in tmp
      requires target == NewPair(lines, s, i).target
      modifies this
      ensures Holds(lines, Scan(s.pending - {UseOf(lines[i]).base}, s.pairs + [NewPair(lines, s, i)]))
    {
      RulesAppend(lines, s.pairs, NewPair(lines, s, i));
      var base := UseOf(lines[i]).base;
      var addr := PrintHex(target);
      var added := [PageRule(tmp[base].at, tmp[base].page, addr)];
      if UseOf(lines[i]).OffsetUse? {
        added := added + [ImmRule(lines[i].at, lines[i].inst.imm, addr)];
      }
      assert added == RulesOfPair(lines, NewPair(lines, s, i));
      rules := rules + added;
      tmp := tmp - {base};
    }

    /** The read loop: the rules collected are those of the pairs of the specification. */
    method ReadResults(lines: seq<Line>, results: seq<Item>)
      requires forall k :: 0 <= k < |results| && results[k].Text? ==> results[k].i < |lines|
      requires tmp == map[] && rules == []
      modifies this
      ensures Holds(lines, ReadAll(lines, results))
    {
      var k := 0;
      while k < |results|
        invariant 0 <= k <= |results|
        invariant Holds(lines, ReadAll(lines, results[..k]))
      {
        ghost var before := ReadAll(lines, results[..k]);
        assert results[..k + 1][..k] == results[..k];
        if results[k].Separator? {
          tmp := map[];
        } else {
          ReadLine(lines, results[k].i, before);
        }
        k := k + 1;
      }
      assert results[..k] == results;
    }
  }

  lemma RulesAppend(lines: seq<Line>, pairs: seq<Pair>, p: Pair)
    requires PairShape(lines, p)
    requires forall q :: q in pairs ==> PairShape(lines, q)
    ensures forall q :: q in pairs + [p] ==> PairShape(lines, q)
    ensures RulesOf(lines, pairs + [p]) == RulesOf(lines, pairs) + RulesOfPair(lines, p)
  {
    assert (pairs + [p])[..|pairs|] == pairs;
  }

  // ---- Which pairs the scan finds ----

  /** Nothing on lines strictly between `a` and `n` reopens or uses register `r`. */
  predicate Quiet(lines: seq<Line>, r: Reg, a: nat, n: nat)
    requires n <= |lines|
  {
    forall k :: a < k < n ==> !Opens(lines[k], r) && !Uses(lines[k], r)
  }

  predicate OneGroup(lines: seq<Line>, a: nat, n: nat)
    requires n <= |lines|
  {
    forall k :: a <= k < n ==> Shown(lines, k)
  }

  /** Line `a` opens `r`, is still in the current group, and has met neither rival nor use. */
  predicate OpenUntil(lines: seq<Line>, r: Reg, a: nat, n: nat)
    requires n <= |lines|
  {
    a < n && Opens(lines[a], r) && OneGroup(lines, a, n) && Quiet(lines, r, a, n)
  }

  /** The declarative account of a pair: `u` is the first use of the register that the adrp on
      line `a` sets, no later adrp sets it before, and grep shows both in one group. */
  predicate Paired(lines: seq<Line>, a: nat, u: nat) {
    && a < u < |lines|
    && OpensPage(lines[a])
    && Uses(lines[u], lines[a].inst.rd)
    && OpenUntil(lines, lines[a].inst.rd, a, u)
    && Shown(lines, u)
  }

  ghost predicate PendingIsExact(lines: seq<Line>, n: nat, pending: map<Reg, nat>)
    requires n <= |lines|
  {
    forall r: Reg, a: nat :: IsPending(pending, r, a) <==> OpenUntil(lines, r, a, n)
  }

  predicate IsPending(pending: map<Reg, nat>, r: Reg, a: nat) {
    r in pending && pending[r] == a
  }

  predicate HasPair(pairs: seq<Pair>, a: nat, u: nat) {
    exists k :: 0 <= k < |pairs| && pairs[k].a == a && pairs[k].u == u
  }

  ghost predicate PairsAreExact(lines: seq<Line>, n: nat, pairs: seq<Pair>)
    requires n <= |lines|
  {
    && (forall p :: p in pairs ==> PairShape(lines, p) && p.u < n)
    && (forall a: nat, u: nat :: HasPair(pairs, a, u) <==> u < n && Paired(lines, a, u))
    && (forall j, k :: 0 <= j < k < |pairs| ==> pairs[j].u < pairs[k].u)
  }

  lemma OneLineLater(lines: seq<Line>, r: Reg, a: nat, i: nat)
    requires i < |lines| && Shown(lines, i)
    ensures OpenUntil(lines, r, a, i + 1) <==>
            if a == i then Opens(lines[i], r)
            else OpenUntil(lines, r, a, i) && !Opens(lines[i], r) && !Uses(lines[i], r)
  {}

  lemma ReadPending(lines: seq<Line>, i: nat, s: Scan)
    requires i < |lines| && Shown(lines, i) && PendingOk(lines, s.pending)
    requires PendingIsExact(lines, i, s.pending)
    ensures PendingIsExact(lines, i + 1, Read(lines, s, i).pending)
  {
    var t := Read(lines, s, i);
    forall r: Reg, a: nat
      ensures IsPending(t.pending, r, a) <==> OpenUntil(lines, r, a, i + 1)
    {
      OneLineLater(lines, r, a, i);
      assert IsPending(s.pending, r, a) <==> OpenUntil(lines, r, a, i);
    }
  }

  lemma PairedWasPending(lines: seq<Line>, i: nat, s: Scan, a: nat)
    requires i < |lines| && PendingIsExact(lines, i, s.pending) && Paired(lines, a, i)
    ensures IsPending(s.pending, UseOf(lines[i]).base, a)
  {}

  lemma ReadPairs(lines: seq<Line>, i: nat, s: Scan)
    requires i < |lines| && Shown(lines, i) && PendingOk(lines, s.pending)
    requires PendingIsExact(lines, i, s.pending)
    requires PairsAreExact(lines, i, s.pairs)
    ensures PairsAreExact(lines, i + 1, Read(lines, s, i).pairs)
  {
    var t := Read(lines, s, i);
    forall a: nat, u: nat
      ensures HasPair(t.pairs, a, u) <==> u < i + 1 && Paired(lines, a, u)
    {
      assert HasPair(s.pairs, a, u) <==> u < i && Paired(lines, a, u);
      if t.pairs == s.pairs {
        if u == i && Paired(lines, a, u) {
          PairedWasPending(lines, i, s, a);
        }
      } else {
        var p := NewPair(lines, s, i);
        assert IsPending(s.pending, UseOf(lines[i]).base, p.a);
        HasPairAppend(s.pairs, p, a, u);
        if u == i && Paired(lines, a, u) {
          PairedWasPending(lines, i, s, a);
        }
      }
    }
  }

  lemma HasPairAppend(pairs: seq<Pair>, p: Pair, a: nat, u: nat)
    ensures HasPair(pairs + [p], a, u) <==> HasPair(pairs, a, u) || (p.a == a && p.u == u)
  {
    var more := pairs + [p];
    if HasPair(pairs, a, u) {
      var k :| 0 <= k < |pairs| && pairs[k].a == a && pairs[k].u == u;
      assert more[k] == pairs[k];
    }
    assert more[|pairs|] == p;
  }

  /** What the scan knows when it reaches line `i`: a gap in grep's output has cleared it. */
  function Reached(lines: seq<Line>, i: nat): (s: Scan)
    requires i <= |lines|
    ensures PendingOk(lines, s.pending)
  {
    var s := ReadAll(lines, Grep(lines, i));
    if i > 0 && !Shown(lines, i - 1) then s.(pending := map[]) else s
  }

  lemma ReadShownLine(lines: seq<Line>, i: nat)
    requires i < |lines| && Shown(lines, i)
    ensures ReadAll(lines, Grep(lines, i + 1)) == Read(lines, Reached(lines, i), i)
  {
    var items := Grep(lines, i);
    if items != [] && i > 0 && !Shown(lines, i - 1) {
      var more := items + [Separator];
      assert more[..|items|] == items;
      assert (items + [Separator, Text(i)])[..|more|] == more;
    } else {
      assert (items + [Text(i)])[..|items|] == items;
    }
  }

  lemma {:induction false} ScanIsExact(lines: seq<Line>, n: nat)
    requires n <= |lines|
    ensures PairsAreExact(lines, n, Reached(lines, n).pairs)
    ensures PendingIsExact(lines, n, Reached(lines, n).pending)
  {
    if n > 0 {
      ScanIsExact(lines, n - 1);
      if Shown(lines, n - 1) {
        ShownLineKeepsExact(lines, n - 1);
      } else {
        HiddenLineKeepsExact(lines, n - 1);
      }
    }
  }

  lemma ShownLineKeepsExact(lines: seq<Line>, i: nat)
    requires i < |lines| && Shown(lines, i)
    requires PairsAreExact(lines, i, Reached(lines, i).pairs)
    requires PendingIsExact(lines, i, Reached(lines, i).pending)
    ensures PairsAreExact(lines, i + 1, Reached(lines, i + 1).pairs)
    ensures PendingIsExact(lines, i + 1, Reached(lines, i + 1).pending)
  {
    ReadShownLine(lines, i);
    ReadPending(lines, i, Reached(lines, i));
    ReadPairs(lines, i, Reached(lines, i));
  }

  lemma SamePairsLater(lines: seq<Line>, i: nat, pairs: seq<Pair>)
    requires i < |lines| && !Shown(lines, i)
    requires PairsAreExact(lines, i, pairs)
    ensures PairsAreExact(lines, i + 1, pairs)
  {}

  lemma HiddenLineKeepsExact(lines: seq<Line>, i: nat)
    requires i < |lines| && !Shown(lines, i)
    requires PairsAreExact(lines, i, Reached(lines, i).pairs)
    ensures PairsAreExact(lines, i + 1, Reached(lines, i + 1).pairs)
    ensures PendingIsExact(lines, i + 1, Reached(lines, i + 1).pending)
  {
    SamePairsLater(lines, i, Reached(lines, i).pairs);
    assert Reached(lines, i + 1).pending == map[];
  }

  /** The dictionary scan finds exactly the declarative pairs, in the order of their uses. */
  lemma PairsExactly(lines: seq<Line>)
    ensures PairsAreExact(lines, |lines|, Pairs(lines))
  {
    ScanIsExact(lines, |lines|);
  }

  lemma FirstUseOnly(lines: seq<Line>, a: nat, u: nat, u': nat)
    requires Paired(lines, a, u) && u < u'
    ensures !Paired(lines, a, u')
  {}

  lemma LastAdrpOnly(lines: seq<Line>, a: nat, a': nat, u: nat)
    requires Paired(lines, a', u) && a < a'
    ensures !Paired(lines, a, u)
  {}

  /** No adrp is paired twice, no use is paired twice, and no line is both. */
  lemma PairedOnce(lines: seq<Line>, a: nat, u: nat, a': nat, u': nat)
    requires Paired(lines, a, u) && Paired(lines, a', u')
    ensures a == a' <==> u == u'
    ensures a != u'
  {
    if u < u' {
      FirstUseOnly(lines, a, u, u');
    } else if u' < u {
      FirstUseOnly(lines, a', u', u);
    } else if a < a' {
      LastAdrpOnly(lines, a, a', u);
    } else if a' < a {
      LastAdrpOnly(lines, a', a, u);
    }
  }

  /** Why an adrp stays unresolved: reading on from it, another adrp to the register, the end
      of the group or the end of the file comes before any use. */
  predicate Abandoned(lines: seq<Line>, a: nat) {
    && a < |lines| && OpensPage(lines[a])
    && exists n :: a < n <= |lines| && Forsaken(lines, a, n)
  }

  predicate Forsaken(lines: seq<Line>, a: nat, n: nat)
    requires a < n <= |lines| && OpensPage(lines[a])
  {
    && Quiet(lines, lines[a].inst.rd, a, n)
    && OneGroup(lines, a, n)
    && (n == |lines| || !Shown(lines, n) || Opens(lines[n], lines[a].inst.rd))
  }

  lemma {:induction false} FindFate(lines: seq<Line>, a: nat, n: nat) returns (m: nat)
    requires a < n <= |lines| && OpensPage(lines[a])
    requires Quiet(lines, lines[a].inst.rd, a, n) && OneGroup(lines, a, n)
    ensures n <= m <= |lines|
    ensures Forsaken(lines, a, m) || Paired(lines, a, m)
    decreases |lines| - n
  {
    m := n;
    if n < |lines| && Shown(lines, n) && !Opens(lines[n], lines[a].inst.rd) && !Uses(lines[n], lines[a].inst.rd) {
      m := FindFate(lines, a, n + 1);
    }
  }

  lemma ForsakenIsUnpaired(lines: seq<Line>, a: nat, n: nat, u: nat)
    requires a < n <= |lines| && OpensPage(lines[a]) && Forsaken(lines, a, n)
    ensures !Paired(lines, a, u)
  {}

  /** An adrp goes unpaired exactly when it is abandoned. */
  lemma UnpairedExactlyAbandoned(lines: seq<Line>, a: nat)
    requires a < |lines| && OpensPage(lines[a])
    ensures (forall u: nat :: !Paired(lines, a, u)) <==> Abandoned(lines, a)
  {
    assert Shown(lines, a);
    var m := FindFate(lines, a, a + 1);
    if Abandoned(lines, a) {
      var n :| a < n <= |lines| && Forsaken(lines, a, n);
      forall u: nat {
        ForsakenIsUnpaired(lines, a, n, u);
      }
    }
  }
}
