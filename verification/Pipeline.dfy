/** One `process` command of the build script: disassembly, refine.py, post.py. */
module Pipeline {
  import opened Assembly
  import opened Refine
  import opened Post
  import opened Sed
  import opened Simulation

  predicate Exported(name: string) { name != "" && name[0] == '@' }

  /** A `.global` line for every name that is given with an `@`. */
  function Globals(names: seq<string>): (lines: seq<Line>)
    ensures forall i :: 0 <= i < |lines| ==> lines[i].Directive?
  {
    if names == [] then []
    else
      var last := names[|names| - 1];
      Globals(names[..|names| - 1]) + if Exported(last) then [Directive(".global " + last[1..])] else []
  }

  /** What the script writes in front of the assembly. */
  function Prelude(names: seq<string>): seq<Line> {
    [Directive(".text")] + Globals(names) + [Directive(".align 3")]
  }

  /** The names behind the `@`s: `at[k]` says where the `k`th of them stands. */
  ghost predicate ExportedAt(names: seq<string>, at: seq<nat>, lines: seq<Line>) {
    && |at| == |lines|
    && (forall k :: 0 <= k < |at| ==> at[k] < |names| && exists s :: names[at[k]] == "@" + s && lines[k] == Directive(".global " + s))
    && (forall j, k :: 0 <= j < k < |at| ==> at[j] < at[k])
    && (forall i :: 0 <= i < |names| && |names[i]| > 0 && names[i][0] == '@' ==> i in at)
  }

  lemma {:induction false} GlobalsInOrder(names: seq<string>) returns (at: seq<nat>)
    ensures ExportedAt(names, at, Globals(names))
  {
    if names == [] {
      at := [];
    } else {
      var n := |names| - 1;
      var before := GlobalsInOrder(names[..n]);
      at := before + if Exported(names[n]) then [n] else [];
      var lines := Globals(names);
      forall k | 0 <= k < |at|
        ensures at[k] < |names| && exists s :: names[at[k]] == "@" + s && lines[k] == Directive(".global " + s)
      {
        if k < |before| {
          assert names[..n][before[k]] == names[before[k]];
        } else {
          assert names[n] == "@" + names[n][1..];
        }
      }
      forall i | 0 <= i < |names| && |names[i]| > 0 && names[i][0] == '@' ensures i in at {
        if i < n {
          assert names[..n][i] == names[i];
        }
      }
    }
  }

  /** Between `.text` and `.align 3` there is one `.global` line for each name given with an `@`, in
      the order of the names, and nothing else. */
  lemma PreludeExportsInOrder(names: seq<string>) returns (at: seq<nat>)
    ensures |Prelude(names)| >= 2 && Prelude(names)[0] == Directive(".text") && Prelude(names)[|Prelude(names)| - 1] == Directive(".align 3")
    ensures ExportedAt(names, at, Prelude(names)[1..|Prelude(names)| - 1])
  {
    at := GlobalsInOrder(names);
    assert Prelude(names)[1..|Prelude(names)| - 1] == Globals(names);
  }

  /** A symbol is exported exactly when it is given with an `@`. */
  lemma {:induction false} ExportedExactly(names: seq<string>, s: string)
    ensures Directive(".global " + s) in Globals(names) <==> "@" + s in names
  {
    if names != [] {
      var n := |names| - 1;
      ExportedExactly(names[..n], s);
      assert names == names[..n] + [names[n]];
      if Exported(names[n]) {
        assert names[n] == "@" + names[n][1..];
        SameDirective(names[n][1..], s);
      }
    }
  }

  lemma SameDirective(s: string, s': string)
    ensures Directive(".global " + s) == Directive(".global " + s') <==> s == s'
    ensures "@" + s == "@" + s' <==> s == s'
  {
    assert (".global " + s)[8..] == s && (".global " + s')[8..] == s';
    assert ("@" + s)[1..] == s && ("@" + s')[1..] == s';
  }

  lemma ExportedInPrelude(names: seq<string>, s: string)
    ensures Directive(".global " + s) in Prelude(names) <==> "@" + s in names
  {
    ExportedExactly(names, s);
    assert (".global " + s)[1] != ".text"[1] && (".global " + s)[1] != ".align 3"[1];
  }

  method WritePrelude(names: seq<string>) returns (lines: seq<Line>)
    ensures lines == Prelude(names)
  {
    lines := [Directive(".text")];
    for k := 0 to |names|
      invariant lines == [Directive(".text")] + Globals(names[..k])
    {
      assert names[..k + 1][..k] == names[..k];
      if Exported(names[k]) {
        lines := lines + [Directive(".global " + names[k][1..])];
      }
    }
    assert names[..|names|] == names;
    lines := lines + [Directive(".align 3")];
  }

  /** The written text is post.py's rewrite of the prelude and what refine.py printed, also when
      refine.py gave up after `passed` lines; for an accepted listing it is the translation of its
      kept lines between the prelude and the include line. */
  method Process(entries: seq<Entry>, names: seq<string>, name: string) returns (ok: bool, passed: nat, text: seq<Line>)
    ensures passed <= |entries| && AllAccepted(entries[..passed])
    ensures ok <==> passed == |entries|
    ensures !ok ==> !Accepted(entries[passed])
    ensures var printed := Prelude(names) + EmittedAll(entries[..passed]);
            text == ApplyAll(printed, AllRules(printed)) + Appended(name)
    ensures ok && Readable(Kept(entries)) ==> text == Prelude(names) + Translated(Kept(entries)) + Appended(name)
  {
    var pre := WritePrelude(names);
    var translator := new Translator();
    ok := translator.Run(entries);
    passed := translator.lineno - 1;
    var file := WriteFile(pre + translator.output);
    var _, all := Sed.Process(file, name);
    text := all;
    if ok && Readable(Kept(entries)) {
      assert entries[..passed] == entries;
      AcceptedIsTranslated(entries, names);
    }
  }

  method WriteFile(lines: seq<Line>) returns (file: array<Line>)
    ensures fresh(file) && file[..] == lines
  {
    file := new Line[|lines|](i requires 0 <= i < |lines| => lines[i]);
  }

  lemma AcceptedIsTranslated(entries: seq<Entry>, names: seq<string>)
    requires AllAccepted(entries) && Readable(Kept(entries))
    ensures var printed := Prelude(names) + EmittedAll(entries);
            ApplyAll(printed, AllRules(printed)) == Prelude(names) + Translated(Kept(entries))
  {
    var pre, lines := Prelude(names), EmittedAll(entries);
    TranslatedLineByLine(entries);
    LabelsStayUnique(Kept(entries));
    assert UniqueLabels(pre + lines);
    AnyOrderRewrites(pre + lines, AllRules(pre + lines));
    PreludeIsInert(pre, lines);
  }

  // ---- Directives in front do not disturb the scan ----

  predicate Inert(pre: seq<Line>) {
    forall i :: 0 <= i < |pre| ==> pre[i].Directive?
  }

  lemma ShownBehind(pre: seq<Line>, lines: seq<Line>, i: nat)
    requires Inert(pre) && i < |lines|
    ensures Shown(pre + lines, |pre| + i) <==> Shown(lines, i)
  {
    var all, n := pre + lines, |pre|;
    if Shown(all, n + i) {
      var j :| 0 <= j <= n + i && n + i <= j + 7 && MentionsAdrp(all[j]);
      assert j >= n && MentionsAdrp(lines[j - n]);
    }
    if Shown(lines, i) {
      var j :| 0 <= j <= i && i <= j + 7 && MentionsAdrp(lines[j]);
      assert MentionsAdrp(all[n + j]);
    }
  }

  lemma PairedMovesBack(pre: seq<Line>, lines: seq<Line>, a: nat, u: nat)
    requires Inert(pre) && Paired(lines, a, u)
    ensures Paired(pre + lines, |pre| + a, |pre| + u)
  {
    var all, n, r := pre + lines, |pre|, lines[a].inst.rd;
    assert all[n + a] == lines[a] && all[n + u] == lines[u];
    forall k | n + a < k < n + u ensures !Opens(all[k], r) && !Uses(all[k], r) {
      assert all[k] == lines[k - n];
    }
    forall k | n + a <= k <= n + u ensures Shown(all, k) {
      ShownBehind(pre, lines, k - n);
    }
  }

  lemma PairedMovesUp(pre: seq<Line>, lines: seq<Line>, a: nat, u: nat)
    requires Inert(pre) && Paired(pre + lines, |pre| + a, |pre| + u)
    ensures Paired(lines, a, u)
  {
    var all, n, r := pre + lines, |pre|, lines[a].inst.rd;
    assert all[n + a] == lines[a] && all[n + u] == lines[u];
    forall k | a < k < u ensures !Opens(lines[k], r) && !Uses(lines[k], r) {
      assert all[n + k] == lines[k] && !Opens(all[n + k], r);
    }
    forall k | a <= k <= u ensures Shown(lines, k) {
      assert Shown(all, n + k);
      ShownBehind(pre, lines, k);
    }
  }

  lemma NoPairInFront(pre: seq<Line>, lines: seq<Line>, a: nat, u: nat)
    requires Inert(pre) && Paired(pre + lines, a, u)
    ensures |pre| <= a
  {}

  predicate SamePartner(p: Option<Pair>, q: Option<Pair>) {
    p.Some? == q.Some? && (p.Some? ==> p.value.target == q.value.target)
  }

  lemma Found(lines: seq<Line>, a: nat, u: nat)
    requires Paired(lines, a, u)
    ensures AdrpPair(Pairs(lines), a).Some? && UsePair(Pairs(lines), u).Some?
    ensures AdrpPair(Pairs(lines), a).value.target == PageOf(lines[a]) + Displacement(lines[u])
    ensures UsePair(Pairs(lines), u).value.target == PageOf(lines[a]) + Displacement(lines[u])
  {
    var pairs := Pairs(lines);
    PairsExactly(lines);
    assert HasPair(pairs, a, u);
    var k :| 0 <= k < |pairs| && pairs[k].a == a && pairs[k].u == u;
    assert pairs[k] in pairs;
    LookupSpec(pairs, a);
    LookupSpec(pairs, u);
    PairsAreSeparate(lines);
    PairedOnce(lines, AdrpPair(pairs, a).value.a, AdrpPair(pairs, a).value.u, a, u);
    PairedOnce(lines, UsePair(pairs, u).value.a, UsePair(pairs, u).value.u, a, u);
  }

  lemma NotFound(lines: seq<Line>, i: nat)
    ensures AdrpPair(Pairs(lines), i).Some? ==> exists u: nat :: Paired(lines, i, u)
    ensures UsePair(Pairs(lines), i).Some? ==> exists a: nat :: Paired(lines, a, i)
  {
    PairsAreSeparate(lines);
    LookupSpec(Pairs(lines), i);
  }

  lemma SamePair(lines: seq<Line>, all: seq<Line>, a: nat, u: nat, b: nat, v: nat)
    requires Paired(lines, a, u) && Paired(all, b, v) && all[b] == lines[a] && all[v] == lines[u]
    ensures SamePartner(AdrpPair(Pairs(all), b), AdrpPair(Pairs(lines), a))
    ensures SamePartner(UsePair(Pairs(all), v), UsePair(Pairs(lines), u))
  {
    Found(lines, a, u);
    Found(all, b, v);
  }

  /** The pair a line has behind the prelude is its pair without it, moved. */
  lemma AdrpBehind(pre: seq<Line>, lines: seq<Line>, all: seq<Line>, i: nat)
    requires Inert(pre) && all == pre + lines && i < |lines|
    ensures SamePartner(AdrpPair(Pairs(all), |pre| + i), AdrpPair(Pairs(lines), i))
  {
    var at := |pre| + i;
    if u: nat :| Paired(lines, i, u) {
      PairedMovesBack(pre, lines, i, u);
      SamePair(lines, all, i, u, |pre| + i, |pre| + u);
    } else {
      forall v: nat ensures !Paired(all, at, v) {
        if Paired(all, at, v) {
          PairedMovesUp(pre, lines, i, v - |pre|);
        }
      }
      NotFound(lines, i);
      NotFound(all, at);
    }
  }

  lemma UseBehind(pre: seq<Line>, lines: seq<Line>, all: seq<Line>, i: nat)
    requires Inert(pre) && all == pre + lines && i < |lines|
    ensures SamePartner(UsePair(Pairs(all), |pre| + i), UsePair(Pairs(lines), i))
  {
    var at := |pre| + i;
    if a: nat :| Paired(lines, a, i) {
      PairedMovesBack(pre, lines, a, i);
      SamePair(lines, all, a, i, |pre| + a, |pre| + i);
    } else {
      forall b: nat ensures !Paired(all, b, at) {
        if Paired(all, b, at) {
          NoPairInFront(pre, lines, b, at);
          PairedMovesUp(pre, lines, b - |pre|, i);
        }
      }
      NotFound(lines, i);
      NotFound(all, at);
    }
  }

  lemma PreludeIsInert(pre: seq<Line>, lines: seq<Line>)
    requires Inert(pre)
    ensures Rewrite(pre + lines, Pairs(pre + lines)) == pre + Rewrite(lines, Pairs(lines))
  {
    var n, all := |pre|, pre + lines;
    var out, out' := Rewrite(all, Pairs(all)), pre + Rewrite(lines, Pairs(lines));
    forall i | 0 <= i < |all| ensures out[i] == out'[i] {
      if i < n {
        DirectiveStays(all[i], AdrpPair(Pairs(all), i), UsePair(Pairs(all), i));
      } else {
        AdrpBehind(pre, lines, all, i - n);
        UseBehind(pre, lines, all, i - n);
        SameTargets(lines[i - n], AdrpPair(Pairs(all), i), UsePair(Pairs(all), i), AdrpPair(Pairs(lines), i - n), UsePair(Pairs(lines), i - n));
      }
    }
  }

  lemma DirectiveStays(line: Line, adrp: Option<Pair>, use: Option<Pair>)
    requires line.Directive?
    ensures Resolved(line, adrp, use) == line
  {}

  lemma SameTargets(line: Line, adrp: Option<Pair>, use: Option<Pair>, adrp': Option<Pair>, use': Option<Pair>)
    requires SamePartner(adrp, adrp') && SamePartner(use, use')
    ensures Resolved(line, adrp, use) == Resolved(line, adrp', use')
  {}
}
