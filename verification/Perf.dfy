/** ututna/perf.c: the counter table, the header line that `perf_config` accumulates, and the
    rows that `perf_print` emits later and elsewhere. */
module Perf {
  import opened Numerals

  const MAX_COUNTERS := 10
  const VALS := 6
  const TWO_TO_THE_32 := 0x1_0000_0000
  const TWO_TO_THE_64 := 0x1_0000_0000_0000_0000

  /** What is asked of the kernel for one counter. */
  datatype EventKind = Raw | Hardware | HwCache

  datatype Event = Event(kind: EventKind, config: int)

  const PMU_L1D_CACHE := 0x04
  const PMU_L1D_CACHE_REFILL := 0x03
  const PMU_INST_RETIRED := 0x08
  const PMU_CPU_CYCLES := 0x11
  const PMU_L2D_CACHE := 0x16
  const PMU_L2D_CACHE_REFILL := 0x17

  /** What one successful `perf_config` call adds. */
  datatype Group = Predefined(id: nat) | Single(kind: char, event: int)

  type Groups = seq<Group>

  predicate WellFormed(g: Group) { g.Predefined? ==> g.id <= 2 }

  predicate AllWellFormed(gs: Groups) {
    forall i :: 0 <= i < |gs| ==> WellFormed(gs[i])
  }

  function Size(g: Group): nat { if g.Predefined? then 2 else 1 }

  function Total(gs: Groups): nat {
    if gs == [] then 0 else Total(gs[..|gs| - 1]) + Size(gs[|gs| - 1])
  }

  function Scale(g: Group): nat {
    if g.Predefined? then if g.id == 0 then 1 else 100 else 0
  }

  /** The group an accepted call adds, for `n` counters in use. */
  function Accepted(kind: char, event: int, n: nat): Groups {
    if kind == 'i' then
      if n + 2 <= MAX_COUNTERS && 0 <= event <= 2 then [Predefined(event)] else []
    else
      if n + 1 <= MAX_COUNTERS then [Single(kind, event)] else []
  }

  /** The groups of a run of calls, each accepted when there was room for it. */
  function AllAccepted(calls: seq<(char, int)>): Groups {
    if calls == [] then []
    else
      var before, last := AllAccepted(calls[..|calls| - 1]), calls[|calls| - 1];
      before + Accepted(last.0, last.1, Total(before))
  }

  function Events(g: Group): seq<Event> {
    match g
    case Predefined(id) =>
      if id == 0 then [Event(Raw, PMU_INST_RETIRED), Event(Raw, PMU_CPU_CYCLES)]
      else if id == 1 then [Event(Raw, PMU_L1D_CACHE_REFILL), Event(Raw, PMU_L1D_CACHE)]
      else [Event(Raw, PMU_L2D_CACHE_REFILL), Event(Raw, PMU_L2D_CACHE)]
    case Single(kind, event) =>
      [Event(if kind == 'h' then Hardware else if kind == 'c' then HwCache else Raw, event)]
  }

  /** The events of all groups, in the order in which they are asked. */
  function AllEvents(gs: Groups): seq<Event> {
    if gs == [] then [] else AllEvents(gs[..|gs| - 1]) + Events(gs[|gs| - 1])
  }

  lemma EventsAppend(gs: Groups, g: Group)
    ensures AllEvents(gs + [g]) == AllEvents(gs) + Events(g)
  {
    assert (gs + [g])[..|gs|] == gs;
  }

  lemma TotalAppend(gs: Groups, g: Group)
    ensures Total(gs + [g]) == Total(gs) + Size(g)
  {
    assert (gs + [g])[..|gs|] == gs;
  }

  lemma AcceptedFitsOnce(gs: Groups, kind: char, event: int)
    requires Total(gs) <= MAX_COUNTERS && AllWellFormed(gs)
    ensures Total(gs + Accepted(kind, event, Total(gs))) <= MAX_COUNTERS
    ensures AllWellFormed(gs + Accepted(kind, event, Total(gs)))
  {
    var added := Accepted(kind, event, Total(gs));
    if added == [] {
      assert gs + added == gs;
    } else {
      var g := added[0];
      assert added == [g];
      TotalAppend(gs, g);
      OneMoreIsWellFormed(gs, g);
    }
  }

  lemma {:induction false} AcceptedFits(calls: seq<(char, int)>)
    ensures Total(AllAccepted(calls)) <= MAX_COUNTERS && AllWellFormed(AllAccepted(calls))
  {
    if calls != [] {
      var before, last := calls[..|calls| - 1], calls[|calls| - 1];
      AcceptedFits(before);
      AcceptedFitsOnce(AllAccepted(before), last.0, last.1);
    }
  }

  // ---- The header text ----

  datatype Kind = CountColumn | RatioColumn

  datatype Column = Column(kind: Kind, name: string)

  function Pad(width: nat, s: string): (p: string)
    ensures |p| == if |s| < width then width else |s|
  {
    seq(if |s| < width then width - |s| else 0, _ => ' ') + s
  }

  function UpperHex(s: string): (u: string)
    ensures |u| == |s|
  {
    seq(|s|, i requires 0 <= i < |s| => if 'a' <= s[i] <= 'f' then s[i] - 'a' + 'A' else s[i])
  }

  function SingleName(kind: char, event: int): string {
    var family := if kind == 'h' then "HW" else if kind == 'c' then "CACHE" else "RAW";
    " " + family + "(0x" + UpperHex(PrintHex(event % TWO_TO_THE_32)) + ")"
  }

  function Columns(g: Group): seq<Column> {
    match g
    case Predefined(id) =>
      if id == 0 then
        [Column(CountColumn, "RETIRED"), Column(CountColumn, "CYCLES"), Column(RatioColumn, "IPC")]
      else if id == 1 then
        [Column(CountColumn, "L1D_REFILL"), Column(CountColumn, "L1D"), Column(RatioColumn, "%")]
      else
        [Column(CountColumn, "L2D_REFILL"), Column(CountColumn, "L2D"), Column(RatioColumn, "%")]
    case Single(kind, event) => [Column(CountColumn, SingleName(kind, event))]
  }

  function AllColumns(gs: Groups): seq<Column> {
    if gs == [] then [] else AllColumns(gs[..|gs| - 1]) + Columns(gs[|gs| - 1])
  }

  function ColumnText(c: Column): string {
    " " + Pad(if c.kind.CountColumn? then 12 else 5, c.name)
  }

  function HeaderText(cs: seq<Column>): string {
    if cs == [] then "" else HeaderText(cs[..|cs| - 1]) + ColumnText(cs[|cs| - 1])
  }

  // ---- The rows ----

  datatype Cell =
    | Count(value: nat)
    | Ratio(numerator: nat, denominator: nat, scale: nat)

  function KindOf(c: Cell): Kind { if c.Count? then CountColumn else RatioColumn }

  function Kinds(cs: seq<Cell>): seq<Kind> {
    seq(|cs|, i requires 0 <= i < |cs| => KindOf(cs[i]))
  }

  function HeaderKinds(cs: seq<Column>): seq<Kind> {
    seq(|cs|, i requires 0 <= i < |cs| => cs[i].kind)
  }

  /** The cells of a group whose first counter is number `o`. */
  function Cells(g: Group, o: nat, vals: seq<nat>): seq<Cell>
    requires o + Size(g) <= |vals|
  {
    match g
    case Predefined(_) => [Count(vals[o]), Count(vals[o + 1]), Ratio(vals[o], vals[o + 1], Scale(g))]
    case Single(_, _) => [Count(vals[o])]
  }

  function AllCells(gs: Groups, vals: seq<nat>): seq<Cell>
    requires Total(gs) <= |vals|
  {
    if gs == [] then []
    else
      var before := gs[..|gs| - 1];
      AllCells(before, vals) + Cells(gs[|gs| - 1], Total(before), vals)
  }

  /** The contents of the `ratios` array that the groups call for. */
  function RatioAt(gs: Groups, i: nat): nat {
    if gs == [] then 0
    else
      var before, g := gs[..|gs| - 1], gs[|gs| - 1];
      if g.Predefined? && i == Total(before) + 1 then Scale(g) else RatioAt(before, i)
  }

  /** What the print loop emits for the first `n` counters. */
  function Row(ratios: seq<nat>, vals: seq<nat>, n: nat): seq<Cell>
    requires n <= |ratios| && n <= |vals| && (|ratios| > 0 ==> ratios[0] == 0)
  {
    if n == 0 then []
    else
      Row(ratios, vals, n - 1) + [Count(vals[n - 1])] +
      if ratios[n - 1] != 0 then [Ratio(vals[n - 2], vals[n - 1], ratios[n - 1])] else []
  }

  /** The text that the `i` branch prints into its buffer. */
  function PredefinedText(event: nat): string {
    match event
    case 0 => ColumnText(Column(CountColumn, "RETIRED")) + ColumnText(Column(CountColumn, "CYCLES")) + ColumnText(Column(RatioColumn, "IPC"))
    case 1 => ColumnText(Column(CountColumn, "L1D_REFILL")) + ColumnText(Column(CountColumn, "L1D")) + ColumnText(Column(RatioColumn, "%"))
    case _ => ColumnText(Column(CountColumn, "L2D_REFILL")) + ColumnText(Column(CountColumn, "L2D")) + ColumnText(Column(RatioColumn, "%"))
  }

  // ---- The state ----

  /** The counter table and the header text are those of the groups configured so far. */
  ghost predicate Describes(gs: Groups, n: nat, ratios: seq<nat>, headers: string) {
    && AllWellFormed(gs)
    && n == Total(gs) <= |ratios| == MAX_COUNTERS
    && (forall i :: 0 <= i < MAX_COUNTERS ==> ratios[i] == RatioAt(gs, i))
    && headers == HeaderText(AllColumns(gs))
  }

  lemma RatiosOneMore(gs: Groups, ratios: seq<nat>, g: Group)
    requires Total(gs) + Size(g) <= |ratios| == MAX_COUNTERS
    requires forall i :: 0 <= i < MAX_COUNTERS ==> ratios[i] == RatioAt(gs, i)
    ensures var after := if g.Predefined? then ratios[Total(gs) + 1 := Scale(g)] else ratios;
            forall i :: 0 <= i < MAX_COUNTERS ==> after[i] == RatioAt(gs + [g], i)
  {
    OneMoreGroup(gs, g);
  }

  lemma DescribesOneMore(gs: Groups, n: nat, ratios: seq<nat>, headers: string, g: Group)
    requires Describes(gs, n, ratios, headers) && WellFormed(g) && n + Size(g) <= MAX_COUNTERS
    ensures Describes(gs + [g], n + Size(g), if g.Predefined? then ratios[n + 1 := Scale(g)] else ratios, headers + HeaderText(Columns(g)))
  {
    TotalAppend(gs, g);
    RatiosOneMore(gs, ratios, g);
    HeaderOneMore(gs, g);
    OneMoreIsWellFormed(gs, g);
  }

  lemma OneMoreIsWellFormed(gs: Groups, g: Group)
    requires AllWellFormed(gs) && WellFormed(g)
    ensures AllWellFormed(gs + [g])
  {}

  lemma PredefinedDescribed(gs: Groups, n: nat, ratios: seq<nat>, headers: string, event: nat)
    requires Describes(gs, n, ratios, headers) && event <= 2 && n + 2 <= MAX_COUNTERS
    ensures var g := Predefined(event);
            && Describes(gs + [g], n + 2, ratios[n + 1 := Scale(g)], headers + PredefinedText(event))
            && AllEvents(gs + [g]) == AllEvents(gs) + Events(g)
  {
    PredefinedHeader(event);
    DescribesOneMore(gs, n, ratios, headers, Predefined(event));
    EventsAppend(gs, Predefined(event));
  }

  lemma SingleDescribed(gs: Groups, n: nat, ratios: seq<nat>, headers: string, kind: char, event: int)
    requires Describes(gs, n, ratios, headers) && n + 1 <= MAX_COUNTERS
    ensures var g := Single(kind, event);
            && Describes(gs + [g], n + 1, ratios, headers + ColumnText(Column(CountColumn, SingleName(kind, event))))
            && AllEvents(gs + [g]) == AllEvents(gs) + Events(g)
  {
    GroupHeader(Single(kind, event));
    DescribesOneMore(gs, n, ratios, headers, Single(kind, event));
    EventsAppend(gs, Single(kind, event));
  }

  class Counters {
    var fd: int
    var n: nat
    const ratios: array<nat>
    var headers: string
    var begin: seq<nat>
    var end: seq<nat>
    var valid: bool
    ghost var asked: seq<Event>
    ghost var groups: Groups

    ghost predicate Valid()
      reads this, ratios
    {
      && ratios.Length == MAX_COUNTERS
      && Describes(groups, n, ratios[..], headers)
      && asked == AllEvents(groups)
      && |begin| == |end| == VALS
    }

    constructor ()
      ensures Valid() && groups == [] && !valid && fresh(ratios)
    {
      ratios := new nat[MAX_COUNTERS](_ => 0);
      fd, n, headers, valid, asked, groups := -1, 0, "", false, [], [];
      begin, end := seq(VALS, _ => 0), seq(VALS, _ => 0);
    }

    /** `ret` is what perf_event_open returns; a negative value ends the program. */
    method PerfOpen(event: Event, ret: int) returns (ok: bool)
      modifies this`fd, this`n, this`asked
      ensures ok <==> ret >= 0
      ensures asked == old(asked) + [event]
      ensures ok ==> n == old(n) + 1 && fd == if old(fd) == -1 then ret else old(fd)
    {
      asked := asked + [event];
      if ret < 0 {
        return false;
      }
      if fd == -1 {
        fd := ret;
      }
      n := n + 1;
      ok := true;
    }

    /** The `i` branch of `perf_config`. */
    method PerfConfigPredefined(event: int, ret: int, ret': int) returns (ok: bool)
      requires Valid()
      modifies this`fd, this`n, this`headers, this`asked, this`groups, ratios
      ensures ok ==> Valid() && groups == old(groups) + Accepted('i', event, old(n))
      ensures ok <==> (Accepted('i', event, old(n)) != [] ==> ret >= 0 && ret' >= 0)
    {
      if n + 2 > MAX_COUNTERS || !(0 <= event <= 2) {
        return true;
      }
      ghost var g, table := Predefined(event), ratios[..];
      PredefinedDescribed(groups, n, table, headers, event);
      ratios[n + 1] := if event == 0 then 1 else 100;
      assert ratios[..] == table[n + 1 := Scale(g)];
      ok := PerfOpenPair(event, ret, ret');
      if ok {
        AppendHeader(PredefinedText(event), g);
      }
    }

    /** The `strcat` at the end of `perf_config`. */
    method AppendHeader(text: string, ghost g: Group)
      requires ratios.Length == MAX_COUNTERS && |begin| == |end| == VALS
      requires Describes(groups + [g], n, ratios[..], headers + text) && asked == AllEvents(groups + [g])
      modifies this`headers, this`groups
      ensures Valid() && groups == old(groups) + [g] && headers == old(headers) + text
    {
      headers := headers + text;
      groups := groups + [g];
    }

    method PerfOpenPair(event: nat, ret: int, ret': int) returns (ok: bool)
      requires event <= 2
      modifies this`fd, this`n, this`asked
      ensures ok <==> ret >= 0 && ret' >= 0
      ensures ok ==> n == old(n) + 2 && asked == old(asked) + Events(Predefined(event))
    {
      match event {
        case 0 => ok := PerfOpenTwo(Event(Raw, PMU_INST_RETIRED), Event(Raw, PMU_CPU_CYCLES), ret, ret');
        case 1 => ok := PerfOpenTwo(Event(Raw, PMU_L1D_CACHE_REFILL), Event(Raw, PMU_L1D_CACHE), ret, ret');
        case _ => ok := PerfOpenTwo(Event(Raw, PMU_L2D_CACHE_REFILL), Event(Raw, PMU_L2D_CACHE), ret, ret');
      }
    }

    method PerfOpenTwo(event: Event, event': Event, ret: int, ret': int) returns (ok: bool)
      modifies this`fd, this`n, this`asked
      ensures ok <==> ret >= 0 && ret' >= 0
      ensures ok ==> n == old(n) + 2 && asked == old(asked) + [event, event']
    {
      ok := PerfOpen(event, ret);
      if ok {
        ok := PerfOpen(event', ret');
      }
    }

    /** `ret` and `ret'` are what the one or two perf_event_open calls return. */
    method PerfConfig(kind: char, event: int, ret: int, ret': int) returns (ok: bool)
      requires Valid()
      modifies this`fd, this`n, this`headers, this`asked, this`groups, ratios
      ensures ok ==> Valid() && groups == old(groups) + Accepted(kind, event, old(n))
      ensures ok <==> (Accepted(kind, event, old(n)) != [] ==> ret >= 0 && (kind == 'i' ==> ret' >= 0))
    {
      if kind == 'i' {
        ok := PerfConfigPredefined(event, ret, ret');
      } else {
        if n + 1 > MAX_COUNTERS {
          return true;
        }
        SingleDescribed(groups, n, ratios[..], headers, kind, event);
        ok := PerfOpen(Event(if kind == 'h' then Hardware else if kind == 'c' then HwCache else Raw, event), ret);
        if !ok {
          return false;
        }
        AppendHeader(ColumnText(Column(CountColumn, SingleName(kind, event))), Single(kind, event));
      }
    }

    /** The option loop of `main`: every option goes to `perf_config`; `rets` is what the kernel
        returns for the events of each. */
    method ConfigAll(options: seq<(char, int)>, rets: seq<(int, int)>) returns (ok: bool)
      requires Valid() && groups == [] && |rets| == |options|
      modifies this`fd, this`n, this`headers, this`asked, this`groups, ratios
      ensures ok ==> Valid() && groups == AllAccepted(options)
    {
      for i := 0 to |options|
        invariant Valid() && groups == AllAccepted(options[..i])
      {
        ok := PerfConfig(options[i].0, options[i].1, rets[i].0, rets[i].1);
        if !ok {
          return;
        }
        assert options[..i + 1][..i] == options[..i];
      }
      assert options[..|options|] == options;
      ok := true;
    }

    /** `read` is what the kernel fills in: one value for each open counter. */
    method PerfBegin(read: seq<nat>)
      requires Valid() && n <= VALS && |read| == n
      modifies this`begin
      ensures Valid() && begin == read + old(begin)[n..]
    {
      if n == 0 {
        return;
      }
      begin := read + begin[n..];
    }

    method PerfEnd(read: seq<nat>)
      requires Valid() && n <= VALS && |read| == n
      modifies this`end, this`valid
      ensures Valid() && end == read + old(end)[n..]
      ensures valid == (old(valid) || n > 0)
    {
      if n == 0 {
        return;
      }
      end := read + end[n..];
      valid := true;
    }

    /** A row is printed once per measurement; it holds the cells of the configured groups. */
    method PerfPrint() returns (row: seq<Cell>)
      requires Valid() && (valid ==> n <= VALS)
      modifies this`valid
      ensures Valid() && !valid
      ensures row == if old(valid) then AllCells(groups, Deltas(begin, end, n)) else []
      ensures old(valid) ==> Gained(begin, end, n, Counts(row)) && RatiosStandBehind(row)
    {
      if !valid {
        return [];
      }
      FirstRatioIsZero(groups);
      row := PrintCells();
      PrintedRow(groups, ratios[..], begin, end, n);
      valid := false;
    }

    /** The print loop. */
    method PrintCells() returns (row: seq<Cell>)
      requires Valid() && n <= VALS
      ensures ratios[0] == 0
      ensures row == Row(ratios[..], Deltas(begin, end, n), n)
    {
      row := [];
      ghost var table := ratios[..];
      FirstRatioIsZero(groups);
      for i := 0 to n
        invariant row == Row(table, Deltas(begin, end, n), i)
      {
        OneMoreCell(table, begin, end, n, i);
        row := row + [Count((end[i] - begin[i]) % TWO_TO_THE_64)];
        if ratios[i] != 0 {
          var val1 := (end[i - 1] - begin[i - 1]) % TWO_TO_THE_64;
          var val2 := (end[i] - begin[i]) % TWO_TO_THE_64;
          row := row + [Ratio(val1, val2, ratios[i])];
        }
      }
    }
  }

  lemma OneMoreCell(ratios: seq<nat>, begin: seq<nat>, end: seq<nat>, n: nat, i: nat)
    requires i < n <= |ratios| && n <= |begin| && n <= |end| && ratios[0] == 0
    ensures var ds := Deltas(begin, end, n);
            Row(ratios, ds, i + 1) == Row(ratios, ds, i) + [Count((end[i] - begin[i]) % TWO_TO_THE_64)] +
            if ratios[i] != 0 then
              [Ratio((end[i - 1] - begin[i - 1]) % TWO_TO_THE_64, (end[i] - begin[i]) % TWO_TO_THE_64, ratios[i])]
            else []
  {}

  /** What the counters gained, as the difference of two unsigned 64-bit readings. */
  function Deltas(begin: seq<nat>, end: seq<nat>, n: nat): (ds: seq<nat>)
    requires n <= |begin| && n <= |end|
    ensures |ds| == n
  {
    seq(n, i requires 0 <= i < n => (end[i] - begin[i]) % TWO_TO_THE_64)
  }

  // ---- What the columns are called ----

  /** The name under which an event is to be found in the header. */
  function NameOf(e: Event): string {
    match e
    case Event(Hardware, config) => " HW(0x" + UpperHex(PrintHex(config % TWO_TO_THE_32)) + ")"
    case Event(HwCache, config) => " CACHE(0x" + UpperHex(PrintHex(config % TWO_TO_THE_32)) + ")"
    case Event(Raw, config) => " RAW(0x" + UpperHex(PrintHex(config % TWO_TO_THE_32)) + ")"
  }

  /** The six events that have names of their own in the header. */
  predicate Nicknamed(e: Event, name: string) {
    || (e == Event(Raw, 0x08) && name == "RETIRED") || (e == Event(Raw, 0x11) && name == "CYCLES")
    || (e == Event(Raw, 0x03) && name == "L1D_REFILL") || (e == Event(Raw, 0x04) && name == "L1D")
    || (e == Event(Raw, 0x17) && name == "L2D_REFILL") || (e == Event(Raw, 0x16) && name == "L2D")
  }

  /** The count columns of a header, in order. */
  function CountColumns(cs: seq<Column>): seq<string> {
    if cs == [] then []
    else
      var last := cs[|cs| - 1];
      CountColumns(cs[..|cs| - 1]) + if last.kind.CountColumn? then [last.name] else []
  }

  /** Count column `i` is headed by the name of the event that counter `i` was asked for. */
  predicate NamedAsOpened(names: seq<string>, events: seq<Event>) {
    |names| == |events| && forall i :: 0 <= i < |names| ==> Named(events[i], names[i])
  }

  predicate Named(e: Event, name: string) { Nicknamed(e, name) || name == NameOf(e) }

  lemma NicknameWillDo(e: Event, name: string)
    requires Nicknamed(e, name)
    ensures Named(e, name)
  {}

  lemma SingleIsNamed(kind: char, event: int)
    ensures Named(Events(Single(kind, event))[0], SingleName(kind, event))
  {}

  lemma {:induction false} CountColumnsAppend(cs: seq<Column>, ds: seq<Column>)
    ensures CountColumns(cs + ds) == CountColumns(cs) + CountColumns(ds)
    decreases |ds|
  {
    if ds == [] {
      assert cs + ds == cs;
    } else {
      var n := |ds| - 1;
      assert (cs + ds)[..|cs + ds| - 1] == cs + ds[..n];
      CountColumnsAppend(cs, ds[..n]);
    }
  }

  lemma CountColumnsOfGroup(g: Group)
    ensures CountColumns(Columns(g)) == if g.Predefined? then [Columns(g)[0].name, Columns(g)[1].name] else [Columns(g)[0].name]
  {
    var cs := Columns(g);
    assert cs[..1][..0] == [] && CountColumns(cs[..1]) == [cs[0].name];
    if g.Predefined? {
      assert cs[..2][..1] == cs[..1] && CountColumns(cs[..2]) == [cs[0].name, cs[1].name];
    } else {
      assert cs[..1] == cs;
    }
  }

  lemma GroupIsNamed(g: Group)
    ensures NamedAsOpened(CountColumns(Columns(g)), Events(g))
  {
    CountColumnsOfGroup(g);
    match g
    case Predefined(_) =>
      NicknameWillDo(Events(g)[0], Columns(g)[0].name);
      NicknameWillDo(Events(g)[1], Columns(g)[1].name);
    case Single(kind, event) =>
      SingleIsNamed(kind, event);
  }

  /** For whatever calls were accepted, the header names the counters by their events. */
  lemma {:induction false} HeaderNamesEvents(gs: Groups)
    ensures NamedAsOpened(CountColumns(AllColumns(gs)), AllEvents(gs))
    decreases |gs|
  {
    if gs != [] {
      var before, g := gs[..|gs| - 1], gs[|gs| - 1];
      HeaderNamesEvents(before);
      GroupIsNamed(g);
      CountColumnsAppend(AllColumns(before), Columns(g));
    }
  }

  // ---- What the numbers of a row mean ----

  /** The counts of a row, in order. */
  function Counts(row: seq<Cell>): seq<nat> {
    if row == [] then []
    else
      var last := row[|row| - 1];
      Counts(row[..|row| - 1]) + if last.Count? then [last.value] else []
  }

  /** `counts` is what `n` counters gained between two readings: added to the first reading it gives
      the second, and where the counter did not wrap it is the difference. */
  predicate Gained(begin: seq<nat>, end: seq<nat>, n: nat, counts: seq<nat>)
    requires n <= |begin| && n <= |end|
  {
    && |counts| == n
    && (forall i :: 0 <= i < n ==> (begin[i] + counts[i]) % TWO_TO_THE_64 == end[i] % TWO_TO_THE_64)
    && (forall i :: 0 <= i < n && begin[i] <= end[i] < TWO_TO_THE_64 ==> counts[i] == end[i] - begin[i])
  }

  lemma DeltaIsGain(b: nat, e: nat, d: nat)
    requires d == (e - b) % TWO_TO_THE_64
    ensures (b + d) % TWO_TO_THE_64 == e % TWO_TO_THE_64
    ensures b <= e < TWO_TO_THE_64 ==> d == e - b
  {
    var q := (e - b) / TWO_TO_THE_64;
    assert e == b + d + q * TWO_TO_THE_64;
    RemainderOfMore(b + d, q);
  }

  lemma RemainderOfMore(x: int, q: int)
    ensures (x + q * TWO_TO_THE_64) % TWO_TO_THE_64 == x % TWO_TO_THE_64
  {}

  lemma DeltasAreGains(begin: seq<nat>, end: seq<nat>, n: nat)
    requires n <= |begin| && n <= |end|
    ensures Gained(begin, end, n, Deltas(begin, end, n))
  {
    forall i | 0 <= i < n
      ensures (begin[i] + Deltas(begin, end, n)[i]) % TWO_TO_THE_64 == end[i] % TWO_TO_THE_64
      ensures begin[i] <= end[i] < TWO_TO_THE_64 ==> Deltas(begin, end, n)[i] == end[i] - begin[i]
    {
      DeltaIsGain(begin[i], end[i], Deltas(begin, end, n)[i]);
    }
  }

  lemma {:induction false} CountsAppend(xs: seq<Cell>, ys: seq<Cell>)
    ensures Counts(xs + ys) == Counts(xs) + Counts(ys)
    decreases |ys|
  {
    if ys == [] {
      assert xs + ys == xs;
    } else {
      var n := |ys| - 1;
      assert (xs + ys)[..|xs + ys| - 1] == xs + ys[..n];
      CountsAppend(xs, ys[..n]);
    }
  }

  lemma CountsOfGroup(g: Group, o: nat, vals: seq<nat>)
    requires o + Size(g) <= |vals|
    ensures Counts(Cells(g, o, vals)) == vals[o..o + Size(g)]
  {
    var cells := Cells(g, o, vals);
    assert cells[..1][..0] == [] && Counts(cells[..1]) == [vals[o]];
    if g.Predefined? {
      assert cells[..2][..1] == cells[..1] && Counts(cells[..2]) == [vals[o], vals[o + 1]];
    } else {
      assert cells[..1] == cells;
    }
  }

  /** The counts of a row are the values of all counters, each once and in order. */
  lemma {:induction false} CountsOfCells(gs: Groups, vals: seq<nat>)
    requires Total(gs) <= |vals|
    ensures Counts(AllCells(gs, vals)) == vals[..Total(gs)]
    decreases |gs|
  {
    if gs != [] {
      var before, g := gs[..|gs| - 1], gs[|gs| - 1];
      CountsOfCells(before, vals);
      CountsOfGroup(g, Total(before), vals);
      CountsAppend(AllCells(before, vals), Cells(g, Total(before), vals));
    }
  }

  /** A ratio stands behind the two counts it is made of, the first over the second. */
  predicate RatiosStandBehind(row: seq<Cell>) {
    forall k :: 0 <= k < |row| && row[k].Ratio? ==>
      k >= 2 && row[k - 2] == Count(row[k].numerator) && row[k - 1] == Count(row[k].denominator)
  }

  lemma {:induction false} RatiosOfCells(gs: Groups, vals: seq<nat>)
    requires Total(gs) <= |vals|
    ensures RatiosStandBehind(AllCells(gs, vals))
    decreases |gs|
  {
    if gs != [] {
      RatiosOfCells(gs[..|gs| - 1], vals);
    }
  }

  lemma PrintedRow(gs: Groups, ratios: seq<nat>, begin: seq<nat>, end: seq<nat>, n: nat)
    requires n == Total(gs) <= |ratios| && n <= |begin| && n <= |end| && (|ratios| > 0 ==> ratios[0] == 0)
    requires AllWellFormed(gs) && forall i :: 0 <= i < n ==> ratios[i] == RatioAt(gs, i)
    ensures Row(ratios, Deltas(begin, end, n), n) == AllCells(gs, Deltas(begin, end, n))
    ensures Gained(begin, end, n, Counts(AllCells(gs, Deltas(begin, end, n)))) && RatiosStandBehind(AllCells(gs, Deltas(begin, end, n)))
  {
    var deltas := Deltas(begin, end, n);
    RowIsCells(gs, ratios, deltas);
    CountsOfCells(gs, deltas);
    RatiosOfCells(gs, deltas);
    assert deltas[..n] == deltas;
    DeltasAreGains(begin, end, n);
  }

  /** Instructions per cycle are printed as they are, the other two ratios as percentages. */
  lemma {:induction false} RatioScales(gs: Groups, i: nat, j: nat)
    requires SecondOf(gs, i, j)
    ensures RatioAt(gs, i) == if gs[j].id == 0 then 1 else 100
    decreases |gs|
  {
    var last := |gs| - 1;
    if j == last {
      assert gs[..j] == gs[..last];
    } else {
      var before := gs[..last];
      assert before[..j] == gs[..j];
      TotalsGrow(gs, j, last);
      RatioScales(before, i, j);
    }
  }

  lemma {:induction false} TotalsGrow(gs: Groups, j: nat, k: nat)
    requires j < k < |gs|
    ensures Total(gs[..j]) + Size(gs[j]) <= Total(gs[..k])
    decreases k
  {
    assert gs[..k][..k - 1] == gs[..k - 1];
    if j < k - 1 {
      TotalsGrow(gs, j, k - 1);
    }
  }

  /** A column headed `%` holds percentages, and one headed `IPC` plain ratios. */
  predicate ScaledAsHeaded(columns: seq<Column>, row: seq<Cell>) {
    && |columns| == |row|
    && (forall k :: 0 <= k < |row| && row[k].Ratio? ==>
          (columns[k].name == "%" && row[k].scale == 100) || (columns[k].name == "IPC" && row[k].scale == 1))
  }

  lemma {:induction false} RatiosAreScaledAsHeaded(gs: Groups, vals: seq<nat>)
    requires Total(gs) <= |vals| && AllWellFormed(gs)
    ensures ScaledAsHeaded(AllColumns(gs), AllCells(gs, vals))
    decreases |gs|
  {
    if gs != [] {
      var before, g := gs[..|gs| - 1], gs[|gs| - 1];
      RatiosAreScaledAsHeaded(before, vals);
      assert ScaledAsHeaded(Columns(g), Cells(g, Total(before), vals));
    }
  }

  /** A call is taken exactly when its counters fit the ten and, for `i`, its event is known. */
  lemma AcceptedExactly(kind: char, event: int, n: nat)
    ensures Accepted(kind, event, n) != [] <==> if kind == 'i' then n <= 8 && event in {0, 1, 2} else n <= 9
    ensures Accepted(kind, event, n) != [] ==> Total(Accepted(kind, event, n)) == if kind == 'i' then 2 else 1
  {
    assert Accepted(kind, event, n) != [] ==> Accepted(kind, event, n)[..0] == [];
  }

  /** Every column starts with a blank and is right-aligned to the width of its cells. */
  lemma ColumnIsAligned(c: Column)
    ensures var text, width := ColumnText(c), if c.kind.CountColumn? then 13 else 6;
            && |text| == (if |c.name| < width then width else |c.name| + 1)
            && text[|text| - |c.name|..] == c.name
            && forall i :: 0 <= i < |text| - |c.name| ==> text[i] == ' '
  {}

  lemma SingleNames(kind: char)
    ensures SingleName(kind, 0x1a) == if kind == 'h' then " HW(0x1A)" else if kind == 'c' then " CACHE(0x1A)" else " RAW(0x1A)"
  {
    PrintMore(1, 10);
    assert PrintHex(0x1a) == "1a";
    assert UpperHex("1a") == "1A";
  }

  // ---- Header and row agree ----

  lemma {:induction false} RatioBelowTotal(gs: Groups, i: nat)
    ensures RatioAt(gs, i) != 0 ==> 0 < i < Total(gs)
  {
    if gs != [] {
      RatioBelowTotal(gs[..|gs| - 1], i);
    }
  }

  lemma FirstRatioIsZero(gs: Groups)
    ensures RatioAt(gs, 0) == 0
  {
    RatioBelowTotal(gs, 0);
  }

  lemma PredefinedHeader(event: nat)
    requires event <= 2
    ensures PredefinedText(event) == HeaderText(Columns(Predefined(event)))
  {
    GroupHeader(Predefined(event));
  }

  lemma GroupHeader(g: Group)
    requires WellFormed(g)
    ensures g.Single? ==> HeaderText(Columns(g)) == ColumnText(Columns(g)[0])
    ensures g.Predefined? ==>
              HeaderText(Columns(g)) == ColumnText(Columns(g)[0]) + ColumnText(Columns(g)[1]) + ColumnText(Columns(g)[2])
  {
    var cs := Columns(g);
    assert cs[..1][..0] == [];
    assert HeaderText(cs[..1]) == ColumnText(cs[0]);
    if g.Predefined? {
      assert cs[..2][..1] == cs[..1];
      assert HeaderText(cs[..2]) == HeaderText(cs[..1]) + ColumnText(cs[1]);
    } else {
      assert cs[..1] == cs;
    }
  }

  lemma OneMoreGroup(gs: Groups, g: Group)
    ensures Total(gs + [g]) == Total(gs) + Size(g)
    ensures forall i: nat :: RatioAt(gs + [g], i) == if g.Predefined? && i == Total(gs) + 1 then Scale(g) else RatioAt(gs, i)
  {
    TotalAppend(gs, g);
    assert (gs + [g])[..|gs|] == gs;
  }

  lemma HeaderOneMore(gs: Groups, g: Group)
    ensures HeaderText(AllColumns(gs + [g])) == HeaderText(AllColumns(gs)) + HeaderText(Columns(g))
  {
    assert (gs + [g])[..|gs|] == gs;
    HeaderTextAppend(AllColumns(gs), Columns(g));
  }

  lemma Associative(a: string, b: string, c: string)
    ensures a + b + c == a + (b + c)
  {}

  lemma {:induction false} HeaderTextAppend(cs: seq<Column>, ds: seq<Column>)
    ensures HeaderText(cs + ds) == HeaderText(cs) + HeaderText(ds)
  {
    if ds == [] {
      assert cs + ds == cs;
    } else {
      var n := |ds| - 1;
      assert (cs + ds)[..|cs + ds| - 1] == cs + ds[..n];
      HeaderTextAppend(cs, ds[..n]);
      Associative(HeaderText(cs), HeaderText(ds[..n]), ColumnText(ds[n]));
    }
  }

  /** The print loop, which knows only the ratio array, emits the cells of the groups. */
  lemma {:induction false} RowIsCells(gs: Groups, ratios: seq<nat>, vals: seq<nat>)
    requires Total(gs) <= |ratios| && Total(gs) <= |vals| && (|ratios| > 0 ==> ratios[0] == 0)
    requires AllWellFormed(gs)
    requires forall i :: 0 <= i < Total(gs) ==> ratios[i] == RatioAt(gs, i)
    ensures Row(ratios, vals, Total(gs)) == AllCells(gs, vals)
  {
    if gs != [] {
      var before, g := gs[..|gs| - 1], gs[|gs| - 1];
      var o := Total(before);
      RowIsCells(before, ratios, vals);
      RatioBelowTotal(before, o);
      RatioBelowTotal(before, o + 1);
      assert Row(ratios, vals, o + 1) == Row(ratios, vals, o) + [Count(vals[o])];
    }
  }

  lemma KindsAppend(xs: seq<Cell>, bs: seq<Cell>, cs: seq<Column>, ds: seq<Column>)
    requires Kinds(xs) == HeaderKinds(cs) && Kinds(bs) == HeaderKinds(ds)
    ensures Kinds(xs + bs) == HeaderKinds(cs + ds)
  {
    assert Kinds(xs + bs) == Kinds(xs) + Kinds(bs);
    assert HeaderKinds(cs + ds) == HeaderKinds(cs) + HeaderKinds(ds);
  }

  lemma GroupHeaderMatchesCells(g: Group, o: nat, vals: seq<nat>)
    requires o + Size(g) <= |vals| && WellFormed(g)
    ensures Kinds(Cells(g, o, vals)) == HeaderKinds(Columns(g))
  {}

  /** For whatever calls were accepted, the columns of the header are, in order, of the kinds of
      the cells of a row, every ratio in its place. */
  lemma {:induction false} HeaderMatchesRow(gs: Groups, vals: seq<nat>)
    requires Total(gs) <= |vals| && AllWellFormed(gs)
    ensures Kinds(AllCells(gs, vals)) == HeaderKinds(AllColumns(gs))
  {
    if gs != [] {
      var before, g := gs[..|gs| - 1], gs[|gs| - 1];
      HeaderMatchesRow(before, vals);
      GroupHeaderMatchesCells(g, Total(before), vals);
      KindsAppend(AllCells(before, vals), Cells(g, Total(before), vals), AllColumns(before), Columns(g));
    }
  }

  /** The header and the rows of a whole run agree, for every sequence of options. */
  lemma EveryRunAgrees(calls: seq<(char, int)>, vals: seq<nat>)
    requires Total(AllAccepted(calls)) <= |vals|
    ensures Kinds(AllCells(AllAccepted(calls), vals)) == HeaderKinds(AllColumns(AllAccepted(calls)))
    ensures |HeaderText(AllColumns(AllAccepted(calls)))| <= 190
  {
    AcceptedFits(calls);
    HeaderMatchesRow(AllAccepted(calls), vals);
    HeaderLength(AllAccepted(calls));
  }

  /** Counter `i` is the second of the pair that group `j` configured. */
  predicate SecondOf(gs: Groups, i: nat, j: nat) {
    j < |gs| && gs[j].Predefined? && i == Total(gs[..j]) + 1
  }

  /** A ratio entry is set exactly for the second counter of a predefined pair. */
  lemma {:induction false} RatioExactlyAtSecond(gs: Groups, i: nat)
    ensures RatioAt(gs, i) != 0 <==> exists j: nat :: SecondOf(gs, i, j)
  {
    if gs != [] {
      var last := |gs| - 1;
      var before := gs[..last];
      RatioExactlyAtSecond(before, i);
      SecondOfPrefix(gs, i);
      if RatioAt(gs, i) != 0 {
        if gs[last].Predefined? && i == Total(before) + 1 {
          assert SecondOf(gs, i, last);
        } else {
          var j: nat :| SecondOf(before, i, j);
          assert SecondOf(gs, i, j);
        }
      }
      if j: nat :| SecondOf(gs, i, j) {
        assert j == last || SecondOf(before, i, j);
      }
    }
  }

  lemma SecondOfPrefix(gs: Groups, i: nat)
    requires gs != []
    ensures forall j: nat :: j < |gs| - 1 ==> (SecondOf(gs, i, j) <==> SecondOf(gs[..|gs| - 1], i, j))
  {
    var before := gs[..|gs| - 1];
    forall j: nat | j < |before| ensures SecondOf(gs, i, j) <==> SecondOf(before, i, j) {
      assert before[..j] == gs[..j];
    }
  }

  lemma SingleNameLength(kind: char, event: int)
    ensures |SingleName(kind, event)| <= 18
  {
    assert Power16(8) == TWO_TO_THE_32;
    PrintedLength(event % TWO_TO_THE_32, 8);
  }

  lemma GroupHeaderLength(g: Group)
    requires WellFormed(g)
    ensures |HeaderText(Columns(g))| <= 19 * Size(g)
  {
    GroupHeader(g);
    if g.Single? {
      SingleNameLength(g.kind, g.event);
    }
  }

  /** The header never grows past 19 characters per counter, so not past 190. */
  lemma {:induction false} HeaderLength(gs: Groups)
    requires AllWellFormed(gs)
    ensures |HeaderText(AllColumns(gs))| <= 19 * Total(gs)
  {
    if gs != [] {
      var before, g := gs[..|gs| - 1], gs[|gs| - 1];
      HeaderLength(before);
      GroupHeaderLength(g);
      HeaderTextAppend(AllColumns(before), Columns(g));
    }
  }
}
