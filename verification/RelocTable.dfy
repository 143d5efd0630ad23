/** The `reloc` script: readelf's relocation records become the table that the loader walks. */
module RelocTable {
  import opened Assembly
  import opened Loader

  datatype Kind = JumpSlot | GlobDat | Relative | OtherKind

  /** One line of readelf's output; `Title` stands for every line that is not a record. */
  datatype Record = Record(offset: Word, kind: Kind, symbol: string, addend: Word) | Title

  /** `${symbol%@*}`: the name without its version, that is, up to the last `@`. */
  function StripVersion(symbol: string): string {
    if '@' !in symbol then symbol
    else if symbol[|symbol| - 1] == '@' then symbol[..|symbol| - 1]
    else StripVersion(symbol[..|symbol| - 1])
  }

  lemma {:induction false} StripsOneVersion(name: string, version: string)
    requires '@' !in version
    ensures StripVersion(name + "@" + version) == name
  {
    var s := name + "@" + version;
    assert '@' == s[|name|];
    if version == "" {
      assert s[..|s| - 1] == name;
    } else {
      assert s[|s| - 1] == version[|version| - 1];
      assert s[..|s| - 1] == name + "@" + version[..|version| - 1];
      StripsOneVersion(name, version[..|version| - 1]);
    }
  }

  /** A name without a version stays as it is. */
  lemma UnversionedStays(name: string)
    requires '@' !in name
    ensures StripVersion(name) == name
  {}

  /** The entry a record is turned into. `link` gives the address the linker finds for a name. */
  function RowOf(r: Record, link: string -> Word): (row: Option<Reloc>) {
    match r
    case Record(offset, JumpSlot, symbol, _) => Some(Reloc(offset, link("s_" + StripVersion(symbol)), R_AARCH64_JUMP_SLOT))
    case Record(offset, Relative, _, addend) => Some(Reloc(offset, addend, R_AARCH64_RELATIVE))
    case Record(offset, GlobDat, symbol, _) => Some(Reloc(offset, link("s_" + StripVersion(symbol)), R_AARCH64_GLOB_DAT))
    case _ => None
  }

  predicate Supported(r: Record) { r.Record? && !r.kind.OtherKind? }

  predicate AllSupported(records: seq<Record>) {
    forall i :: 0 <= i < |records| ==> Supported(records[i])
  }

  /** The records that reach the table, in order. */
  function Relevant(records: seq<Record>): (out: seq<Record>)
    ensures AllSupported(out)
  {
    if records == [] then []
    else
      var last := records[|records| - 1];
      Relevant(records[..|records| - 1]) + if Supported(last) then [last] else []
  }

  function Rows(records: seq<Record>, link: string -> Word): (rows: seq<Reloc>)
    requires AllSupported(records)
    ensures |rows| == |records|
  {
    seq(|records|, i requires 0 <= i < |records| => RowOf(records[i], link).value)
  }

  const SENTINEL := Reloc(0, 0, 0)

  function Table(records: seq<Record>, link: string -> Word): (table: seq<Reloc>)
    ensures Terminated(table)
  {
    var table := Rows(Relevant(records), link) + [SENTINEL];
    assert table[|table| - 1].offset == 0;
    table
  }

  lemma RelevantAppend(records: seq<Record>, i: nat, link: string -> Word)
    requires i < |records|
    ensures Rows(Relevant(records[..i + 1]), link) == Rows(Relevant(records[..i]), link) +
            if Supported(records[i]) then [RowOf(records[i], link).value] else []
  {
    assert records[..i + 1][..i] == records[..i];
  }

  method ProcessRelocs(records: seq<Record>, link: string -> Word) returns (table: seq<Reloc>)
    ensures table == Table(records, link)
  {
    table := [];
    for i := 0 to |records|
      invariant table == Rows(Relevant(records[..i]), link)
    {
      assert records[..i + 1][..i] == records[..i];
      match records[i] {
        case Record(offset, JumpSlot, symbol, _) =>
          table := table + [Reloc(offset, link("s_" + StripVersion(symbol)), R_AARCH64_JUMP_SLOT)];
        case Record(offset, Relative, _, addr) =>
          table := table + [Reloc(offset, addr, R_AARCH64_RELATIVE)];
        case Record(offset, GlobDat, symbol, _) =>
          table := table + [Reloc(offset, link("s_" + StripVersion(symbol)), R_AARCH64_GLOB_DAT)];
        case _ =>
      }
      RelevantAppend(records, i, link);
    }
    assert records[..|records|] == records;
    table := table + [SENTINEL];
  }

  // ---- The table and the loader together ----

  /** The whole table is walked exactly when no record has offset zero. */
  lemma WalkedToTheEnd(records: seq<Record>, link: string -> Word)
    ensures Length(Table(records, link)) == |Relevant(records)| <==>
            forall k :: 0 <= k < |Relevant(records)| ==> Relevant(records)[k].offset != 0
  {
    var rows, table := Relevant(records), Table(records, link);
    var n := Length(table);
    assert forall k :: 0 <= k < |rows| ==> table[k].offset == rows[k].offset;
  }

  /** The value that "ELF for the Arm 64-bit Architecture" (AAELF64), section "Dynamic
      relocations", asks for: S + A for symbols, Delta(S) + A for RELATIVE. */
  function AbiValue(r: Record, link: string -> Word, base: nat): nat
    requires Supported(r)
  {
    if r.kind.Relative? then (base + r.addend) % TWO_TO_THE_64
    else (link("s_" + StripVersion(r.symbol)) + r.addend) % TWO_TO_THE_64
  }

  predicate RecordsDisjoint(records: seq<Record>)
    requires AllSupported(records)
  {
    forall j, k :: 0 <= j < k < |records| ==>
      records[j].offset + 8 <= records[k].offset || records[k].offset + 8 <= records[j].offset
  }

  lemma TableEntry(records: seq<Record>, link: string -> Word, k: nat)
    requires k < |Relevant(records)|
    ensures Some(Table(records, link)[k]) == RowOf(Relevant(records)[k], link)
    ensures Table(records, link)[k].offset == Relevant(records)[k].offset
  {}

  lemma TableSurvives(records: seq<Record>, link: string -> Word, size: nat, k: nat)
    requires k < |Relevant(records)| && RecordsDisjoint(Relevant(records))
    requires forall j :: 0 <= j < |Relevant(records)| ==> Relevant(records)[j].offset + 8 <= size
    ensures SlotsFit(Table(records, link), |Relevant(records)|, size)
    ensures Survives(Table(records, link), |Relevant(records)|, k)
  {
    forall j | 0 <= j < |Relevant(records)|
      ensures Table(records, link)[j].offset == Relevant(records)[j].offset
    {
      TableEntry(records, link, j);
    }
  }

  lemma WordMeetsAbi(r: Record, link: string -> Word, base: nat)
    requires Supported(r)
    ensures WordOf(RowOf(r, link).value, base) == AbiValue(r, link, base) <==> r.kind.Relative? || r.addend == 0
  {
    if !r.kind.Relative? {
      AddendMatters(link("s_" + StripVersion(r.symbol)), r.addend);
    }
  }

  /** Generating the table and loading it leaves in every slot the value the ABI asks for,
      exactly when the record is RELATIVE or its symbol has no addend: the script drops it. */
  lemma GeneratedAndLoaded(records: seq<Record>, link: string -> Word, bytes: seq<Byte>, base: nat, k: nat)
    requires k < |Relevant(records)| && RecordsDisjoint(Relevant(records))
    requires forall j :: 0 <= j < |Relevant(records)| ==> var o := Relevant(records)[j].offset; o != 0 && o + 8 <= |bytes|
    ensures var table, r := Table(records, link), Relevant(records)[k];
            && SlotsFit(table, Length(table), |bytes|)
            && (WordAt(Patched(bytes, table, base, Length(table)), r.offset) == AbiValue(r, link, base) <==>
                r.kind.Relative? || r.addend == 0)
  {
    WalkedToTheEnd(records, link);
    TableSurvives(records, link, |bytes|, k);
    SlotHoldsWord(bytes, Table(records, link), base, |Relevant(records)|, k);
    TableEntry(records, link, k);
    WordMeetsAbi(Relevant(records)[k], link, base);
  }

  lemma AddendMatters(s: Word, a: Word)
    ensures s % TWO_TO_THE_64 == (s + a) % TWO_TO_THE_64 <==> a == 0
  {}

  lemma OneIsRelevant(r: Record)
    requires Supported(r)
    ensures Relevant([r]) == [r]
  {
    assert [r][..0] == [];
  }

  lemma OnlyRecord(r: Record, link: string -> Word, bytes: seq<Byte>, base: nat)
    requires Supported(r) && r.offset != 0 && r.offset + 8 <= |bytes|
    ensures var table := Table([r], link);
            && SlotsFit(table, Length(table), |bytes|)
            && (WordAt(Patched(bytes, table, base, Length(table)), r.offset) == AbiValue(r, link, base) <==> r.kind.Relative? || r.addend == 0)
  {
    OneIsRelevant(r);
    GeneratedAndLoaded([r], link, bytes, base, 0);
  }

  const BEYOND_X := Record(16, GlobDat, "x", 1)

  /** A GLOB_DAT record for `x + 1`: the slot is loaded with something else, the address of `x`. */
  lemma AddendIsLost(link: string -> Word, bytes: seq<Byte>, base: nat)
    requires BEYOND_X.offset + 8 <= |bytes|
    ensures var table := Table([BEYOND_X], link);
            && SlotsFit(table, Length(table), |bytes|)
            && WordAt(Patched(bytes, table, base, Length(table)), BEYOND_X.offset) != AbiValue(BEYOND_X, link, base)
  {
    OnlyRecord(BEYOND_X, link, bytes, base);
  }

  /** A record for offset zero looks like the sentinel: the loader never reads those behind it. */
  lemma ZeroOffsetEndsTable(link: string -> Word, later: seq<Record>)
    ensures Length(Table([Record(0, Relative, "", 5)] + later, link)) == 0
  {
    var first := Record(0, Relative, "", 5);
    RelevantBeginsWith(first, later);
    assert Table([first] + later, link)[0].offset == 0;
  }

  lemma {:induction false} RelevantBeginsWith(first: Record, later: seq<Record>)
    requires Supported(first)
    ensures Relevant([first] + later) == [first] + Relevant(later)
  {
    var all := [first] + later;
    if later == [] {
      assert all[..|all| - 1] == [];
    } else {
      assert all[..|all| - 1] == [first] + later[..|later| - 1];
      RelevantBeginsWith(first, later[..|later| - 1]);
    }
  }

  /** A record of any other type is dropped: its slot keeps the word of the copied image. */
  lemma DroppedRecordKeepsImage(records: seq<Record>, link: string -> Word, image: seq<Byte>, base: nat, offset: nat)
    requires offset + 8 <= |image|
    requires forall j :: 0 <= j < |Relevant(records)| ==>
               var o := Relevant(records)[j].offset;
               o != 0 && o + 8 <= |image| && (o + 8 <= offset || offset + 8 <= o)
    ensures SlotsFit(Table(records, link), Length(Table(records, link)), |image|)
    ensures WordAt(Patched(image, Table(records, link), base, Length(Table(records, link))), offset) == WordAt(image, offset)
  {
    var table, n := Table(records, link), |Relevant(records)|;
    WalkedToTheEnd(records, link);
    forall j | 0 <= j < n ensures table[j].offset == Relevant(records)[j].offset {
      TableEntry(records, link, j);
    }
    var out := Patched(image, table, base, n);
    forall i | offset <= i < offset + 8 ensures out[i] == image[i] {
      PatchedByte(image, table, base, n, i);
    }
    assert out[offset..offset + 8] == image[offset..offset + 8];
  }

  /** The entries by their numbers: types 0x402, 0x403 and 0x401, a symbol under its `s_` name, a
      relative record with its addend. */
  lemma EntriesByNumber(offset: Word, name: string, version: string, addend: Word, link: string -> Word)
    requires '@' !in version
    ensures RowOf(Record(offset, JumpSlot, name + "@" + version, addend), link) == Some(Reloc(offset, link("s_" + name), 0x402))
    ensures RowOf(Record(offset, GlobDat, name + "@" + version, addend), link) == Some(Reloc(offset, link("s_" + name), 0x401))
    ensures RowOf(Record(offset, Relative, version, addend), link) == Some(Reloc(offset, addend, 0x403))
  {
    StripsOneVersion(name, version);
  }
}
