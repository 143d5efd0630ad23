/** ututna/reloc.c: copy an image into its window, clear bss, protect the text pages, and store
    the relocated words in place. */
module Loader {
  import opened Assembly

  type Byte = n: nat | n < 256

  const TWO_TO_THE_64 := 0x1_0000_0000_0000_0000
  const PAGE_SIZE := 4096
  const R_AARCH64_GLOB_DAT := 1025
  const R_AARCH64_JUMP_SLOT := 1026
  const R_AARCH64_RELATIVE := 1027

  type Word = n: nat | n < TWO_TO_THE_64

  datatype Reloc = Reloc(offset: Word, addr: Word, kind: Word)

  // ---- Little-endian words ----

  function LeBytes(w: nat, n: nat): (bs: seq<Byte>)
    ensures |bs| == n
  {
    if n == 0 then [] else [w % 256] + LeBytes(w / 256, n - 1)
  }

  function FromLe(bs: seq<Byte>): nat {
    if bs == [] then 0 else bs[0] + 256 * FromLe(bs[1..])
  }

  function Power256(n: nat): (p: nat)
    ensures p > 0
  {
    if n == 0 then 1 else 256 * Power256(n - 1)
  }

  lemma {:induction false} WordRoundTrip(w: nat, n: nat)
    requires w < Power256(n)
    ensures FromLe(LeBytes(w, n)) == w
  {
    if n > 0 {
      WordRoundTrip(w / 256, n - 1);
    }
  }

  /** The least significant byte comes first. */
  lemma {:induction false} ByteOfWord(w: nat, n: nat, i: nat)
    requires i < n
    ensures LeBytes(w, n)[i] == (w / Power256(i)) % 256
    decreases n
  {
    if i > 0 {
      ByteOfWord(w / 256, n - 1, i - 1);
      DivideTwice(w, Power256(i - 1));
    }
  }

  lemma DivideTwice(w: nat, p: nat)
    requires p > 0
    ensures w / 256 / p == w / (256 * p)
  {
    var q := w / (256 * p);
    var r := w % (256 * p);
    assert w == q * (256 * p) + r;
    assert w / 256 == q * p + r / 256 by {
      assert w == 256 * (q * p) + r;
    }
    assert r / 256 < p;
    QuotientIs(w / 256, p, q, r / 256);
  }

  lemma Cancel(a: nat, b: nat, p: nat)
    requires a * p < b * p
    ensures a < b
  {
    if a >= b {
      Multiples(a - b, b, p);
    }
  }

  lemma Multiples(d: nat, b: nat, p: nat)
    ensures (d + b) * p == d * p + b * p && d * p >= 0
  {}

  lemma QuotientIs(n: nat, p: nat, q: nat, r: nat)
    requires p > 0 && n == q * p + r && r < p
    ensures n / p == q
  {
    var k := n / p;
    assert k * p <= n < k * p + p;
    Multiples(1, k, p);
    Multiples(1, q, p);
    Cancel(k, q + 1, p);
    Cancel(q, k + 1, p);
  }

  lemma SlotIsLittleEndian(e: Reloc, start: nat)
    ensures var b, w := SlotBytes(e, start), WordOf(e, start);
            && b[0] == w % 256 && b[1] == w / 0x100 % 256 && b[2] == w / 0x1_0000 % 256 && b[3] == w / 0x100_0000 % 256
            && b[4] == w / 0x1_0000_0000 % 256 && b[5] == w / 0x100_0000_0000 % 256
            && b[6] == w / 0x1_0000_0000_0000 % 256 && b[7] == w / 0x100_0000_0000_0000 % 256
  {
    var w := WordOf(e, start);
    forall i | 0 <= i < 8 ensures SlotBytes(e, start)[i] == (w / Power256(i)) % 256 {
      ByteOfWord(w, 8, i);
    }
    assert Power256(1) == 0x100 && Power256(2) == 0x1_0000 && Power256(3) == 0x100_0000 && Power256(4) == 0x1_0000_0000;
    assert Power256(5) == 0x100_0000_0000 && Power256(6) == 0x1_0000_0000_0000 && Power256(7) == 0x100_0000_0000_0000;
  }

  lemma EightBytesHoldAWord()
    ensures Power256(8) == TWO_TO_THE_64
  {
    assert Power256(4) == 0x1_0000_0000;
    assert Power256(6) == 0x1_0000_0000_0000;
  }

  // ---- What the steps leave in the window ----

  function Copied(bytes: seq<Byte>, at: nat, src: seq<Byte>): (out: seq<Byte>)
    requires at + |src| <= |bytes|
    ensures |out| == |bytes|
  {
    bytes[..at] + src + bytes[at + |src|..]
  }

  function Zeros(n: nat): (out: seq<Byte>)
    ensures |out| == n
  {
    seq(n, _ => 0)
  }

  /** The word `do_reloc` stores for an entry. */
  function WordOf(e: Reloc, start: nat): (w: Word) {
    (e.addr + (if e.kind == R_AARCH64_RELATIVE then start else 0)) % TWO_TO_THE_64
  }

  function SlotBytes(e: Reloc, start: nat): (out: seq<Byte>)
    ensures |out| == 8
  {
    LeBytes(WordOf(e, start), 8)
  }

  predicate SlotsFit(table: seq<Reloc>, n: nat, size: nat)
    requires n <= |table|
  {
    forall k :: 0 <= k < n ==> table[k].offset + 8 <= size
  }

  /** The window after the first `n` entries of the table. */
  function Patched(bytes: seq<Byte>, table: seq<Reloc>, start: nat, n: nat): (out: seq<Byte>)
    requires n <= |table| && SlotsFit(table, n, |bytes|)
    ensures |out| == |bytes|
  {
    if n == 0 then bytes
    else Copied(Patched(bytes, table, start, n - 1), table[n - 1].offset, SlotBytes(table[n - 1], start))
  }

  predicate Terminated(table: seq<Reloc>) {
    exists k :: 0 <= k < |table| && table[k].offset == 0
  }

  /** The entries in front of the first one with offset zero. */
  function Length(table: seq<Reloc>): (n: nat)
    requires Terminated(table)
    ensures n < |table| && table[n].offset == 0 && forall k :: 0 <= k < n ==> table[k].offset != 0
  {
    if table[0].offset == 0 then 0
    else
      assert exists k :: 0 <= k < |table[1..]| && table[1..][k].offset == 0 by {
        var k :| 0 <= k < |table| && table[k].offset == 0;
        assert table[1..][k - 1] == table[k];
      }
      1 + Length(table[1..])
  }

  function Image(bytes: seq<Byte>, bin: seq<Byte>, rom: nat, bss: nat, bssSize: nat): (out: seq<Byte>)
    requires rom + |bin| <= |bytes| && bss + bssSize <= |bytes|
    ensures |out| == |bytes|
  {
    Copied(Copied(bytes, rom, bin), bss, Zeros(bssSize))
  }

  // ---- Page rounding ----

  function Align(a: nat): nat { a - a % PAGE_SIZE }

  function AlignUp(a: nat): nat { Align(a + PAGE_SIZE - 1) }

  /** The mask of the ALIGN macro clears exactly the remainder. */
  lemma AlignIsTheMask(a: bv64)
    ensures a & !(0xFFF as bv64) == a - a % 0x1000
  {}

  /** The rounded region covers the text, lies on page boundaries, and is less than two pages
      longer; it is the smallest such region. */
  lemma RoundedRegion(start: nat, size: nat)
    ensures var lo, hi := Align(start), AlignUp(start + size);
            && lo <= start && start + size <= hi
            && lo % PAGE_SIZE == 0 && hi % PAGE_SIZE == 0
            && hi - lo < size + 2 * PAGE_SIZE
            && forall a, b :: a % PAGE_SIZE == 0 && b % PAGE_SIZE == 0 && 0 <= a <= start && start + size <= b ==> a <= lo && hi <= b
  {
    var lo, hi := Align(start), AlignUp(start + size);
    forall a, b | a % PAGE_SIZE == 0 && b % PAGE_SIZE == 0 && 0 <= a <= start && start + size <= b
      ensures a <= lo && hi <= b
    {
      assert a / PAGE_SIZE <= start / PAGE_SIZE;
      assert hi / PAGE_SIZE <= (b + PAGE_SIZE - 1) / PAGE_SIZE;
    }
  }

  /** The slot shares a byte with the protected region; an empty region protects nothing. */
  predicate Meets(e: Reloc, base: nat, lo: nat, hi: nat) {
    lo < hi && base + e.offset < hi && lo < base + e.offset + 8
  }

  /** Address `x` is one of the eight of the slot. */
  predicate InSlot(e: Reloc, base: nat, x: nat) { base + e.offset <= x < base + e.offset + 8 }

  /** That is: some byte is in both. */
  lemma MeetsInAByte(e: Reloc, base: nat, lo: nat, hi: nat)
    ensures Meets(e, base, lo, hi) <==> exists x: nat :: InSlot(e, base, x) && lo <= x < hi
  {
    if Meets(e, base, lo, hi) {
      assert InSlot(e, base, if lo <= base + e.offset then base + e.offset else lo);
    }
  }

  predicate NoneMeets(table: seq<Reloc>, n: nat, base: nat, lo: nat, hi: nat)
    requires n <= |table|
  {
    forall k :: 0 <= k < n ==> !Meets(table[k], base, lo, hi)
  }

  /** How many of the first `n` entries are stored before one meets the protected region. */
  function Reached(table: seq<Reloc>, n: nat, base: nat, lo: nat, hi: nat): (k: nat)
    requires n <= |table|
    ensures k <= n && NoneMeets(table, k, base, lo, hi) && (k < n ==> Meets(table[k], base, lo, hi))
  {
    if n == 0 then 0
    else
      var k := Reached(table, n - 1, base, lo, hi);
      if k == n - 1 && !Meets(table[n - 1], base, lo, hi) then n else k
  }

  lemma CompletesExactly(table: seq<Reloc>, base: nat, lo: nat, hi: nat)
    requires Terminated(table)
    ensures Reached(table, Length(table), base, lo, hi) == Length(table) <==> NoneMeets(table, Length(table), base, lo, hi)
  {}

  datatype Result = Done | NotMapped | Fault(entry: nat)

  lemma SlotAddress(offset: Word, start: nat, size: nat)
    requires offset + 8 <= size && start + size <= TWO_TO_THE_64
    ensures (offset + start) % TWO_TO_THE_64 == start + offset
  {}

  class Window {
    const base: nat
    const data: array<Byte>
    var lockedLo: nat
    var lockedHi: nat

    constructor (base: nat, data: array<Byte>)
      ensures this.base == base && this.data == data && lockedLo == 0 && lockedHi == 0
    {
      this.base, this.data, lockedLo, lockedHi := base, data, 0, 0;
    }

    /** memcpy into the window. */
    method Copy(at: nat, src: seq<Byte>)
      requires at + |src| <= data.Length
      modifies data
      ensures data[..] == Copied(old(data[..]), at, src)
    {
      for i := 0 to |src|
        invariant forall j :: 0 <= j < data.Length ==>
          data[j] == if at <= j < at + i then src[j - at] else old(data[j])
      {
        data[at + i] := src[i];
      }
    }

    /** memset to zero. */
    method Zero(at: nat, n: nat)
      requires at + n <= data.Length
      modifies data
      ensures data[..] == Copied(old(data[..]), at, Zeros(n))
    {
      for i := 0 to n
        invariant forall j :: 0 <= j < data.Length ==> data[j] == if at <= j < at + i then 0 else old(data[j])
      {
        data[at + i] := 0;
      }
    }

    predicate Addressable() { base + data.Length <= TWO_TO_THE_64 }

    /** A store of eight bytes at address `at`, refused when it touches the protected region. */
    method Store(at: nat, bytes: seq<Byte>) returns (ok: bool)
      requires base <= at && at + |bytes| <= base + data.Length
      modifies data
      ensures ok <==> !(lockedLo < lockedHi && at < lockedHi && lockedLo < at + |bytes|)
      ensures data[..] == if ok then Copied(old(data[..]), at - base, bytes) else old(data[..])
    {
      ok := !(lockedLo < lockedHi && at < lockedHi && lockedLo < at + |bytes|);
      if ok {
        Copy(at - base, bytes);
      }
    }

    /** The body of the relocation loop. */
    method StoreEntry(e: Reloc, start: nat) returns (ok: bool)
      requires Addressable() && start == base && e.offset + 8 <= data.Length
      modifies data
      ensures ok <==> !Meets(e, base, lockedLo, lockedHi)
      ensures data[..] == if ok then Copied(old(data[..]), e.offset, SlotBytes(e, start)) else old(data[..])
    {
      SlotAddress(e.offset, start, data.Length);
      var slot := (e.offset + start) % TWO_TO_THE_64;
      ok := Store(slot, SlotBytes(e, start));
    }

    method DoReloc(table: seq<Reloc>, start: nat) returns (r: Result)
      requires Addressable() && start == base
      requires Terminated(table) && SlotsFit(table, Length(table), data.Length)
      modifies data
      ensures var k := Reached(table, Length(table), base, lockedLo, lockedHi);
              && r == (if k == Length(table) then Done else Fault(k))
              && data[..] == Patched(old(data[..]), table, start, k)
      ensures r.Done? <==> NoneMeets(table, Length(table), base, lockedLo, lockedHi)
    {
      ghost var k := Reached(table, Length(table), base, lockedLo, lockedHi);
      CompletesExactly(table, base, lockedLo, lockedHi);
      var e := 0;
      while table[e].offset != 0
        invariant 0 <= e <= k
        invariant data[..] == Patched(old(data[..]), table, start, e)
        decreases k - e
      {
        var ok := StoreEntry(table[e], start);
        if !ok {
          return Fault(e);
        }
        e := e + 1;
      }
      r := Done;
    }

    /** The whole of `reloc`; `mapped` says whether mmap returned the requested address, and
        `semihosting` that there is no memory protection. */
    method Load(bin: seq<Byte>, rom: nat, text: nat, textSize: nat, bss: nat, bssSize: nat,
                table: seq<Reloc>, mapped: bool, semihosting: bool) returns (r: Result)
      requires Addressable() && rom + |bin| <= data.Length && bss + bssSize <= data.Length
      requires Terminated(table) && SlotsFit(table, Length(table), data.Length)
      requires lockedLo == lockedHi == 0
      modifies this, data
      ensures r.NotMapped? <==> !mapped
      ensures !mapped ==> data[..] == old(data[..])
      ensures mapped ==>
                var image := Image(old(data[..]), bin, rom, bss, bssSize);
                var lo, hi := if semihosting then 0 else Align(base + text), if semihosting then 0 else AlignUp(base + text + textSize);
                var k := Reached(table, Length(table), base, lo, hi);
                && r == (if k == Length(table) then Done else Fault(k))
                && data[..] == Patched(image, table, base, k)
                && (r.Done? <==> NoneMeets(table, Length(table), base, lo, hi))
    {
      if !mapped {
        return NotMapped;
      }
      Copy(rom, bin);
      Zero(bss, bssSize);
      if !semihosting {
        lockedLo, lockedHi := Align(base + text), AlignUp(base + text + textSize);
      }
      r := DoReloc(table, base);
    }
  }

  // ---- The final image, byte by byte ----

  predicate Covers(e: Reloc, i: nat) { e.offset <= i < e.offset + 8 }

  /** The last of the first `n` entries whose slot contains byte `i`. */
  function LastCover(table: seq<Reloc>, n: nat, i: nat): (k: Option<nat>)
    requires n <= |table|
    ensures k.Some? ==> k.value < n && Covers(table[k.value], i) && forall j :: k.value < j < n ==> !Covers(table[j], i)
    ensures k.None? ==> forall j :: 0 <= j < n ==> !Covers(table[j], i)
  {
    if n == 0 then None else if Covers(table[n - 1], i) then Some(n - 1) else LastCover(table, n - 1, i)
  }

  lemma {:induction false} PatchedByte(bytes: seq<Byte>, table: seq<Reloc>, start: nat, n: nat, i: nat)
    requires n <= |table| && SlotsFit(table, n, |bytes|) && i < |bytes|
    ensures Patched(bytes, table, start, n)[i] ==
            match LastCover(table, n, i)
            case Some(k) => SlotBytes(table[k], start)[i - table[k].offset]
            case None => bytes[i]
  {
    if n > 0 {
      PatchedByte(bytes, table, start, n - 1, i);
    }
  }

  /** Every byte after a load: of its last relocation slot, else zero in bss, else the image's
      byte in the rom range, else what it was. */
  lemma FinalByte(bytes: seq<Byte>, bin: seq<Byte>, rom: nat, bss: nat, bssSize: nat, table: seq<Reloc>, base: nat, i: nat)
    requires rom + |bin| <= |bytes| && bss + bssSize <= |bytes| && i < |bytes|
    requires Terminated(table) && SlotsFit(table, Length(table), |bytes|)
    ensures Patched(Image(bytes, bin, rom, bss, bssSize), table, base, Length(table))[i] ==
            match LastCover(table, Length(table), i)
            case Some(k) => SlotBytes(table[k], base)[i - table[k].offset]
            case None =>
              if bss <= i < bss + bssSize then 0
              else if rom <= i < rom + |bin| then bin[i - rom]
              else bytes[i]
  {
    PatchedByte(Image(bytes, bin, rom, bss, bssSize), table, base, Length(table), i);
  }

  function WordAt(bytes: seq<Byte>, off: nat): nat
    requires off + 8 <= |bytes|
  {
    FromLe(bytes[off..off + 8])
  }

  predicate Disjoint(e: Reloc, d: Reloc) {
    e.offset + 8 <= d.offset || d.offset + 8 <= e.offset
  }

  /** Entry `k` is not overwritten by a later entry. */
  predicate Survives(table: seq<Reloc>, n: nat, k: nat)
    requires k < n <= |table|
  {
    forall j :: k < j < n ==> Disjoint(table[k], table[j])
  }

  lemma SlotReadsBack(e: Reloc, start: nat)
    ensures FromLe(SlotBytes(e, start)) == WordOf(e, start)
  {
    EightBytesHoldAWord();
    WordRoundTrip(WordOf(e, start), 8);
  }

  /** Reading a surviving slot back as a 64-bit word gives the relocated value. */
  lemma SlotHoldsWord(bytes: seq<Byte>, table: seq<Reloc>, start: nat, n: nat, k: nat)
    requires k < n <= |table| && SlotsFit(table, n, |bytes|) && Survives(table, n, k)
    ensures WordAt(Patched(bytes, table, start, n), table[k].offset) == WordOf(table[k], start)
  {
    var out, e := Patched(bytes, table, start, n), table[k];
    forall i | 0 <= i < 8 ensures out[e.offset + i] == SlotBytes(e, start)[i] {
      PatchedByte(bytes, table, start, n, e.offset + i);
      assert Covers(e, e.offset + i);
      assert forall j :: k < j < n ==> !Covers(table[j], e.offset + i);
    }
    assert out[e.offset..e.offset + 8] == SlotBytes(e, start);
    SlotReadsBack(e, start);
  }

  /** Loading the same image at two bases: bytes outside RELATIVE slots agree, and the words in
      surviving RELATIVE slots differ by exactly the distance of the bases, modulo 2^64. */
  lemma RebasedByte(bytes: seq<Byte>, table: seq<Reloc>, start: nat, start': nat, n: nat, i: nat)
    requires n <= |table| && SlotsFit(table, n, |bytes|) && i < |bytes|
    requires var k := LastCover(table, n, i); k.Some? ==> table[k.value].kind != R_AARCH64_RELATIVE
    ensures Patched(bytes, table, start, n)[i] == Patched(bytes, table, start', n)[i]
  {
    PatchedByte(bytes, table, start, n, i);
    PatchedByte(bytes, table, start', n, i);
  }

  lemma {:induction false} RebasedWord(bytes: seq<Byte>, table: seq<Reloc>, start: nat, start': nat, n: nat, k: nat)
    requires k < n <= |table| && SlotsFit(table, n, |bytes|) && Survives(table, n, k)
    requires table[k].kind == R_AARCH64_RELATIVE
    ensures var before := WordAt(Patched(bytes, table, start, n), table[k].offset);
            var after := WordAt(Patched(bytes, table, start', n), table[k].offset);
            (after - before) % TWO_TO_THE_64 == (start' - start) % TWO_TO_THE_64
  {
    SlotHoldsWord(bytes, table, start, n, k);
    SlotHoldsWord(bytes, table, start', n, k);
    SumsDiffer(table[k].addr, start, start');
  }

  lemma SumsDiffer(a: nat, s: nat, s': nat)
    ensures ((a + s') % TWO_TO_THE_64 - (a + s) % TWO_TO_THE_64) % TWO_TO_THE_64 == (s' - s) % TWO_TO_THE_64
  {
    var m := TWO_TO_THE_64;
    var q, q' := (a + s) / m, (a + s') / m;
    assert (a + s') % m - (a + s) % m == (s' - s) + (q - q') * m;
    ModOfMultiple(s' - s, q - q');
  }

  lemma ModOfMultiple(x: int, k: int)
    ensures (x + k * TWO_TO_THE_64) % TWO_TO_THE_64 == x % TWO_TO_THE_64
  {}

  /** When the load completes, the pages that were protected hold exactly the copied image:
      relocation has not changed a byte of the text. */
  lemma TextIsUntouched(image: seq<Byte>, table: seq<Reloc>, base: nat, n: nat, lo: nat, hi: nat, i: nat)
    requires n <= |table| && SlotsFit(table, n, |image|) && i < |image|
    requires NoneMeets(table, n, base, lo, hi) && lo <= base + i < hi
    ensures Patched(image, table, base, n)[i] == image[i]
  {
    PatchedByte(image, table, base, n, i);
  }

  /** In particular every byte of the text: the rounding only adds to it. */
  lemma LoadedTextIsTheImage(image: seq<Byte>, table: seq<Reloc>, base: nat, text: nat, textSize: nat, i: nat)
    requires Terminated(table) && SlotsFit(table, Length(table), |image|) && text <= i < text + textSize && i < |image|
    requires Reached(table, Length(table), base, Align(base + text), AlignUp(base + text + textSize)) == Length(table)
    ensures Patched(image, table, base, Length(table))[i] == image[i]
  {
    var lo, hi := Align(base + text), AlignUp(base + text + textSize);
    RoundedRegion(base + text, textSize);
    CompletesExactly(table, base, lo, hi);
    TextIsUntouched(image, table, base, Length(table), lo, hi, i);
  }
}
