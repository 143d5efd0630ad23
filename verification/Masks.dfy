/** The ALIGN macros of ututna/reloc.c on 64-bit words: what the page rounding of the loader computes
    is what the masks compute. */
module Masks {
  import opened Loader

  /** The number a word stands for. */
  function Unsigned(a: bv64): nat {
    if a == 0 then 0 else 2 * Unsigned(a >> 1) + Bit(a)
  }

  function Bit(a: bv64): nat { if a & 1 == 1 then 1 else 0 }

  lemma Halve(a: bv64)
    ensures Unsigned(a) == 2 * Unsigned(a >> 1) + Bit(a)
  {}

  function Power2(k: nat): nat { if k == 0 then 1 else 2 * Power2(k - 1) }

  /** What is left of a word without its low `k` bits. */
  function High(a: bv64, k: nat): bv64 { if k == 0 then a else High(a >> 1, k - 1) }

  /** The number its low `k` bits stand for. */
  function Low(a: bv64, k: nat): nat { if k == 0 then 0 else Bit(a) + 2 * Low(a >> 1, k - 1) }

  lemma {:induction false} SplitBits(a: bv64, k: nat)
    ensures Unsigned(a) == Power2(k) * Unsigned(High(a, k)) + Low(a, k) && Low(a, k) < Power2(k)
    decreases k
  {
    if k > 0 {
      Halve(a);
      SplitBits(a >> 1, k - 1);
      Double(Power2(k - 1), Unsigned(High(a >> 1, k - 1)), Low(a >> 1, k - 1));
    }
  }

  lemma Double(p: nat, u: nat, l: nat)
    ensures 2 * (p * u + l) == 2 * p * u + 2 * l
  {}

  lemma HighOfThree(a: bv64)
    ensures High(a, 3) == a >> 3
  {
    assert High(a, 3) == High(a >> 1, 2) == High(a >> 1 >> 1, 1) == a >> 1 >> 1 >> 1;
  }

  lemma {:induction false} HighMore(a: bv64, k: nat, n: nat)
    ensures High(a, k + n) == High(High(a, k), n)
    decreases k
  {
    if k > 0 {
      HighMore(a >> 1, k - 1, n);
    }
  }

  lemma {:induction false} LowMore(a: bv64, k: nat, n: nat)
    ensures Low(a, k + n) == 0 <==> Low(a, k) == 0 && Low(High(a, k), n) == 0
    decreases k
  {
    if k > 0 {
      LowMore(a >> 1, k - 1, n);
    }
  }

  lemma LowOfThree(a: bv64)
    ensures Low(a, 3) == 0 <==> Bit(a) == 0 && Bit(a >> 1) == 0 && Bit(a >> 1 >> 1) == 0
  {
    assert Low(a, 3) == Bit(a) + 2 * Low(a >> 1, 2) && Low(a >> 1, 2) == Bit(a >> 1) + 2 * Low(a >> 1 >> 1, 1);
  }

  lemma ThreeZeros(a: bv64)
    ensures Bit(a) == 0 && Bit(a >> 1) == 0 && Bit(a >> 1 >> 1) == 0 <==> a & 7 == 0
  {}

  lemma SkipThree(a: bv64, b: bv64, n: nat)
    requires b == a >> 3
    ensures High(a, n + 3) == High(b, n)
  {
    HighMore(a, 3, n);
    HighOfThree(a);
  }

  lemma SkipThreeZeros(a: bv64, b: bv64, n: nat)
    requires b == a >> 3
    ensures Low(a, n + 3) == 0 <==> a & 7 == 0 && Low(b, n) == 0
  {
    LowMore(a, 3, n);
    HighOfThree(a);
    LowOfThree(a);
    ThreeZeros(a);
  }

  lemma TwoSkips(a: bv64, b: bv64, c: bv64, n: nat)
    requires b == a >> 3 && c == b >> 3
    ensures High(a, n + 6) == High(c, n)
    ensures Low(a, n + 6) == 0 <==> a & 7 == 0 && b & 7 == 0 && Low(c, n) == 0
  {
    SkipThree(a, b, n + 3);
    SkipThree(b, c, n);
    SkipThreeZeros(a, b, n + 3);
    SkipThreeZeros(b, c, n);
  }

  lemma FourSkips(a: bv64, b: bv64, c: bv64, d: bv64, e: bv64, k: nat)
    requires b == a >> 3 && c == b >> 3 && d == c >> 3 && e == d >> 3 && k == 12
    ensures High(a, k) == e
    ensures Low(a, k) == 0 <==> a & 7 == 0 && b & 7 == 0 && c & 7 == 0 && d & 7 == 0
  {
    TwoSkips(a, b, c, k - 6);
    TwoSkips(c, d, e, k - 12);
  }

  lemma ThreeTimesFour(a: bv64, b: bv64, c: bv64, d: bv64, e: bv64)
    requires b == a >> 3 && c == b >> 3 && d == c >> 3 && e == d >> 3
    ensures a & 0xFFF == 0 <==> a & 7 == 0 && b & 7 == 0 && c & 7 == 0 && d & 7 == 0
    ensures e == a >> 12
  {}

  /** A page is twelve bits. */
  lemma PageBits(a: bv64, k: nat)
    requires k == 12
    ensures High(a, k) == a >> 12
    ensures Low(a, k) == 0 <==> a & 0xFFF == 0
  {
    var b := a >> 3;
    var c := b >> 3;
    var d := c >> 3;
    var e := d >> 3;
    FourSkips(a, b, c, d, e, k);
    ThreeTimesFour(a, b, c, d, e);
  }

  lemma TwelveBits()
    ensures Power2(12) == 0x1000
  {
    assert Power2(4) == 16 && Power2(8) == 256;
  }

  /** A word is its page and what is left of it, which is nothing exactly on a page boundary. */
  lemma SplitPage(a: bv64) returns (low: nat)
    ensures Unsigned(a) == 0x1000 * Unsigned(a >> 12) + low && low < 0x1000
    ensures low == 0 <==> a & 0xFFF == 0
  {
    var k := 12;
    low := Low(a, k);
    SplitBits(a, k);
    PageBits(a, k);
    TwelveBits();
  }

  lemma EvenSuccessor(a: bv64)
    requires a & 1 != 1
    ensures (a + 1) >> 1 == a >> 1 && (a + 1) & 1 == 1
  {}

  lemma OddSuccessor(a: bv64)
    requires a & 1 == 1 && a != !0
    ensures (a + 1) >> 1 == (a >> 1) + 1 && (a + 1) & 1 != 1
  {}

  lemma HalfIsSmall(a: bv64)
    ensures a >> 1 != !0
    ensures a != 0 ==> a >> 1 < a
  {}

  lemma HalveBoth(a: bv64)
    requires a != !0
    ensures a & 1 == 1 ==> Unsigned(a) == 2 * Unsigned(a >> 1) + 1 && Unsigned(a + 1) == 2 * Unsigned((a >> 1) + 1)
    ensures a & 1 != 1 ==> Unsigned(a + 1) == Unsigned(a) + 1
  {
    Halve(a);
    Halve(a + 1);
    if a & 1 == 1 {
      OddSuccessor(a);
    } else {
      EvenSuccessor(a);
    }
  }

  lemma CarriedOver(a: bv64)
    requires a != !0
    requires a & 1 == 1 ==> Unsigned((a >> 1) + 1) == Unsigned(a >> 1) + 1
    ensures Unsigned(a + 1) == Unsigned(a) + 1
  {
    HalveBoth(a);
  }

  lemma {:induction false} Successor(a: bv64, n: nat)
    requires a != !0 && n == Unsigned(a)
    ensures Unsigned(a + 1) == Unsigned(a) + 1
    decreases n
  {
    HalfIsSmall(a);
    Halve(a);
    if a & 1 == 1 {
      Successor(a >> 1, Unsigned(a >> 1));
    }
    CarriedOver(a);
  }

  lemma MaskClears(a: bv64)
    ensures (a & !0xFFF) >> 12 == a >> 12 && (a & !0xFFF) & 0xFFF == 0
  {}

  lemma SamePage(n: nat, page: nat, low: nat)
    requires n == 0x1000 * page + low && low < 0x1000
    ensures Align(n) == 0x1000 * page
    ensures AlignUp(n) == 0x1000 * (if low == 0 then page else page + 1)
  {}

  /** `ALIGN(a, PAGE_SIZE)`: the mask clears what the rounding takes off. */
  lemma AlignMasks(a: bv64)
    ensures Align(Unsigned(a)) == Unsigned(a & !0xFFF)
  {
    var low := SplitPage(a);
    var none := SplitPage(a & !0xFFF);
    MaskClears(a);
    SamePage(Unsigned(a), Unsigned(a >> 12), low);
  }

  const LAST_PAGE: bv64 := 0xF_FFFF_FFFF_FFFF
  const BEYOND: bv64 := 0x10_0000_0000_0000

  lemma WholePages(a: bv64, page: bv64)
    requires page == a >> 12 && a & 0xFFF == 0
    ensures Unsigned(a) == 0x1000 * Unsigned(page)
  {
    var low := SplitPage(a);
  }

  lemma LastPageIsLast()
    ensures Unsigned(LAST_PAGE) == 0x10_0000_0000_0000 - 1
  {
    Successor(LAST_PAGE, Unsigned(LAST_PAGE));
    assert LAST_PAGE + 1 == BEYOND;
    WholePages(BEYOND, 0x100_0000_0000);
    WholePages(0x100_0000_0000, 0x1000_0000);
    WholePages(0x1000_0000, 0x1_0000);
    WholePages(0x1_0000, 0x10);
    Sixteen();
  }

  lemma Sixteen()
    ensures Unsigned(0x10) == 16
  {
    assert Unsigned(1) == 1;
    assert Unsigned(4) == 2 * Unsigned(2) == 4;
  }

  lemma MaskRoundsUp(a: bv64)
    ensures a & 0xFFF == 0 ==> (a + 0xFFF) & !0xFFF == a
    ensures a & 0xFFF != 0 && a >> 12 != LAST_PAGE ==>
              ((a + 0xFFF) & !0xFFF) >> 12 == (a >> 12) + 1 && ((a + 0xFFF) & !0xFFF) & 0xFFF == 0 && a >> 12 != !0
  {}

  lemma RoundedUp(a: bv64, up: bv64, page: bv64, next: bv64)
    requires page == a >> 12 && next == page + 1 && page != !0 && next == up >> 12 && up & 0xFFF == 0
    ensures Unsigned(up) == 0x1000 * (Unsigned(page) + 1)
  {
    Successor(page, Unsigned(page));
    WholePages(up, next);
  }

  lemma NotLastPage(a: bv64, page: bv64, low: nat)
    requires Unsigned(a) == 0x1000 * Unsigned(page) + low && 0 < low && Unsigned(a) + 0xFFF < TWO_TO_THE_64
    ensures page != LAST_PAGE
  {
    LastPageIsLast();
  }

  lemma RoundUpPartial(a: bv64, page: bv64, up: bv64, low: nat)
    requires page == a >> 12 && up == (a + 0xFFF) & !0xFFF && a & 0xFFF != 0
    requires Unsigned(a) == 0x1000 * Unsigned(page) + low && 0 < low < 0x1000 && Unsigned(a) + 0xFFF < TWO_TO_THE_64
    ensures Unsigned(up) == 0x1000 * (Unsigned(page) + 1)
  {
    NotLastPage(a, page, low);
    MaskRoundsUp(a);
    RoundedUp(a, up, page, page + 1);
  }

  /** `ALIGN_UP(a, PAGE_SIZE)`, where the sum fits the word. */
  lemma AlignUpMasks(a: bv64)
    requires Unsigned(a) + 0xFFF < TWO_TO_THE_64
    ensures AlignUp(Unsigned(a)) == Unsigned((a + 0xFFF) & !0xFFF)
  {
    var low := SplitPage(a);
    SamePage(Unsigned(a), Unsigned(a >> 12), low);
    if low > 0 {
      RoundUpPartial(a, a >> 12, (a + 0xFFF) & !0xFFF, low);
    } else {
      MaskRoundsUp(a);
    }
  }
}
