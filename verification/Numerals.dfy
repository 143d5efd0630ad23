/** Numbers as text: the `{:x}` printing and `int(text, 16)` / `int(text)` parsing that every
    label of the translated code goes through. */
module Numerals {

  predicate IsDigit(c: char, base: nat) {
    || ('0' <= c <= '9' && (c as int - '0' as int) < base)
    || ('a' <= c <= 'f' && (c as int - 'a' as int) + 10 < base)
    || ('A' <= c <= 'F' && (c as int - 'A' as int) + 10 < base)
  }

  predicate IsNumeral(s: string, base: nat) {
    s != "" && forall i :: 0 <= i < |s| ==> IsDigit(s[i], base)
  }

  type HexText = s: string | IsNumeral(s, 16) witness "0"
  type DecText = s: string | IsNumeral(s, 10) witness "0"

  function DigitValue(c: char, base: nat): (d: nat)
    requires IsDigit(c, base)
    ensures d < base
  {
    if '0' <= c <= '9' then c as int - '0' as int
    else if 'a' <= c <= 'f' then c as int - 'a' as int + 10
    else c as int - 'A' as int + 10
  }

  /** The number that digit text denotes. */
  function ValueOf(s: string, base: nat): nat
    requires IsNumeral(s, base)
  {
    var last := DigitValue(s[|s| - 1], base);
    if |s| == 1 then last else ValueOf(s[..|s| - 1], base) * base + last
  }

  function HexDigit(d: nat): (c: char)
    requires d < 16
    ensures IsDigit(c, 16) && DigitValue(c, 16) == d
  {
    if d < 10 then '0' + d as char else 'a' + (d - 10) as char
  }

  /** Lower-case hexadecimal without leading zeros. */
  function PrintHex(n: nat): (s: HexText)
    ensures ValueOf(s, 16) == n
  {
    if n < 16 then
      [HexDigit(n)]
    else
      var high := PrintHex(n / 16);
      var s := high + [HexDigit(n % 16)];
      assert s[..|s| - 1] == high;
      s
  }

  /** The spelling `{:x}` would choose: no capitals, no superfluous zero in front. */
  predicate Canonical(s: string) {
    && IsNumeral(s, 16)
    && (forall i :: 0 <= i < |s| ==> !('A' <= s[i] <= 'F'))
    && (s[0] == '0' ==> |s| == 1)
  }

  lemma {:induction false} PositiveUnlessZero(s: string)
    requires IsNumeral(s, 16) && s[0] != '0'
    ensures ValueOf(s, 16) > 0
  {
    if |s| > 1 {
      PositiveUnlessZero(s[..|s| - 1]);
    }
  }

  lemma {:induction false} PrintIsCanonical(n: nat)
    ensures Canonical(PrintHex(n))
    ensures n > 0 ==> PrintHex(n)[0] != '0'
  {
    if n >= 16 {
      PrintIsCanonical(n / 16);
    }
  }

  lemma FrontIsCanonical(s: string)
    requires Canonical(s) && |s| > 1
    ensures Canonical(s[..|s| - 1]) && s[..|s| - 1][0] != '0'
    ensures ValueOf(s, 16) == ValueOf(s[..|s| - 1], 16) * 16 + DigitValue(s[|s| - 1], 16)
  {}

  lemma {:induction false} CanonicalIsPrinted(s: string)
    requires Canonical(s)
    ensures PrintHex(ValueOf(s, 16)) == s
  {
    if |s| > 1 {
      var high, last := s[..|s| - 1], s[|s| - 1];
      assert s == high + [last];
      FrontIsCanonical(s);
      CanonicalIsPrinted(high);
      PositiveUnlessZero(high);
      DigitIsPrinted(last);
      PrintMore(ValueOf(high, 16), DigitValue(last, 16));
    } else {
      DigitIsPrinted(s[0]);
    }
  }

  lemma DigitIsPrinted(c: char)
    requires IsDigit(c, 16) && !('A' <= c <= 'F')
    ensures HexDigit(DigitValue(c, 16)) == c
  {}

  lemma PrintMore(n: nat, d: nat)
    requires n > 0 && d < 16
    ensures PrintHex(n * 16 + d) == PrintHex(n) + [HexDigit(d)]
  {
    assert (n * 16 + d) / 16 == n && (n * 16 + d) % 16 == d;
  }

  /** Reprinting parsed text is the identity exactly on the canonical spellings. */
  lemma {:induction false} ReprintExactlyCanonical(s: HexText)
    ensures PrintHex(ValueOf(s, 16)) == s <==> Canonical(s)
  {
    if Canonical(s) {
      CanonicalIsPrinted(s);
    }
    PrintIsCanonical(ValueOf(s, 16));
  }

  /** A raw text `s` and the computed label of `n` are the same label exactly when `s` is
      canonical and denotes `n`. */
  lemma LabelsAgree(s: HexText, n: nat)
    ensures s == PrintHex(n) <==> Canonical(s) && ValueOf(s, 16) == n
  {
    ReprintExactlyCanonical(s);
    PrintIsCanonical(n);
  }

  /** A label of the repository. */
  lemma PrintsLowerCase()
    ensures PrintHex(0x14a8df) == "14a8df"
  {
    PrintMore(0x1, 4);
    PrintMore(0x14, 10);
    PrintMore(0x14a, 8);
    PrintMore(0x14a8, 13);
    PrintMore(0x14a8d, 15);
    assert PrintHex(0x1) == "1";
    assert ['1'] + ['4'] + ['a'] + ['8'] + ['d'] + ['f'] == "14a8df";
  }

  lemma {:induction false} PrintedLength(n: nat, digits: nat)
    requires n < Power16(digits) && digits > 0
    ensures |PrintHex(n)| <= digits
  {
    if n >= 16 {
      PrintedLength(n / 16, digits - 1);
    }
  }

  function Power16(k: nat): nat {
    if k == 0 then 1 else 16 * Power16(k - 1)
  }
}
