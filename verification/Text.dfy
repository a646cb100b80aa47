// The number formats of log and trace records.
module Text {
  import Bits

  function Digit(d: nat): char
    requires d < 16
  {
    "0123456789abcdef"[d]
  }

  function Decimal(n: nat): (s: string)
    ensures s != ""
  {
    if n < 10 then [Digit(n)] else Decimal(n / 10) + [Digit(n % 10)]
  }

  // At least two digits.
  function Pad2(n: nat): string { if n < 10 then "0" + Decimal(n) else Decimal(n) }

  // Exactly k lower-case hexadecimal digits.
  function Hex(n: nat, k: nat): (s: string)
    ensures |s| == k
  {
    if k == 0 then "" else Hex(n / 16, k - 1) + [Digit(n % 16)]
  }

  function Pow10(k: nat): nat { if k == 0 then 1 else 10 * Pow10(k - 1) }

  lemma {:induction false} DecimalLength(n: nat, k: nat)
    requires k > 0 && n < Pow10(k)
    ensures |Decimal(n)| <= k
  {
    assert Pow10(1) == 10;
    if n >= 10 { DecimalLength(n / 10, k - 1); }
  }

  lemma Pow10Of20()
    ensures Pow10(20) > 0xffff_ffff_ffff_ffff
  {
    assert Pow10(5) == 100_000;
    assert Pow10(10) == 100_000 * Pow10(5);
    assert Pow10(15) == 100_000 * Pow10(10);
    assert Pow10(20) == 100_000 * Pow10(15);
  }

  // A 64-bit number takes at most 20 digits.
  lemma WordDigits(n: nat)
    requires n <= 0xffff_ffff_ffff_ffff
    ensures |Decimal(n)| <= 20
  {
    Pow10Of20();
    DecimalLength(n, 20);
  }

  // ---------- reading numbers back ----------

  predicate IsDigit(c: char) { '0' <= c <= '9' }

  function DigitValue(c: char): nat
    requires IsDigit(c)
  {
    c as int - '0' as int
  }

  // The decimal number a text starts with, after the digits read so far, and
  // what follows it.
  function ReadDecimal(text: string, before: nat): (nat, string) {
    if text == "" || !IsDigit(text[0]) then (before, text)
    else ReadDecimal(text[1..], 10 * before + DigitValue(text[0]))
  }

  predicate NoDigit(text: string) { text == "" || !IsDigit(text[0]) }

  lemma DigitReads(d: nat)
    requires d < 10
    ensures IsDigit(Digit(d)) && DigitValue(Digit(d)) == d
  {}

  lemma OneDigit(d: nat, rest: string, before: nat)
    requires d < 10
    ensures ReadDecimal([Digit(d)] + rest, before) == ReadDecimal(rest, 10 * before + d)
  {
    DigitReads(d);
    hide Digit, IsDigit, DigitValue;
    assert ([Digit(d)] + rest)[1..] == rest;
  }

  lemma {:induction false} DecimalDigits(n: nat, rest: string)
    ensures ReadDecimal(Decimal(n) + rest, 0) == ReadDecimal(rest, n)
  {
    hide ReadDecimal, Digit;
    OneDigit(n % 10, rest, n / 10);
    if n >= 10 {
      DecimalDigits(n / 10, [Digit(n % 10)] + rest);
      assert Decimal(n) + rest == Decimal(n / 10) + ([Digit(n % 10)] + rest);
    }
  }

  // A printed number reads back, up to the first character that is no digit.
  lemma DecimalReads(n: nat, rest: string)
    requires NoDigit(rest)
    ensures ReadDecimal(Decimal(n) + rest, 0) == (n, rest)
  {
    DecimalDigits(n, rest);
    hide Decimal;
  }

  // A padded number reads back too; below 100 it takes two digits.
  lemma Pad2Reads(n: nat, rest: string)
    requires NoDigit(rest)
    ensures ReadDecimal(Pad2(n) + rest, 0) == (n, rest)
    ensures n < 100 ==> |Pad2(n)| == 2
  {
    DecimalReads(n, rest);
    if n < 10 {
      hide Decimal;
      OneDigit(0, Decimal(n) + rest, 0);
      assert Digit(0) == '0' && "0" + Decimal(n) + rest == [Digit(0)] + (Decimal(n) + rest);
    } else if n < 100 {
      assert |Decimal(n / 10)| == 1;
    }
  }

  predicate IsHexDigit(c: char) { IsDigit(c) || 'a' <= c <= 'f' }

  function HexValue(c: char): nat
    requires IsHexDigit(c)
  {
    if IsDigit(c) then c as int - '0' as int else c as int - 'a' as int + 10
  }

  // The number in a string of hexadecimal digits.
  function ReadHex(text: string): nat
    requires forall i | 0 <= i < |text| :: IsHexDigit(text[i])
  {
    if text == "" then 0 else 16 * ReadHex(text[..|text| - 1]) + HexValue(text[|text| - 1])
  }

  function Pow16(k: nat): (p: nat)
    ensures p > 0
  {
    if k == 0 then 1 else 16 * Pow16(k - 1)
  }

  lemma HexDigitReads(d: nat)
    requires d < 16
    ensures IsHexDigit(Digit(d)) && HexValue(Digit(d)) == d
  {}

  // k printed hexadecimal digits read back as the number's last k digits.
  lemma {:induction false} HexReads(n: nat, k: nat)
    ensures forall i | 0 <= i < k :: IsHexDigit(Hex(n, k)[i])
    ensures ReadHex(Hex(n, k)) == n % Pow16(k)
  {
    if k > 0 {
      HexReads(n / 16, k - 1);
      HexDigitReads(n % 16);
      assert Hex(n, k)[..k - 1] == Hex(n / 16, k - 1);
      RemainderDigit(n, Pow16(k - 1));
    }
  }

  lemma RemainderDigit(n: nat, p: nat)
    requires p > 0
    ensures n % (16 * p) == 16 * (n / 16 % p) + n % 16
  {
    var q, r := n / 16 / p, n / 16 % p;
    assert n == 16 * (q * p + r) + n % 16;
    assert 16 * (q * p) == q * (16 * p);
    Bits.QuotientIs(n, 16 * p, q, 16 * r + n % 16);
  }
}
