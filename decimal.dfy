/**
 * Decimal digits as Go's time formatting writes them: a number printed with
 * at least `width` digits, padded on the left with zeros (the "2006", "01",
 * "000" layout elements), and the inverse reading that `strconv.Atoi` performs
 * on a run of ASCII digits.
 */
module Decimal {

  predicate IsDigit(c: char) {
    '0' <= c <= '9'
  }

  predicate AllDigits(s: string) {
    forall i :: 0 <= i < |s| ==> IsDigit(s[i])
  }

  function DigitChar(d: nat): (c: char)
    requires d < 10
    ensures IsDigit(c)
  {
    (('0' as int) + d) as char
  }

  function DigitValue(c: char): (d: nat)
    requires IsDigit(c)
    ensures d < 10 && DigitChar(d) == c
  {
    (c as int) - ('0' as int)
  }

  function Pow10(n: nat): (p: nat)
    ensures p >= 1
  {
    if n == 0 then 1 else 10 * Pow10(n - 1)
  }

  /** `n` in decimal with at least `width` digits, zero-padded on the left. */
  function Padded(n: nat, width: nat): (s: string)
    ensures |s| >= 1 && |s| >= width && AllDigits(s)
    decreases n + width
  {
    (if n >= 10 || width > 1 then Padded(n / 10, if width > 0 then width - 1 else 0) else "")
      + [DigitChar(n % 10)]
  }

  /** The value of a string of decimal digits, leading zeros allowed. */
  function ParseDigits(s: string): nat
    requires AllDigits(s)
  {
    if s == [] then 0 else ParseDigits(s[..|s| - 1]) * 10 + DigitValue(s[|s| - 1])
  }

  /** A number below 10^width is printed in exactly `width` digits, and reading them back gives the number. */
  lemma {:induction false} PaddedRoundTrip(n: nat, width: nat)
    requires width >= 1 && n < Pow10(width)
    ensures |Padded(n, width)| == width
    ensures ParseDigits(Padded(n, width)) == n
  {
    var s := Padded(n, width);
    if width == 1 {
      assert s == [DigitChar(n)];
      assert s[..0] == [];
    } else {
      var p := Pow10(width - 1);
      assert Pow10(width) == 10 * p;
      var q, d := n / 10, n % 10;
      assert n == 10 * q + d && 0 <= d < 10;
      assert q < p;
      var prefix := Padded(q, width - 1);
      PaddedRoundTrip(q, width - 1);
      assert s == prefix + [DigitChar(d)];
      assert s[..|s| - 1] == prefix;
      assert DigitValue(DigitChar(d)) == d;
      assert ParseDigits(s) == ParseDigits(prefix) * 10 + d;
    }
  }

  /** Two fixed-width numerals are equal exactly when the numbers are. */
  lemma PaddedInjective(a: nat, b: nat, width: nat)
    requires width >= 1 && a < Pow10(width) && b < Pow10(width)
    requires Padded(a, width) == Padded(b, width)
    ensures a == b
  {
    PaddedRoundTrip(a, width);
    PaddedRoundTrip(b, width);
  }
}
