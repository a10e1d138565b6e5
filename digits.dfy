/**
  Decimal digits: the value of a digit string, Python's `str(int)`, and
  printf-style zero padding (`%02d`, `%04d`, `%06d`) as used by `isoformat()`.
*/
module Digits {

  predicate IsDigit(c: char) { '0' <= c <= '9' }

  predicate AllDigits(s: string) { forall i :: 0 <= i < |s| ==> IsDigit(s[i]) }

  function DigitValue(c: char): nat
    requires IsDigit(c)
  {
    c as int - '0' as int
  }

  function DigitChar(d: nat): (c: char)
    requires d < 10
    ensures IsDigit(c) && DigitValue(c) == d
  {
    (d + '0' as int) as char
  }

  function Pow10(n: nat): (r: nat)
    ensures r >= 1
  {
    if n == 0 then 1 else 10 * Pow10(n - 1)
  }

  /** The number a string of decimal digits denotes, most significant digit first. */
  function ValueOf(s: string): nat
    requires AllDigits(s)
  {
    if s == [] then 0 else 10 * ValueOf(s[..|s| - 1]) + DigitValue(s[|s| - 1])
  }

  /** `n` written with exactly `width` digits, zero-padded on the left. */
  function Padded(n: nat, width: nat): string
  {
    if width == 0 then [] else Padded(n / 10, width - 1) + [DigitChar(n % 10)]
  }

  /** Python's `str(n)` for a natural number: no leading zeros, "0" for zero. */
  function Decimal(n: nat): string
  {
    if n < 10 then [DigitChar(n)] else Decimal(n / 10) + [DigitChar(n % 10)]
  }

  /** Python's `str(i)` for any integer. */
  function IntText(i: int): string
  {
    if i < 0 then "-" + Decimal(-i) else Decimal(i)
  }

  /** Every number below 10^width is rendered in exactly `width` digits that read back as it. */
  lemma {:induction false} PaddedDenotes(n: nat, width: nat)
    requires n < Pow10(width)
    ensures |Padded(n, width)| == width
    ensures AllDigits(Padded(n, width))
    ensures ValueOf(Padded(n, width)) == n
  {
    if width > 0 {
      PaddedDenotes(n / 10, width - 1);
      var s := Padded(n, width);
      assert s[..|s| - 1] == Padded(n / 10, width - 1);
    }
  }

  /** `str(n)` is a non-empty digit string without a leading zero that reads back as `n`. */
  lemma {:induction false} DecimalDenotes(n: nat)
    ensures |Decimal(n)| >= 1
    ensures AllDigits(Decimal(n))
    ensures ValueOf(Decimal(n)) == n
    ensures |Decimal(n)| > 1 ==> Decimal(n)[0] != '0'
  {
    if n >= 10 {
      DecimalDenotes(n / 10);
      var s := Decimal(n);
      assert s[..|s| - 1] == Decimal(n / 10);
    }
  }

  /** `str(i)` carries a minus sign exactly when `i` is negative, followed by the digits of |i|. */
  lemma IntTextDenotes(i: int)
    ensures var s := IntText(i);
      var digits := if i < 0 then s[1..] else s;
      && |s| >= 1
      && (s[0] == '-' <==> i < 0)
      && AllDigits(digits)
      && ValueOf(digits) == (if i < 0 then -i else i)
  {
    if i < 0 {
      DecimalDenotes(-i);
      assert IntText(i)[1..] == Decimal(-i);
    } else {
      DecimalDenotes(i);
    }
  }
}
