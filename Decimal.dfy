/**
 * Decimal text of integers, as Java's `Integer.toString` and string concatenation
 * `"file_" + i` write it: an optional minus sign, then the digits, most significant
 * first, with no leading zeros. `ValueOf` and `SignedValueOf` read the text back and
 * serve as the independent definition that the printers are proved against.
 */
module Decimal {

  /** Java's 32-bit `int`. */
  newtype int32 = x: int | -0x8000_0000 <= x < 0x8000_0000

  predicate IsDigit(c: char) {
    '0' <= c <= '9'
  }

  predicate AllDigits(s: string) {
    forall i :: 0 <= i < |s| ==> IsDigit(s[i])
  }

  function DigitChar(d: nat): (c: char)
    requires d < 10
    ensures IsDigit(c) && c as int - '0' as int == d
  {
    ('0' as int + d) as char
  }

  /** The decimal digits of `n`; the text is never empty. */
  function FromNat(n: nat): (s: string)
    ensures |s| >= 1 && AllDigits(s)
    decreases n
  {
    if n < 10 then [DigitChar(n)] else FromNat(n / 10) + [DigitChar(n % 10)]
  }

  /** The number a string of decimal digits stands for. */
  function ValueOf(s: string): nat
    requires AllDigits(s)
  {
    if s == [] then 0 else ValueOf(s[..|s| - 1]) * 10 + (s[|s| - 1] as int - '0' as int)
  }

  /** `Integer.toString(x)`. */
  function FromInt(x: int): string {
    if x < 0 then "-" + FromNat(-x) else FromNat(x)
  }

  /** Text of the form `FromInt` produces: an optional leading minus, then digits. */
  predicate IsIntText(s: string) {
    if |s| > 0 && s[0] == '-' then AllDigits(s[1..]) else AllDigits(s)
  }

  /** The number a signed decimal text stands for. */
  function SignedValueOf(s: string): int
    requires IsIntText(s)
  {
    if |s| > 0 && s[0] == '-' then -(ValueOf(s[1..]) as int) else ValueOf(s)
  }

  /** Reading back what `FromNat` writes gives the number written. */
  lemma {:induction false} FromNatRoundTrip(n: nat)
    ensures ValueOf(FromNat(n)) == n
  {
    if n >= 10 {
      var s := FromNat(n);
      assert s[..|s| - 1] == FromNat(n / 10);
      FromNatRoundTrip(n / 10);
    }
  }

  /** The text has no leading zero: only the number 0 is written starting with `'0'`. */
  lemma {:induction false} FromNatNoLeadingZero(n: nat)
    ensures FromNat(n)[0] == '0' ==> n == 0
    decreases n
  {
    if n >= 10 {
      assert FromNat(n)[0] == FromNat(n / 10)[0];
      FromNatNoLeadingZero(n / 10);
    }
  }

  /** Different numbers have different decimal texts. */
  lemma FromNatInjective(a: nat, b: nat)
    ensures FromNat(a) == FromNat(b) <==> a == b
  {
    FromNatRoundTrip(a);
    FromNatRoundTrip(b);
  }

  /** Reading back what `FromInt` writes gives the number written, whatever its sign. */
  lemma FromIntRoundTrip(x: int)
    ensures IsIntText(FromInt(x)) && SignedValueOf(FromInt(x)) == x
  {
    var s := FromInt(x);
    if x < 0 {
      assert s[1..] == FromNat(-x);
      FromNatRoundTrip(-x);
    } else {
      assert IsDigit(s[0]);
      FromNatRoundTrip(x);
    }
  }
}
