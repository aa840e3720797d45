/**
 * Decimal rendering of non-negative integers, as JavaScript's
 * `Number.prototype.toString()` prints them, and `padStart(2, "0")`.
 * `ValueOf` reads a digit string back; the round-trip lemmas make it
 * the partner of the renderers.
 */
module Decimal {

  predicate IsDigit(c: char) {
    '0' <= c <= '9'
  }

  predicate AllDigits(s: string) {
    forall i :: 0 <= i < |s| ==> IsDigit(s[i])
  }

  function DigitChar(d: nat): (c: char)
    requires d < 10
    ensures IsDigit(c) && DigitValue(c) == d
  {
    (('0' as int) + d) as char
  }

  function DigitValue(c: char): nat
    requires IsDigit(c)
  {
    (c as int) - ('0' as int)
  }

  /** The decimal numeral of `n`, without leading zeros. */
  function NatStr(n: nat): (s: string)
    ensures |s| >= 1 && AllDigits(s)
    ensures (s[0] == '0') == (n == 0)
    ensures n < 10 <==> |s| == 1
  {
    if n < 10 then [DigitChar(n)] else NatStr(n / 10) + [DigitChar(n % 10)]
  }

  /** The number a digit string denotes (leading zeros allowed). */
  function ValueOf(s: string): nat
    requires AllDigits(s)
  {
    if s == [] then 0 else ValueOf(s[..|s| - 1]) * 10 + DigitValue(s[|s| - 1])
  }

  /** `n.toString().padStart(2, "0")`. */
  function Pad2(n: nat): (s: string)
    ensures AllDigits(s)
    ensures n < 100 ==> |s| == 2 && ValueOf(s) == n
    ensures n >= 10 ==> s == NatStr(n)
  {
    var digits := NatStr(n);
    ValueOfNatStr(n);
    if |digits| >= 2 then digits
    else
      assert ['0'] + digits == ['0', digits[0]];
      ['0'] + digits
  }

  /** Reading back the numeral of `n` gives `n`. */
  lemma {:induction false} ValueOfNatStr(n: nat)
    ensures ValueOf(NatStr(n)) == n
  {
    if n >= 10 {
      var s := NatStr(n);
      assert s[..|s| - 1] == NatStr(n / 10);
      ValueOfNatStr(n / 10);
    }
  }

  /** Numerals are distinct: `NatStr` is injective. */
  lemma NatStrInjective(m: nat, n: nat)
    requires NatStr(m) == NatStr(n)
    ensures m == n
  {
    ValueOfNatStr(m);
    ValueOfNatStr(n);
  }
}
