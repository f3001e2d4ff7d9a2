/**
 * Decimal rendering of numbers as JavaScript's `Number.prototype.toString`
 * and template literals produce it for integers, and the two-digit labels
 * built with `toString().padStart(2, "0")`.
 */
module Digits {

  predicate IsDigit(c: char)
  {
    '0' <= c <= '9'
  }

  predicate AllDigits(s: string)
  {
    forall i :: 0 <= i < |s| ==> IsDigit(s[i])
  }

  function DigitChar(d: nat): (c: char)
    requires d < 10
    ensures IsDigit(c)
  {
    (48 + d) as char
  }

  function DigitValue(c: char): int
  {
    c as int - 48
  }

  /** The decimal digits of `n`, most significant first, without leading zeros. */
  function DecimalString(n: nat): (s: string)
    ensures 1 <= |s|
    ensures AllDigits(s)
    ensures n < 10 <==> |s| == 1
    decreases n
  {
    if n < 10 then [DigitChar(n)] else DecimalString(n / 10) + [DigitChar(n % 10)]
  }

  /** The number a string of decimal digits denotes (the reference reading of a label). */
  function DigitsValue(s: string): (v: int)
    ensures AllDigits(s) ==> v >= 0
  {
    if s == [] then 0 else DigitsValue(s[..|s| - 1]) * 10 + DigitValue(s[|s| - 1])
  }

  /** Reading back what DecimalString wrote gives the number again. */
  lemma {:induction false} DecimalRoundTrip(n: nat)
    ensures DigitsValue(DecimalString(n)) == n
    decreases n
  {
    if n >= 10 {
      var s := DecimalString(n);
      assert s[..|s| - 1] == DecimalString(n / 10);
      DecimalRoundTrip(n / 10);
    }
  }

  /** Distinct numbers have distinct decimal strings. */
  lemma DecimalInjective(a: nat, b: nat)
    ensures DecimalString(a) == DecimalString(b) <==> a == b
  {
    DecimalRoundTrip(a);
    DecimalRoundTrip(b);
  }

  /** `n.toString()`, with a leading '-' for negative numbers. */
  function IntString(n: int): (s: string)
    ensures 1 <= |s|
    ensures n >= 0 <==> s[0] != '-'
  {
    if n < 0 then "-" + DecimalString(-n) else DecimalString(n)
  }

  /** `n.toString().padStart(2, "0")`: a one-digit string gets a leading '0'. */
  function PadStart2(n: nat): (s: string)
    ensures AllDigits(s)
    ensures |s| == if n < 10 then 2 else |DecimalString(n)|
  {
    var d := DecimalString(n);
    if |d| < 2 then "0" + d else d
  }

  /** A padded label still reads as the number it was made from. */
  lemma PadStart2RoundTrip(n: nat)
    ensures DigitsValue(PadStart2(n)) == n
  {
    DecimalRoundTrip(n);
    var d := DecimalString(n);
    if |d| < 2 {
      var s := "0" + d;
      assert s[..1] == "0";
    }
  }

  /** Numbers below 100 (every hour and minute the form offers) give exactly two characters. */
  lemma PadStart2Width(n: nat)
    requires n < 100
    ensures |PadStart2(n)| == 2
  {
    if n >= 10 {
      assert DecimalString(n) == DecimalString(n / 10) + [DigitChar(n % 10)];
    }
  }
}
