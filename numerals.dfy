/**
 * Characters and numeric literals as the native evaluator sees them
 * (cocalc/app/src/main/cpp/native-lib.cpp).
 *
 * `std::stod` is modelled by `NumeralValue`, the exact rational value of a
 * literal made of digits with at most one '.', so the model computes with
 * `real` where the source rounds to the nearest `double`.
 */
module Numerals {

  /** `std::isdigit` in the "C" locale. */
  predicate IsDigit(c: char) {
    '0' <= c <= '9'
  }

  /** `std::isspace` in the "C" locale. */
  predicate IsSpace(c: char) {
    c == ' ' || c == '\t' || c == '\n' || c == '\r' || c == '\U{000B}' || c == '\U{000C}'
  }

  predicate AllDigits(t: string) {
    forall k :: 0 <= k < |t| ==> IsDigit(t[k])
  }

  /** The value of a digit character (0 for any other character). */
  function DigitValue(c: char): (d: nat)
    ensures d < 10
  {
    if IsDigit(c) then c as int - '0' as int else 0
  }

  function DigitChar(d: nat): (c: char)
    requires d < 10
    ensures IsDigit(c) && DigitValue(c) == d
  {
    ('0' as int + d) as char
  }

  /** The value of a run of decimal digits, most significant first. */
  function DigitsValue(t: string): nat {
    if t == [] then 0 else 10 * DigitsValue(t[..|t| - 1]) + DigitValue(t[|t| - 1])
  }

  function Pow10(m: nat): (p: nat)
    ensures p >= 1
  {
    if m == 0 then 1 else 10 * Pow10(m - 1)
  }

  /** Index of the first '.' of `t`, or `|t|` when there is none. */
  function DotIndex(t: string): (d: nat)
    ensures d <= |t|
    ensures d < |t| ==> t[d] == '.'
  {
    if t == [] then 0
    else if t[0] == '.' then 0
    else 1 + DotIndex(t[1..])
  }

  lemma {:induction false} DotIndexAt(t: string, d: nat)
    requires d <= |t| && (d < |t| ==> t[d] == '.')
    requires forall k :: 0 <= k < d ==> t[k] != '.'
    ensures DotIndex(t) == d
  {
    if d > 0 {
      DotIndexAt(t[1..], d - 1);
    }
  }

  /**
   * The literals parseNumber hands to std::stod: digits, then optionally a
   * '.' and more digits, with at least one digit in all.
   */
  predicate IsNumeral(t: string) {
    var d := DotIndex(t);
    AllDigits(t[..d]) && (d < |t| ==> AllDigits(t[d + 1..])) &&
    |t| > (if d < |t| then 1 else 0)
  }

  /**
   * The exact value std::stod approximates for a numeral (`IsNumeral`);
   * other texts never reach it.
   */
  function NumeralValue(t: string): (v: real)
    ensures v >= 0.0
  {
    var d := DotIndex(t);
    if d == |t| then DigitsValue(t) as real
    else DigitsValue(t[..d]) as real + DigitsValue(t[d + 1..]) as real / Pow10(|t| - d - 1) as real
  }

  /** The decimal spelling of a natural number, without leading zeros. */
  function NatDigits(n: nat): (t: string)
    ensures |t| > 0 && AllDigits(t)
    ensures DigitsValue(t) == n
  {
    if n < 10 then [DigitChar(n)]
    else
      var t := NatDigits(n / 10) + [DigitChar(n % 10)];
      assert t[..|t| - 1] == NatDigits(n / 10);
      t
  }

  /** A numeral without '.' is worth the number its digits spell. */
  lemma {:induction false} NatDigitsNumeral(n: nat)
    ensures IsNumeral(NatDigits(n))
    ensures NumeralValue(NatDigits(n)) == n as real
  {
    var t := NatDigits(n);
    var d := DotIndex(t);
    assert d < |t| ==> IsDigit(t[d]);
    assert t[..d] == t;
  }
}
