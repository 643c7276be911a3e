/** The part of Python's `float(text)` the dashboard relies on: text made
    of ASCII digits with at most one `.` and at least one digit, read as an
    exact decimal number. Every other text goes to a fallback parser that
    the model leaves uninterpreted. */
module Decimal {
  import opened Wrappers
  import opened Strings

  predicate IsDigit(c: char) {
    '0' <= c <= '9'
  }

  predicate IsNumeral(s: string) {
    forall i :: 0 <= i < |s| ==> IsDigit(s[i])
  }

  function Pow10(k: nat): (p: nat)
    ensures p >= 1
  {
    if k == 0 then 1 else 10 * Pow10(k - 1)
  }

  /** The value of a string of decimal digits, most significant first; the
      empty numeral is 0. */
  function NumeralValue(s: string): (n: nat)
    requires IsNumeral(s)
    ensures n < Pow10(|s|)
  {
    if s == [] then 0
    else 10 * NumeralValue(s[..|s| - 1]) + (s[|s| - 1] as int - '0' as int)
  }

  /** Reading two numerals one after the other shifts the first by the
      length of the second. */
  lemma {:induction false} NumeralValueAppend(a: string, b: string)
    requires IsNumeral(a) && IsNumeral(b)
    ensures IsNumeral(a + b)
    ensures NumeralValue(a + b) == NumeralValue(a) * Pow10(|b|) + NumeralValue(b)
  {
    if b == [] {
      assert a + b == a;
    } else {
      var b' := b[..|b| - 1];
      assert (a + b)[..|a + b| - 1] == a + b';
      assert (a + b)[|a + b| - 1] == b[|b| - 1];
      NumeralValueAppend(a, b');
      ShiftDigit(NumeralValue(a), Pow10(|b'|), NumeralValue(b'), b[|b| - 1] as int - '0' as int);
    }
  }

  lemma ShiftDigit(x: int, p: int, y: int, d: int)
    ensures 10 * (x * p + y) + d == x * (10 * p) + (10 * y + d)
  {
  }

  lemma FractionBelowOne(n: nat, p: nat)
    requires n < p
    ensures 0.0 <= n as real / p as real < 1.0
  {
  }

  /** Digit groups joined by `.`: only digits and points. */
  predicate IsGrouped(s: string) {
    forall i :: 0 <= i < |s| ==> IsDigit(s[i]) || s[i] == '.'
  }

  /** Deleting the points of digit groups leaves a numeral. */
  lemma {:induction false} UngroupedIsNumeral(s: string)
    requires IsGrouped(s)
    ensures IsNumeral(Remove(s, '.'))
  {
    if s != [] {
      assert IsGrouped(s[1..]) by {
        forall i | 0 <= i < |s[1..]| ensures IsDigit(s[1..][i]) || s[1..][i] == '.' {
          assert s[1..][i] == s[i + 1];
        }
      }
      UngroupedIsNumeral(s[1..]);
    }
  }

  /** Digits, at most one `.`, and at least one digit. */
  predicate IsPlainDecimal(s: string) {
    if '.' in s then
      var k := FirstIndex(s, '.');
      IsNumeral(s[..k]) && IsNumeral(s[k + 1..]) && |s| >= 2
    else
      IsNumeral(s) && |s| >= 1
  }

  /** The number written `whole.fraction`: the whole part plus the digits
      after the point scaled down by their count. */
  function DecimalValue(whole: string, fraction: string): (v: real)
    requires IsNumeral(whole) && IsNumeral(fraction)
    ensures NumeralValue(whole) as real <= v < NumeralValue(whole) as real + 1.0
  {
    FractionBelowOne(NumeralValue(fraction), Pow10(|fraction|));
    NumeralValue(whole) as real + NumeralValue(fraction) as real / Pow10(|fraction|) as real
  }

  /** The exact value of a plain decimal: the whole part plus the digits after
      the point scaled down by their count. */
  function PlainValue(s: string): (v: real)
    requires IsPlainDecimal(s)
    ensures '.' !in s ==> v == NumeralValue(s) as real
    ensures '.' in s ==> IsNumeral(s[..FirstIndex(s, '.')])
    ensures '.' in s ==>
      NumeralValue(s[..FirstIndex(s, '.')]) as real <= v < NumeralValue(s[..FirstIndex(s, '.')]) as real + 1.0
  {
    if '.' in s then
      var k := FirstIndex(s, '.');
      DecimalValue(s[..k], s[k + 1..])
    else
      NumeralValue(s) as real
  }

  /** `whole + "." + fraction` is a plain decimal worth the whole part plus
      the fraction scaled by its number of digits. */
  lemma PlainValueOfParts(whole: string, fraction: string)
    requires IsNumeral(whole) && IsNumeral(fraction)
    requires |whole| + |fraction| >= 1
    ensures IsPlainDecimal(whole + "." + fraction)
    ensures PlainValue(whole + "." + fraction) == DecimalValue(whole, fraction)
  {
    var s := whole + "." + fraction;
    FirstIndexJoin(whole, fraction, '.');
    assert s[..|whole|] == whole;
    assert s[|whole| + 1..] == fraction;
  }

  /** `float(text)`: the exact value of a plain decimal; anything else is
      up to `fallback`, which may accept it or not. */
  function ParseFloat(text: string, fallback: string -> Option<real>): (r: Option<real>)
    ensures IsPlainDecimal(text) ==> r.Some? && r.value >= 0.0
  {
    if IsPlainDecimal(text) then Some(PlainValue(text)) else fallback(text)
  }

  /** A plain decimal is always accepted, and its value does not depend on
      how the rest of the grammar is read. */
  lemma PlainIgnoresFallback(text: string, fallback1: string -> Option<real>, fallback2: string -> Option<real>)
    requires IsPlainDecimal(text)
    ensures ParseFloat(text, fallback1).Some?
    ensures ParseFloat(text, fallback1) == ParseFloat(text, fallback2)
    ensures ParseFloat(text, fallback1).value >= 0.0
  {
  }
}
