/**
 * Coercion of a record's raw quantitation into an optional number
 * (`float(q) if q not in [None, "-"] else None`, with a failed conversion
 * also giving `None`).
 *
 * Python's `float` is a parameter `parse`: `parse(s) == None` stands for the
 * conversion raising `ValueError`. `ParseDecimal` is a concrete `parse` for
 * plain decimal literals, used by the worked examples.
 */
module Quantitation {
  import opened Wrappers

  /**
   * The coercion never fails: a missing value and the placeholder "-" are
   * absent, and any other value is the conversion's result, absent when the
   * conversion fails.
   */
  function CoerceQuantitation(raw: Option<string>, parse: string -> Option<real>): (q: Option<real>)
    ensures raw.None? || raw == Some("-") ==> q.None?
    ensures q.Some? <==> raw.Some? && raw.value != "-" && parse(raw.value).Some?
    ensures q.Some? ==> q == parse(raw.value)
  {
    match raw
    case None => None
    case Some(s) => if s == "-" then None else parse(s)
  }

  predicate IsDigit(c: char) {
    '0' <= c <= '9'
  }

  predicate AllDigits(s: string) {
    forall i :: 0 <= i < |s| ==> IsDigit(s[i])
  }

  /** The value of a string of decimal digits, most significant first. */
  function DigitsValue(s: string): nat
    requires AllDigits(s)
    decreases |s|
  {
    if s == [] then 0 else 10 * DigitsValue(s[..|s| - 1]) + (s[|s| - 1] - '0') as nat
  }

  function Pow10(n: nat): (r: nat)
    ensures r >= 1
  {
    if n == 0 then 1 else 10 * Pow10(n - 1)
  }

  /** The index of the first '.' in `s`, or `|s|` when there is none. */
  function DotIndex(s: string): (k: nat)
    ensures k <= |s|
    ensures k < |s| ==> s[k] == '.'
    ensures forall i :: 0 <= i < k ==> s[i] != '.'
    decreases |s|
  {
    if s == [] then 0
    else if s[0] == '.' then 0
    else
      var k := 1 + DotIndex(s[1..]);
      assert forall i :: 1 <= i < k ==> s[i] == s[1..][i - 1];
      k
  }

  /** `digits`, `digits.`, `.digits` or `digits.digits`, without a sign. */
  function ParseUnsigned(s: string): (r: Option<real>)
    ensures r.Some? ==> r.value >= 0.0
  {
    var k := DotIndex(s);
    var whole := s[..k];
    var frac := if k < |s| then s[k + 1..] else [];
    if AllDigits(whole) && AllDigits(frac) && |whole| + |frac| > 0 then
      Some(DigitsValue(whole) as real + DigitsValue(frac) as real / Pow10(|frac|) as real)
    else None
  }

  /**
   * A plain decimal literal with an optional sign. It rejects every string
   * without a digit, "-" and the empty string among them, and the sign of
   * the value follows the sign character.
   */
  function ParseDecimal(s: string): (r: Option<real>)
    ensures r.Some? ==> s != [] && exists i :: 0 <= i < |s| && IsDigit(s[i])
    ensures r.Some? && r.value < 0.0 ==> s[0] == '-'
    ensures r.Some? && r.value > 0.0 ==> s[0] != '-'
  {
    if s != [] && s[0] == '-' then
      match ParseUnsigned(s[1..])
      case None => None
      case Some(x) => Some(-x)
    else if s != [] && s[0] == '+' then ParseUnsigned(s[1..])
    else ParseUnsigned(s)
  }

  /** The value of a one-digit string. */
  lemma DigitValue(c: char)
    requires IsDigit(c)
    ensures DigitsValue([c]) == (c - '0') as nat
  {
    assert [c][..0] == [];
  }

  /** A single digit parses as its value. */
  lemma SingleDigit(c: char)
    requires IsDigit(c)
    ensures ParseDecimal([c]) == Some((c - '0') as real)
  {
    DigitValue(c);
    assert DotIndex([c]) == 1;
    assert [c][..1] == [c];
  }

  /** `d1.d2`, with two single digits, parses as d1 + d2 / 10. */
  lemma OneDotOne(d1: char, d2: char)
    requires IsDigit(d1) && IsDigit(d2)
    ensures ParseUnsigned([d1, '.', d2]) ==
            Some((d1 - '0') as real + (d2 - '0') as real / 10.0)
  {
    var s := [d1, '.', d2];
    assert s[1..] == ['.', d2];
    assert DotIndex(s) == 1;
    assert s[..1] == [d1] && s[2..] == [d2];
    DigitValue(d1);
    DigitValue(d2);
  }

  /** A literal missing any digit does not parse, so it stays absent. */
  lemma CoercionAbsentSamples()
    ensures CoerceQuantitation(None, ParseDecimal) == None
    ensures CoerceQuantitation(Some("-"), ParseDecimal) == None
    ensures CoerceQuantitation(Some("abc"), ParseDecimal) == None
  {
    assert !IsDigit('a') && !IsDigit('b') && !IsDigit('c');
  }

  /** Python's float("-3.2") in the model. */
  lemma ParseMinusThreePointTwo()
    ensures ParseDecimal("-3.2") == Some(-3.2)
  {
    assert "-3.2"[0] == '-' && "-3.2"[1..] == ['3', '.', '2'];
    OneDotOne('3', '2');
  }

  /** Python's float("3.5") in the model. */
  lemma ParseThreePointFive()
    ensures ParseDecimal("3.5") == Some(3.5)
  {
    OneDotOne('3', '5');
  }

  /** "5", "-3.2", "0" and "3.5" coerce to 5.0, -3.2, 0.0 and 3.5. */
  lemma CoercionNumericSamples()
    ensures CoerceQuantitation(Some("5"), ParseDecimal) == Some(5.0)
    ensures CoerceQuantitation(Some("-3.2"), ParseDecimal) == Some(-3.2)
    ensures CoerceQuantitation(Some("0"), ParseDecimal) == Some(0.0)
    ensures CoerceQuantitation(Some("3.5"), ParseDecimal) == Some(3.5)
  {
    SingleDigit('5');
    SingleDigit('0');
    ParseMinusThreePointTwo();
    ParseThreePointFive();
  }
}
