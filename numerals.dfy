/**
 * Decimal integer numerals, as Python's int() reads them from a string:
 * an optional '+' or '-' followed by one or more ASCII digits.
 * ParseInt scans the digits left to right; DigitsValue is the positional
 * meaning it is proved against, and ShowInt (Python's str() on an int) is
 * its inverse.
 */
module Numerals {
  import opened Wrappers

  predicate IsDigit(c: char) {
    '0' <= c <= '9'
  }

  predicate AllDigits(s: string) {
    forall i :: 0 <= i < |s| ==> IsDigit(s[i])
  }

  function DigitValue(c: char): (d: nat)
    requires IsDigit(c)
    ensures d < 10
  {
    c as int - '0' as int
  }

  function DigitChar(d: nat): (c: char)
    requires d < 10
    ensures IsDigit(c) && DigitValue(c) == d
  {
    ('0' as int + d) as char
  }

  /** Positional value of a digit string: the last digit counts once, the rest ten times over. */
  function DigitsValue(s: string): nat
    requires AllDigits(s)
    decreases |s|
  {
    if s == [] then 0 else DigitsValue(s[..|s| - 1]) * 10 + DigitValue(s[|s| - 1])
  }

  /** A digit string that does not start with '0' denotes a positive number. */
  lemma {:induction false} LeadingNonZero(s: string)
    requires |s| > 0 && AllDigits(s) && s[0] != '0'
    ensures DigitsValue(s) >= 1
    decreases |s|
  {
    if |s| > 1 {
      var init := s[..|s| - 1];
      assert init[0] == s[0];
      LeadingNonZero(init);
    }
  }

  /**
   * Scans s left to right from position i, acc being the value of the
   * digits before i. Fails at the first character that is not a digit.
   */
  function ScanDigits(s: string, i: nat, acc: nat): (r: Option<nat>)
    requires i <= |s| && AllDigits(s[..i]) && acc == DigitsValue(s[..i])
    ensures r.Some? <==> AllDigits(s)
    ensures r.Some? ==> r.value == DigitsValue(s)
    decreases |s| - i
  {
    if i == |s| then
      assert s[..i] == s;
      Some(acc)
    else if IsDigit(s[i]) then
      var read := s[..i + 1];
      assert read[..i] == s[..i] && read[i] == s[i];
      ScanDigits(s, i + 1, acc * 10 + DigitValue(s[i]))
    else
      None
  }

  /** The plain numeral form: an optional sign, then at least one digit. */
  predicate IsNumeral(s: string) {
    |s| > 0 && var body := Unsigned(s); |body| > 0 && AllDigits(body)
  }

  /** The digits of s after an optional leading sign. */
  function Unsigned(s: string): (body: string)
    ensures |body| <= |s|
  {
    if |s| > 0 && (s[0] == '+' || s[0] == '-') then s[1..] else s
  }

  /** The integer a numeral denotes. */
  function NumeralValue(s: string): int
    requires IsNumeral(s)
  {
    var magnitude: int := DigitsValue(Unsigned(s));
    if s[0] == '-' then -magnitude else magnitude
  }

  /** Python's int() on a string, restricted to the plain numeral form. */
  function ParseInt(s: string): (r: Option<int>)
    ensures r.Some? <==> IsNumeral(s)
    ensures r.Some? ==> r.value == NumeralValue(s)
  {
    if s == [] then None
    else
      var body := Unsigned(s);
      if body == [] then None
      else
        var n :- ScanDigits(body, 0, 0);
        var magnitude: int := n;
        Some(if s[0] == '-' then -magnitude else magnitude)
  }

  /** The shortest digit string of n: no leading zero unless n is zero. */
  function ShowNat(n: nat): (s: string)
    ensures |s| > 0 && AllDigits(s)
    ensures DigitsValue(s) == n
    ensures s[0] == '0' ==> s == "0"
    decreases n
  {
    if n < 10 then [DigitChar(n)]
    else
      var init := ShowNat(n / 10);
      var s := init + [DigitChar(n % 10)];
      assert s[..|s| - 1] == init;
      s
  }

  /** Python's str() on an int. */
  function ShowInt(n: int): string {
    if n < 0 then "-" + ShowNat(-n) else ShowNat(n)
  }

  /** A numeral exactly as str() prints one: no '+', no leading zero, no "-0". */
  predicate IsCanonicalNumeral(s: string) {
    IsNumeral(s) && s[0] != '+'
    && (Unsigned(s)[0] == '0' ==> Unsigned(s) == "0" && s[0] != '-')
  }

  lemma ParseShowInt(n: int)
    ensures IsCanonicalNumeral(ShowInt(n))
    ensures ParseInt(ShowInt(n)) == Some(n)
  {
  }

  lemma {:induction false} ShowNatOfDigits(s: string)
    requires |s| > 0 && AllDigits(s)
    requires s[0] == '0' ==> s == "0"
    ensures ShowNat(DigitsValue(s)) == s
    decreases |s|
  {
    if |s| > 1 {
      var init := s[..|s| - 1];
      assert init[0] == s[0];
      ShowNatOfDigits(init);
      LeadingNonZero(init);
      var a, d := DigitsValue(init), DigitValue(s[|s| - 1]);
      assert DigitsValue(s) == a * 10 + d;
      assert DigitsValue(s) / 10 == a && DigitsValue(s) % 10 == d;
      assert DigitChar(d) == s[|s| - 1];
      assert s == init + [s[|s| - 1]];
    }
  }

  lemma ShowParseInt(s: string)
    requires IsCanonicalNumeral(s)
    ensures ShowInt(ParseInt(s).value) == s
  {
    var body := Unsigned(s);
    ShowNatOfDigits(body);
    if s[0] == '-' {
      assert s == "-" + body;
    }
  }
}
