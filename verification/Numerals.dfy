/** Plain decimal numbers as text: what strconv.ParseFloat makes of digits with at most
    one point among them, over exact reals. */
module Numerals {
  import opened Common

  predicate AllDigits(s: string) { forall i :: 0 <= i < |s| ==> IsAsciiDigit(s[i]) }

  function DigitValue(c: char): nat
    requires IsAsciiDigit(c)
  {
    (c as int) - ('0' as int)
  }

  function DigitsValue(s: string): nat
    requires AllDigits(s)
  {
    if s == "" then 0 else DigitsValue(s[..|s| - 1]) * 10 + DigitValue(s[|s| - 1])
  }

  function Pow10(n: nat): (p: nat)
    ensures p >= 1
  {
    if n == 0 then 1 else 10 * Pow10(n - 1)
  }

  /** Where the first point stands, or the length when there is none. */
  function PointAt(s: string): (d: nat)
    ensures d <= |s|
    ensures forall i :: 0 <= i < d ==> s[i] != '.'
    ensures d < |s| ==> s[d] == '.'
  {
    if s == "" || s[0] == '.' then 0 else 1 + PointAt(s[1..])
  }

  function AfterPoint(s: string): string {
    if PointAt(s) < |s| then s[PointAt(s) + 1..] else ""
  }

  function ReadNumeral(s: string): Option<real> {
    var whole, fraction := s[..PointAt(s)], AfterPoint(s);
    if AllDigits(whole) && AllDigits(fraction) && |whole| + |fraction| > 0 then
      Some(DigitsValue(whole + fraction) as real / Pow10(|fraction|) as real)
    else None
  }

  /** The decimal digits of a number; zero is written with one digit. */
  function DigitsOf(n: nat): (s: string)
    ensures |s| >= 1 && AllDigits(s)
    decreases n
  {
    if n < 10 then [('0' as int + n) as char]
    else DigitsOf(n / 10) + [('0' as int + n % 10) as char]
  }

  lemma {:induction false} DigitsOfValue(n: nat)
    ensures DigitsValue(DigitsOf(n)) == n
  {
    if n < 10 {
      assert DigitsOf(n)[..0] == "";
    } else {
      var front, last := DigitsOf(n / 10), ('0' as int + n % 10) as char;
      assert (front + [last])[..|front|] == front;
      DigitsOfValue(n / 10);
    }
  }

  function Zeros(n: nat): (s: string)
    ensures |s| == n && AllDigits(s)
  {
    seq(n, _ => '0')
  }

  lemma {:induction false} LeadingZeros(n: nat, s: string)
    requires AllDigits(s)
    ensures DigitsValue(Zeros(n) + s) == DigitsValue(s)
  {
    var t := Zeros(n) + s;
    if s == "" {
      if n > 0 {
        assert t[..|t| - 1] == Zeros(n - 1) + s;
        LeadingZeros(n - 1, s);
      }
    } else {
      assert t[..|t| - 1] == Zeros(n) + s[..|s| - 1];
      LeadingZeros(n, s[..|s| - 1]);
    }
  }

  /** The text of digits / 10^places, with at least one digit before the point. */
  function DecimalText(digits: nat, places: nat): (s: string)
    ensures |s| > 0 && IsAsciiDigit(s[0])
  {
    var d := Zeros(places) + DigitsOf(digits);
    if places == 0 then d else d[..|d| - places] + "." + d[|d| - places..]
  }

  lemma {:induction false} PointIn(whole: string, fraction: string)
    requires AllDigits(whole)
    ensures PointAt(whole + "." + fraction) == |whole|
  {
    var s := whole + "." + fraction;
    if whole != "" {
      assert s[1..] == whole[1..] + "." + fraction;
      PointIn(whole[1..], fraction);
    }
  }

  lemma {:induction false} NoPoint(s: string)
    requires AllDigits(s)
    ensures PointAt(s) == |s|
  {
    if s != "" { NoPoint(s[1..]); }
  }

  /** A numeral split at its point. */
  lemma ReadSplit(whole: string, fraction: string)
    requires AllDigits(whole) && AllDigits(fraction) && whole != ""
    ensures ReadNumeral(whole + "." + fraction)
         == Some(DigitsValue(whole + fraction) as real / Pow10(|fraction|) as real)
  {
    var s := whole + "." + fraction;
    PointIn(whole, fraction);
    assert s[..|whole|] == whole;
    assert AfterPoint(s) == fraction;
  }

  lemma ReadWhole(s: string)
    requires AllDigits(s) && s != ""
    ensures ReadNumeral(s) == Some(DigitsValue(s) as real / Pow10(0) as real)
  {
    NoPoint(s);
    assert s[..|s|] + "" == s;
  }

  /** Reading back a printed decimal gives the number it was printed from. */
  lemma DecimalRoundTrip(digits: nat, places: nat)
    ensures ReadNumeral(DecimalText(digits, places)) == Some(digits as real / Pow10(places) as real)
  {
    hide DigitsValue, DigitsOf, ReadNumeral, Pow10;
    var d := Zeros(places) + DigitsOf(digits);
    DigitsOfValue(digits);
    LeadingZeros(places, DigitsOf(digits));
    if places == 0 {
      ReadWhole(d);
    } else {
      assert d[..|d| - places] + d[|d| - places..] == d;
      ReadSplit(d[..|d| - places], d[|d| - places..]);
    }
  }
}
