/**
 The numeric side of the price field. The screen keeps the price (`harga`)
 of an item as a JavaScript number, shows it in the edit form through
 `Number.prototype.toString`, and reads it back from the form through
 `parseInt`. Both conversions are modelled here for decimal integers, plus
 the `NaN` value that `parseInt` yields for text that is not a number.
 */
module Decimal {

  /** A price as the screen can hold it: an integer, or `NaN` after parsing non-numeric text. */
  datatype Num = Int(value: int) | NaN

  predicate IsDigit(c: char) {
    '0' <= c <= '9'
  }

  predicate AllDigits(s: string) {
    forall i :: 0 <= i < |s| ==> IsDigit(s[i])
  }

  /** The strings the model parses as numbers: an optional minus sign followed by at least one digit. */
  predicate IsCanonical(s: string) {
    if |s| > 0 && s[0] == '-' then |s| > 1 && AllDigits(s[1..]) else |s| > 0 && AllDigits(s)
  }

  /** Canonical strings without redundant leading zeros and without "-0": exactly what `ToString` produces. */
  predicate IsMinimal(s: string) {
    && IsCanonical(s)
    && (if s[0] == '-' then s[1] != '0' else s[0] != '0' || |s| == 1)
  }

  function DigitValue(c: char): (d: nat)
    requires IsDigit(c)
    ensures d < 10
  {
    (c as int) - ('0' as int)
  }

  function DigitChar(d: nat): (c: char)
    requires d < 10
    ensures IsDigit(c) && DigitValue(c) == d
  {
    (('0' as int) + d) as char
  }

  /** Decimal digits of a natural number, most significant first, with no leading zero. */
  function NatToString(n: nat): (s: string)
    ensures |s| > 0 && AllDigits(s)
    ensures s[0] != '0' || n == 0
    ensures n == 0 ==> s == "0"
    decreases n
  {
    if n < 10 then [DigitChar(n)] else NatToString(n / 10) + [DigitChar(n % 10)]
  }

  /** The value of a string of decimal digits, most significant first; the empty string is 0. */
  function ParseDigits(s: string): nat
    requires AllDigits(s)
  {
    if s == [] then 0 else ParseDigits(s[..|s| - 1]) * 10 + DigitValue(s[|s| - 1])
  }

  /** `harga.toString()`: decimal text for an integer, "NaN" for `NaN`. */
  function ToString(x: Num): (s: string)
    ensures x.Int? <==> IsCanonical(s)
    ensures x.Int? ==> IsMinimal(s)
    ensures x.Int? ==> (s[0] == '-' <==> x.value < 0)
  {
    match x
    case Int(n) =>
      if n < 0 then
        var digits := NatToString(-n);
        assert ("-" + digits)[1..] == digits;
        "-" + digits
      else NatToString(n)
    case NaN => "NaN"
  }

  /** `parseInt(text)` restricted to canonical text; anything else is `NaN`. */
  function ParseInt(s: string): (x: Num)
    ensures x.Int? <==> IsCanonical(s)
    ensures x.Int? ==> (x.value < 0 ==> s[0] == '-')
    ensures x.Int? && s[0] != '-' ==> x.value >= 0
  {
    if !IsCanonical(s) then NaN
    else if s[0] == '-' then Int(-(ParseDigits(s[1..]) as int))
    else Int(ParseDigits(s))
  }

  /** Reading back the digits of a natural number gives the number. */
  lemma {:induction false} ParseNatToString(n: nat)
    ensures ParseDigits(NatToString(n)) == n
    decreases n
  {
    var s := NatToString(n);
    if n >= 10 {
      ParseNatToString(n / 10);
      assert s[..|s| - 1] == NatToString(n / 10);
    }
  }

  /** The leading digit bounds the value of a digit string from below. */
  lemma {:induction false} LeadingDigitBound(s: string)
    requires |s| > 0 && AllDigits(s)
    ensures ParseDigits(s) >= DigitValue(s[0])
    decreases |s|
  {
    if |s| > 1 {
      var p := s[..|s| - 1];
      LeadingDigitBound(p);
      assert p[0] == s[0];
    }
  }

  /** A digit string without redundant leading zeros is what `NatToString` prints for its value. */
  lemma {:induction false} NatToStringParse(s: string)
    requires |s| > 0 && AllDigits(s)
    requires s[0] != '0' || |s| == 1
    ensures NatToString(ParseDigits(s)) == s
    decreases |s|
  {
    var p := s[..|s| - 1];
    var d := DigitValue(s[|s| - 1]);
    if |s| == 1 {
      assert p == [];
      assert DigitChar(d) == s[0];
    } else {
      assert p[0] == s[0];
      LeadingDigitBound(p);
      NatToStringParse(p);
      var v := ParseDigits(s);
      assert v == ParseDigits(p) * 10 + d;
      assert v / 10 == ParseDigits(p) && v % 10 == d;
      assert DigitChar(d) == s[|s| - 1];
      assert s == p + [s[|s| - 1]];
    }
  }

  /**
   Editing a price and saving it without touching the text gives the same
   price back: `parseInt(n.toString()) == n`, for integers and for `NaN`.
   */
  lemma ParseToStringRoundTrip(x: Num)
    ensures ParseInt(ToString(x)) == x
  {
    match x
    case Int(n) =>
      var s := ToString(x);
      if n < 0 {
        ParseNatToString(-n);
        assert s[1..] == NatToString(-n);
      } else {
        ParseNatToString(n);
      }
    case NaN =>
      assert !IsDigit(ToString(x)[0]);
  }

  /** A leading zero does not change the value of a digit string. */
  lemma {:induction false} LeadingZero(s: string)
    requires AllDigits(s)
    ensures AllDigits("0" + s) && ParseDigits("0" + s) == ParseDigits(s)
    decreases |s|
  {
    var z := "0" + s;
    assert forall i :: 0 <= i < |z| ==> IsDigit(z[i]);
    if s == [] {
      assert z[..0] == [];
    } else {
      var p := s[..|s| - 1];
      LeadingZero(p);
      assert z[..|z| - 1] == "0" + p;
      assert z[|z| - 1] == s[|s| - 1];
    }
  }

  /**
   Canonical text with redundant leading zeros parses to the value without
   them: `parseInt("007")` is 7 and `parseInt("-007")` is -7.
   */
  lemma ParseLeadingZero(s: string)
    requires |s| > 0 && AllDigits(s)
    ensures ParseInt("0" + s) == ParseInt(s)
    ensures ParseInt("-0" + s) == ParseInt("-" + s)
  {
    LeadingZero(s);
    var z := "0" + s;
    assert ("-0" + s)[1..] == z;
    assert ("-" + s)[1..] == s;
  }

  /** Negative zero text parses to the integer zero. */
  lemma ParseNegativeZero()
    ensures ParseInt("-0") == Int(0)
  {
    assert "-0"[1..] == "0";
    assert "0"[..0] == [];
  }

  /** The other direction: printing the parsed value of minimal text gives the text back. */
  lemma ToStringParseRoundTrip(s: string)
    requires IsMinimal(s)
    ensures ToString(ParseInt(s)) == s
  {
    if s[0] == '-' {
      var digits := s[1..];
      assert digits[0] == s[1];
      LeadingDigitBound(digits);
      NatToStringParse(digits);
      assert s == "-" + digits;
    } else {
      NatToStringParse(s);
    }
  }
}
