/**
 * The 32-bit signed integer of the runtime, and the decimal text form that
 * an integer gets when it is interpolated into a string.
 */
module Numerics {
  import opened Wrappers

  newtype int32 = x: int | -0x8000_0000 <= x < 0x8000_0000

  predicate IsDigit(c: char) {
    '0' <= c <= '9'
  }

  predicate AllDigits(s: string) {
    forall k :: 0 <= k < |s| ==> IsDigit(s[k])
  }

  function DigitValue(c: char): (d: nat)
    requires IsDigit(c)
    ensures d < 10
  {
    c as int - '0' as int
  }

  function DigitChar(d: nat): (c: char)
    requires d < 10
    ensures IsDigit(c) && DigitValue(c) == d
  {
    ('0' as int + d) as char
  }

  /** A non-empty digit string without leading zeros: the only way to write a natural number. */
  predicate CanonicalDigits(s: string) {
    |s| > 0 && AllDigits(s) && (|s| > 1 ==> s[0] != '0')
  }

  /** The only way to write an integer: canonical digits, or a minus sign followed by canonical
      digits that do not denote zero. */
  predicate CanonicalDecimal(s: string) {
    CanonicalDigits(s) || (|s| > 1 && s[0] == '-' && CanonicalDigits(s[1..]) && s[1] != '0')
  }

  /** The digits of `n`, most significant first, without leading zeros. */
  function NatDigits(n: nat): (s: string)
    decreases n
    ensures CanonicalDigits(s)
    ensures n > 0 ==> s[0] != '0'
  {
    if n < 10 then [DigitChar(n)] else NatDigits(n / 10) + [DigitChar(n % 10)]
  }

  /** The number a string of digits denotes. */
  function DigitsValue(s: string): nat
    requires AllDigits(s)
    decreases |s|
  {
    if s == [] then 0 else 10 * DigitsValue(s[..|s| - 1]) + DigitValue(s[|s| - 1])
  }

  lemma {:induction false} DigitsRoundTrip(n: nat)
    ensures DigitsValue(NatDigits(n)) == n
  {
    if n >= 10 {
      DigitsRoundTrip(n / 10);
      var s := NatDigits(n);
      assert s[..|s| - 1] == NatDigits(n / 10);
    }
  }

  /** Reads back the decimal form of an integer: an optional minus sign, then digits. */
  function ParseDecimal(s: string): Option<int> {
    if |s| > 1 && s[0] == '-' && AllDigits(s[1..]) then Some(-(DigitsValue(s[1..]) as int))
    else if |s| > 0 && AllDigits(s) then Some(DigitsValue(s) as int)
    else None
  }

  /** A digit string denotes zero only when it starts with the digit 0. */
  lemma {:induction false} ZeroValueStartsWithZero(s: string)
    requires |s| > 0 && AllDigits(s) && DigitsValue(s) == 0
    ensures s[0] == '0'
    decreases |s|
  {
    if |s| > 1 {
      ZeroValueStartsWithZero(s[..|s| - 1]);
    }
  }

  /** A canonical digit string is the digits of the number it denotes. */
  lemma {:induction false} CanonicalDigitsRoundTrip(s: string)
    requires CanonicalDigits(s)
    ensures NatDigits(DigitsValue(s)) == s
    decreases |s|
  {
    if |s| > 1 {
      var init := s[..|s| - 1];
      CanonicalDigitsRoundTrip(init);
      if DigitsValue(init) == 0 {
        ZeroValueStartsWithZero(init);
      }
      var v := DigitsValue(s);
      assert v / 10 == DigitsValue(init) && v % 10 == DigitValue(s[|s| - 1]);
      assert s == init + [s[|s| - 1]];
    }
  }

  /** The decimal form of `n`: a minus sign for negative values, then the digits of |n|. */
  function Decimal(n: int): (s: string)
    ensures n >= 0 ==> CanonicalDigits(s)
    ensures n < 0 ==> |s| > 1 && s[0] == '-' && CanonicalDigits(s[1..]) && s[1] != '0'
    ensures ParseDecimal(s) == Some(n)
  {
    if n < 0 then
      DigitsRoundTrip(-n);
      var s := "-" + NatDigits(-n);
      assert s[1..] == NatDigits(-n);
      s
    else
      DigitsRoundTrip(n);
      NatDigits(n)
  }

  /** A canonical text is the decimal form of the number it reads as: no other text reads as it. */
  lemma CanonicalDecimalIsDecimal(s: string)
    requires CanonicalDecimal(s)
    ensures ParseDecimal(s).Some? && s == Decimal(ParseDecimal(s).value)
  {
    if CanonicalDigits(s) {
      CanonicalDigitsRoundTrip(s);
    } else {
      var d := s[1..];
      CanonicalDigitsRoundTrip(d);
      if DigitsValue(d) == 0 {
        ZeroValueStartsWithZero(d);
      }
      assert s == "-" + d;
    }
  }

  lemma DecimalExamples()
    ensures Decimal(0) == "0" && Decimal(42) == "42" && Decimal(-7) == "-7"
  {
  }
}
