/** Decimal text for integers: the formatting that labels the target
    categories (Integer.toString on a non-negative value) and the parsing
    that `new Integer(String)` performs (Integer.parseInt in radix 10). */
module Decimal {
  import opened JavaLang

  predicate IsDigit(c: char) {
    '0' <= c <= '9'
  }

  predicate AllDigits(s: string) {
    forall i :: 0 <= i < |s| ==> IsDigit(s[i])
  }

  function DigitChar(d: nat): (c: char)
    requires d < 10
  {
    (d + '0' as int) as char
  }

  function DigitOf(c: char): (d: nat)
    requires IsDigit(c)
  {
    c as int - '0' as int
  }

  /** The value of a string of decimal digits, read most significant first. */
  function DigitsValue(s: string): nat
    requires AllDigits(s)
  {
    if s == [] then 0 else DigitsValue(s[..|s| - 1]) * 10 + DigitOf(s[|s| - 1])
  }

  /** Integer.toString(n) for n >= 0: the shortest decimal numeral of n. */
  function FormatNat(n: nat): (s: string)
    ensures |s| >= 1
    ensures AllDigits(s)
    ensures |s| > 1 ==> s[0] != '0'
  {
    if n < 10 then [DigitChar(n)] else FormatNat(n / 10) + [DigitChar(n % 10)]
  }

  /** Integer.parseInt(s, 10): an optional '+' or '-', then at least one
      digit, and a value that fits in an int; anything else is a
      NumberFormatException, modelled as None. */
  function ParseInt(s: string): (r: Option<int>)
  {
    if |s| == 0 then None
    else
      var digits := if s[0] == '-' || s[0] == '+' then s[1..] else s;
      if |digits| == 0 || !AllDigits(digits) then None
      else
        var magnitude: int := DigitsValue(digits);
        var v: int := if s[0] == '-' then -magnitude else magnitude;
        if MIN_INT <= v <= MAX_INT then Some(v) else None
  }

  /** Reading back a formatted numeral gives the number. */
  lemma {:induction false} DigitsValueOfFormat(n: nat)
    ensures DigitsValue(FormatNat(n)) == n
  {
    var s := FormatNat(n);
    if n >= 10 {
      assert s[..|s| - 1] == FormatNat(n / 10);
      DigitsValueOfFormat(n / 10);
    }
  }

  /** Distinct numbers get distinct numerals. */
  lemma FormatNatInjective(m: nat, n: nat)
    requires m != n
    ensures FormatNat(m) != FormatNat(n)
  {
    DigitsValueOfFormat(m);
    DigitsValueOfFormat(n);
  }

  /** Parsing a formatted int gives it back. */
  lemma ParseFormatRoundTrip(n: nat)
    requires n <= MAX_INT
    ensures ParseInt(FormatNat(n)) == Some(n)
  {
    var s := FormatNat(n);
    assert IsDigit(s[0]);
    DigitsValueOfFormat(n);
  }

  /** A minus sign before a numeral negates it, down to Integer.MIN_VALUE. */
  lemma ParseNegatedFormat(n: nat)
    requires n <= -MIN_INT
    ensures ParseInt("-" + FormatNat(n)) == Some(-(n as int))
  {
    var s := "-" + FormatNat(n);
    assert s[1..] == FormatNat(n);
    DigitsValueOfFormat(n);
  }

  /** A lone sign, or a string with any non-digit after the optional sign,
      is not a number. */
  lemma ParseRejectsNonDigits(s: string, i: nat)
    requires i < |s| && !IsDigit(s[i]) && (i > 0 || (s[0] != '-' && s[0] != '+'))
    ensures ParseInt(s) == None
  {
    if s[0] == '-' || s[0] == '+' {
      assert s[1..][i - 1] == s[i];
    }
  }

  lemma ParseRejectsLoneSign(c: char)
    requires c == '-' || c == '+'
    ensures ParseInt([c]) == None
  {
  }
}
