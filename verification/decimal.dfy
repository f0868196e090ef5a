/**
 * Decimal text for baseline values: the store holds `std::to_string` of a
 * duration count and reads it back with `atol`.
 */
module Decimal {

  predicate IsDigit(c: char) {
    '0' <= c <= '9'
  }

  /** The characters the C `isspace` accepts in the "C" locale. */
  predicate IsSpace(c: char) {
    c == ' ' || c == '\t' || c == '\n' || c == '\U{0B}' || c == '\U{0C}' || c == '\r'
  }

  predicate AllDigits(s: string) {
    forall i :: 0 <= i < |s| ==> IsDigit(s[i])
  }

  function DigitChar(d: nat): (c: char)
    requires d < 10
    ensures IsDigit(c) && c as int - '0' as int == d
  {
    ('0' as int + d) as char
  }

  function DigitValue(c: char): (d: nat)
    requires IsDigit(c)
    ensures d < 10
  {
    c as int - '0' as int
  }

  /** The number a run of decimal digits denotes, most significant first. */
  function Value(s: string): nat
    requires AllDigits(s)
  {
    if s == [] then 0 else Value(s[..|s| - 1]) * 10 + DigitValue(s[|s| - 1])
  }

  /** `%lu`-style rendering of a natural number: no sign, no leading zero. */
  function NatToString(n: nat): (s: string)
    ensures |s| > 0 && AllDigits(s)
    ensures |s| > 1 ==> s[0] != '0'
    ensures Value(s) == n
  {
    if n < 10 then [DigitChar(n)]
    else
      var s := NatToString(n / 10) + [DigitChar(n % 10)];
      assert s[..|s| - 1] == NatToString(n / 10);
      s
  }

  /** `std::to_string(long)`: a minus sign for negative values, then the magnitude. */
  function ToString(n: int): (s: string)
    ensures |s| > 0
    ensures s[0] == '-' <==> n < 0
  {
    if n < 0 then "-" + NatToString(-n) else NatToString(n)
  }

  /** The length of the run of digits at the front of `s`. */
  function DigitRun(s: string): (k: nat)
    ensures k <= |s| && AllDigits(s[..k])
    ensures k < |s| ==> !IsDigit(s[k])
  {
    if |s| > 0 && IsDigit(s[0]) then
      var k := 1 + DigitRun(s[1..]);
      assert s[..k] == [s[0]] + s[1..][..k - 1];
      k
    else 0
  }

  function SkipSpaces(s: string): (t: string)
    ensures |t| <= |s| && t == s[|s| - |t|..]
    ensures |t| > 0 ==> !IsSpace(t[0])
  {
    if |s| > 0 && IsSpace(s[0]) then SkipSpaces(s[1..]) else s
  }

  /**
   * C `atol`: skip leading white space, accept one optional sign, then read
   * the longest run of digits; anything after it is ignored and no digits at
   * all gives 0. Overflow (undefined in C) is not modelled.
   */
  function Atol(s: string): int
  {
    var t := SkipSpaces(s);
    if |t| > 0 && (t[0] == '-' || t[0] == '+') then
      var v: int := Value(t[1..][..DigitRun(t[1..])]);
      if t[0] == '-' then -v else v
    else
      Value(t[..DigitRun(t)])
  }

  /** The strings `ToString` produces, described without reference to it. */
  predicate IsCanonical(s: string) {
    var d := if |s| > 0 && s[0] == '-' then s[1..] else s;
    && |d| > 0
    && AllDigits(d)
    && (|d| > 1 ==> d[0] != '0')
    && (|s| > 0 && s[0] == '-' ==> d != "0")
  }

  lemma {:induction false} DigitRunOfDigits(s: string)
    requires AllDigits(s)
    ensures DigitRun(s) == |s|
  {
    if |s| > 0 {
      DigitRunOfDigits(s[1..]);
    }
  }

  /** Reading back what was written gives the written value. */
  lemma AtolToString(n: int)
    ensures Atol(ToString(n)) == n
  {
    var s := ToString(n);
    var d := NatToString(if n < 0 then -n else n);
    DigitRunOfDigits(d);
    assert d[..|d|] == d;
    if n < 0 {
      assert SkipSpaces(s) == s;
      assert s[1..] == d;
    } else {
      assert SkipSpaces(s) == s;
      assert !(s[0] == '-' || s[0] == '+');
    }
  }

  lemma {:induction false} ValuePositive(d: string)
    requires |d| > 0 && AllDigits(d) && d[0] != '0'
    ensures Value(d) >= 1
  {
    if |d| > 1 {
      ValuePositive(d[..|d| - 1]);
    }
  }

  lemma {:induction false} NatToStringValue(d: string)
    requires |d| > 0 && AllDigits(d)
    requires |d| > 1 ==> d[0] != '0'
    ensures NatToString(Value(d)) == d
  {
    if |d| > 1 {
      var p := d[..|d| - 1];
      ValuePositive(p);
      NatToStringValue(p);
      var v := Value(d);
      assert v / 10 == Value(p) && v % 10 == DigitValue(d[|d| - 1]);
      assert d == p + [d[|d| - 1]];
    }
  }

  /** Every canonical decimal string is exactly what `ToString` writes for its value. */
  lemma ToStringAtol(s: string)
    requires IsCanonical(s)
    ensures ToString(Atol(s)) == s
  {
    if s[0] == '-' {
      NegativeCanonical(s);
    } else {
      PositiveCanonical(s);
    }
  }

  lemma PositiveCanonical(s: string)
    requires |s| > 0 && AllDigits(s) && (|s| > 1 ==> s[0] != '0')
    ensures ToString(Atol(s)) == s
  {
    assert !IsSpace(s[0]);
    assert SkipSpaces(s) == s;
    DigitRunOfDigits(s);
    assert s[..|s|] == s;
    assert Atol(s) == Value(s);
    NatToStringValue(s);
  }

  lemma NegativeCanonical(s: string)
    requires IsCanonical(s) && s[0] == '-'
    ensures ToString(Atol(s)) == s
  {
    var d := s[1..];
    assert !IsSpace(s[0]);
    assert SkipSpaces(s) == s;
    DigitRunOfDigits(d);
    assert d[..|d|] == d;
    NatToStringValue(d);
    ValuePositive(d);
    assert Atol(s) == -(Value(d) as int);
    assert s == "-" + d;
  }
}
