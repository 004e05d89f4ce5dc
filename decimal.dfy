/** Decimal text of integers: the rendering used by JavaScript's string
    conversion of an integral number, and the digit parsing shared by
    `parseInt`, `Number` and the tick-label regular expression. */
module Decimal {
  import opened Wrappers

  predicate IsDigit(c: char) {
    '0' <= c <= '9'
  }

  predicate AllDigits(s: string) {
    forall i :: 0 <= i < |s| ==> IsDigit(s[i])
  }

  function DigitChar(d: nat): (c: char)
    requires d < 10
    ensures IsDigit(c)
  {
    ('0' as int + d) as char
  }

  function DigitValue(c: char): (d: nat)
    requires IsDigit(c)
    ensures d < 10
  {
    c as int - '0' as int
  }

  /** Decimal digits of a natural number, most significant first, no leading zeros. */
  function ShowNat(n: nat): (s: string)
    ensures |s| >= 1 && AllDigits(s)
  {
    if n < 10 then [DigitChar(n)] else ShowNat(n / 10) + [DigitChar(n % 10)]
  }

  /** `String(i)` for an integral number. */
  function ShowInt(i: int): (s: string)
    ensures |s| >= 1
  {
    if i < 0 then "-" + ShowNat(-i) else ShowNat(i)
  }

  /** The number a string of decimal digits denotes. */
  function DigitsValue(s: string): nat
    requires AllDigits(s)
  {
    if s == [] then 0 else DigitsValue(s[..|s| - 1]) * 10 + DigitValue(s[|s| - 1])
  }

  lemma {:induction false} ShowNatRoundTrip(n: nat)
    ensures DigitsValue(ShowNat(n)) == n
  {
    if n >= 10 {
      var s := ShowNat(n);
      assert s[..|s| - 1] == ShowNat(n / 10);
      ShowNatRoundTrip(n / 10);
    }
  }

  /** First index at or after `j` that does not hold a digit. */
  function RunEnd(s: string, j: nat): (e: nat)
    requires j <= |s|
    ensures j <= e <= |s|
    ensures forall k :: j <= k < e ==> IsDigit(s[k])
    ensures e == |s| || !IsDigit(s[e])
    decreases |s| - j
  {
    if j == |s| || !IsDigit(s[j]) then j else RunEnd(s, j + 1)
  }

  /** A digit run that is followed by a non-digit (or the end) is exactly what RunEnd finds. */
  lemma {:induction false} RunEndOfDigits(s: string, j: nat, e: nat)
    requires j <= e <= |s|
    requires forall k :: j <= k < e ==> IsDigit(s[k])
    requires e == |s| || !IsDigit(s[e])
    ensures RunEnd(s, j) == e
    decreases e - j
  {
    if j < e {
      RunEndOfDigits(s, j + 1, e);
    }
  }

  /** The whole string is an optional '-' followed by at least one digit:
      `Number(s)` for the integer strings this model distinguishes. */
  function ParseIntText(s: string): Option<int>
  {
    if |s| >= 2 && s[0] == '-' && AllDigits(s[1..]) then Some(-(DigitsValue(s[1..]) as int))
    else if |s| >= 1 && AllDigits(s) then Some(DigitsValue(s))
    else None
  }

  lemma ShowIntRoundTrip(i: int)
    ensures ParseIntText(ShowInt(i)) == Some(i)
  {
    if i < 0 {
      ParseNegativeText(ShowNat(-i));
      ShowNatRoundTrip(-i);
    } else {
      ParseDigitsText(ShowNat(i));
      ShowNatRoundTrip(i);
    }
  }

  lemma ParseDigitsText(s: string)
    requires |s| >= 1 && AllDigits(s)
    ensures ParseIntText(s) == Some(DigitsValue(s))
  {
    assert IsDigit(s[0]);
  }

  lemma ParseNegativeText(n: string)
    requires |n| >= 1 && AllDigits(n)
    ensures ParseIntText("-" + n) == Some(-(DigitsValue(n) as int))
  {
    var s := "-" + n;
    assert s[0] == '-' && s[1..] == n;
  }

  lemma ShowIntInjective(i: int, j: int)
    requires ShowInt(i) == ShowInt(j)
    ensures i == j
  {
    ShowIntRoundTrip(i);
    ShowIntRoundTrip(j);
  }
}
