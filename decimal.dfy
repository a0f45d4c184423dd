/**
 * Decimal text of integers, as Python's str() writes it and as float()/int()
 * read a plain digit string back.  Used for the confidence text of the image
 * description and for the resize percentage of the settings.
 */
module Decimal {
  import opened Wrappers

  predicate IsDigit(c: char) {
    '0' <= c <= '9'
  }

  predicate AllDigits(s: string) {
    forall i :: 0 <= i < |s| ==> IsDigit(s[i])
  }

  function DigitValue(c: char): (d: nat)
    requires IsDigit(c)
    ensures d < 10
  {
    c as int - '0' as int
  }

  function DigitChar(d: nat): (c: char)
    requires d < 10
    ensures IsDigit(c) && DigitValue(c) == d
  {
    (d + '0' as int) as char
  }

  /** The number a digit string denotes, most significant digit first. */
  function DigitsValue(s: string): nat
    requires AllDigits(s)
    decreases |s|
  {
    if |s| == 0 then 0 else DigitsValue(s[..|s| - 1]) * 10 + DigitValue(s[|s| - 1])
  }

  /** A digit string as str() writes one: non-empty and without a leading zero. */
  predicate Canonical(s: string) {
    |s| >= 1 && AllDigits(s) && (|s| == 1 || s[0] != '0')
  }

  /** str(n) for a non-negative int n. */
  function NatToString(n: nat): (s: string)
    ensures Canonical(s)
    ensures DigitsValue(s) == n
    decreases n
  {
    if n < 10 then
      [DigitChar(n)]
    else
      var front := NatToString(n / 10);
      var s := front + [DigitChar(n % 10)];
      assert s[..|s| - 1] == front;
      s
  }

  /** Reading a digit string back: None unless it is one or more decimal digits. */
  function ParseNat(s: string): Option<nat> {
    if |s| >= 1 && AllDigits(s) then Some(DigitsValue(s)) else None
  }

  /** int(s) restricted to an optional minus sign followed by decimal digits. */
  function ParseInt(s: string): Option<int> {
    if |s| >= 1 && s[0] == '-' then
      match ParseNat(s[1..])
      case Some(n) => Some(-(n as int))
      case None => None
    else
      match ParseNat(s)
      case Some(n) => Some(n)
      case None => None
  }

  /** str(i) for any int i: a minus sign before the digits of a negative number. */
  function IntToString(i: int): (s: string)
    ensures |s| >= 1
    ensures ParseInt(s) == Some(i)
    ensures i >= 0 ==> Canonical(s)
    ensures i < 0 ==> s[0] == '-' && Canonical(s[1..])
  {
    if i < 0 then
      var digits := NatToString(-i);
      assert ("-" + digits)[1..] == digits;
      "-" + digits
    else
      NatToString(i)
  }

  /**
   * The confidence text of an image description: the rounded percentage
   * followed by a percent sign, e.g. "87%".
   */
  function ConfidenceText(percent: int): (s: string)
    ensures |s| >= 2 && s[|s| - 1] == '%'
    ensures ParseInt(s[..|s| - 1]) == Some(percent)
    ensures percent >= 0 ==> s[..|s| - 1] == NatToString(percent)
  {
    var digits := IntToString(percent);
    assert (digits + "%")[..|digits|] == digits;
    digits + "%"
  }

  /**
   * The percentage of a resize setting: its last character is dropped
   * (whatever it is) and the rest is read as a number.
   */
  function ParsePercent(setting: string): (r: Option<nat>)
    ensures r.Some? <==> |setting| >= 2 && AllDigits(setting[..|setting| - 1])
    ensures r.Some? ==> r.value == DigitsValue(setting[..|setting| - 1])
  {
    if |setting| == 0 then None else ParseNat(setting[..|setting| - 1])
  }

  /** str() and reading back agree in the other direction too: a canonical digit string is the text of its value. */
  lemma {:induction false} CanonicalIsNatToString(s: string)
    requires Canonical(s)
    ensures NatToString(DigitsValue(s)) == s
  {
    var last := s[|s| - 1];
    var front := s[..|s| - 1];
    assert DigitChar(DigitValue(last)) == last;
    if |s| == 1 {
      assert DigitsValue(front) == 0;
      assert s == [last];
    } else {
      assert front[0] == s[0];
      CanonicalIsNatToString(front);
      var v := DigitsValue(front);
      assert v != 0;
      var n := v * 10 + DigitValue(last);
      assert n / 10 == v && n % 10 == DigitValue(last);
      assert s == front + [last];
    }
  }

  /** A resize setting written as a number and one more character reads back as that number. */
  lemma PercentRoundTrip(p: nat, last: char)
    ensures ParsePercent(NatToString(p) + [last]) == Some(p)
  {
    var digits := NatToString(p);
    assert (digits + [last])[..|digits|] == digits;
  }

  /** The resize percentages offered in the settings menu read back as their numbers. */
  lemma MenuPercents()
    ensures ParsePercent("100%") == Some(100)
    ensures ParsePercent("125%") == Some(125)
    ensures ParsePercent("150%") == Some(150)
    ensures ParsePercent("200%") == Some(200)
  {
    PercentRoundTrip(100, '%');
    PercentRoundTrip(125, '%');
    PercentRoundTrip(150, '%');
    PercentRoundTrip(200, '%');
    assert NatToString(100) + "%" == "100%";
    assert NatToString(125) + "%" == "125%";
    assert NatToString(150) + "%" == "150%";
    assert NatToString(200) + "%" == "200%";
  }
}
