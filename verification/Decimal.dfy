/** Decimal text of natural numbers, as `str(int)` prints it and `int(text)` reads it back. */
module Decimal {
  import opened Wrappers

  predicate IsDigit(c: char) {
    '0' <= c <= '9'
  }

  function DigitValue(c: char): (d: nat)
    requires IsDigit(c)
    ensures d < 10
  {
    c as int - '0' as int
  }

  function DigitChar(d: nat): (c: char)
    requires d < 10
    ensures IsDigit(c) && DigitValue(c) == d
  {
    ('0' as int + d) as char
  }

  ghost predicate AllDigits(s: string) {
    forall i :: 0 <= i < |s| ==> IsDigit(s[i])
  }

  /** The number a run of digits denotes; the empty run denotes zero. */
  function Value(s: string): nat
    requires AllDigits(s)
  {
    if s == [] then 0 else 10 * Value(s[..|s| - 1]) + DigitValue(s[|s| - 1])
  }

  function Digits(n: nat): (s: string)
    ensures |s| > 0 && AllDigits(s)
    ensures Value(s) == n
  {
    if n < 10 then
      assert [DigitChar(n)][..0] == [];
      [DigitChar(n)]
    else
      var front := Digits(n / 10);
      assert (front + [DigitChar(n % 10)])[..|front|] == front;
      front + [DigitChar(n % 10)]
  }

  /** A torn write leaves a prefix of the digits, and a prefix never denotes more than the number did. */
  lemma {:induction false} PrefixNeverLarger(s: string, k: nat)
    requires AllDigits(s) && k <= |s|
    ensures Value(s[..k]) <= Value(s)
  {
    if k == |s| {
      assert s[..k] == s;
    } else {
      var front := s[..|s| - 1];
      PrefixNeverLarger(front, k);
      assert front[..k] == s[..k];
    }
  }

  ghost predicate NoDigitFirst(s: string) {
    s == [] || !IsDigit(s[0])
  }

  /** Two digit runs that are each followed by something other than a digit and spell the same text are the same run. */
  lemma {:induction false} RunsAgree(a: string, s: string, b: string, t: string)
    requires AllDigits(a) && AllDigits(b) && NoDigitFirst(s) && NoDigitFirst(t)
    requires a + s == b + t
    ensures a == b && s == t
  {
    var text := a + s;
    assert forall i :: 0 <= i < |a| ==> IsDigit(text[i]);
    assert forall i :: 0 <= i < |b| ==> IsDigit(text[i]);
    assert |a| < |text| ==> text[|a|] == s[0];
    assert |b| < |text| ==> text[|b|] == t[0];
    assert |a| == |b|;
    assert a == text[..|a|] && b == text[..|b|];
    assert s == text[|a|..] && t == text[|b|..];
  }
}
