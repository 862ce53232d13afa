/**
 * Decimal digit strings: the value of a digit string, and the text that
 * Go's `%d` verb prints for an integer.
 */
module Decimal {

  predicate IsDigit(c: char) {
    '0' <= c <= '9'
  }

  predicate AllDigits(s: string) {
    forall i :: 0 <= i < |s| ==> IsDigit(s[i])
  }

  function DigitValue(c: char): (d: nat)
    requires IsDigit(c)
    ensures d < 10
  {
    (c as int) - ('0' as int)
  }

  function DigitChar(d: nat): (c: char)
    requires d < 10
    ensures IsDigit(c) && DigitValue(c) == d
  {
    (('0' as int) + d) as char
  }

  /** The value of a digit string, most significant digit first; "" is 0. */
  function Value(s: string): nat
    requires AllDigits(s)
  {
    if s == [] then 0 else Value(s[..|s| - 1]) * 10 + DigitValue(s[|s| - 1])
  }

  /** The shortest decimal text of `n` (what `%d` prints for a non-negative number). */
  function NatToString(n: nat): (s: string)
    ensures |s| >= 1 && AllDigits(s)
    ensures Value(s) == n
    ensures s[0] == '0' ==> n == 0 && |s| == 1
    decreases n
  {
    if n < 10 then [DigitChar(n)]
    else
      var prefix := NatToString(n / 10);
      var s := prefix + [DigitChar(n % 10)];
      assert s[..|s| - 1] == prefix;
      s
  }

  /** What `%d` prints for any integer: a minus sign before the magnitude of a negative one. */
  function IntToString(i: int): (s: string)
    ensures i >= 0 ==> |s| >= 1 && AllDigits(s) && Value(s) == i && (s[0] == '0' ==> |s| == 1)
    ensures i < 0 ==> |s| >= 2 && s[0] == '-' && AllDigits(s[1..]) && s[1] != '0' && Value(s[1..]) == -i
  {
    if i < 0 then
      var digits := NatToString(-i);
      var s := "-" + digits;
      assert s[1..] == digits;
      s
    else NatToString(i)
  }

  /** A digit string without a leading zero is the text of its value. */
  lemma {:induction false} NatToStringOfValue(s: string)
    requires |s| >= 1 && AllDigits(s)
    requires s[0] == '0' ==> |s| == 1
    ensures NatToString(Value(s)) == s
    decreases |s|
  {
    if |s| == 1 {
      assert s[..0] == [];
      assert NatToString(Value(s)) == [s[0]];
    } else {
      var prefix := s[..|s| - 1];
      var last := s[|s| - 1];
      assert prefix[0] == s[0];
      NatToStringOfValue(prefix);
      ValueAtLeastTen(prefix);
      var v, d := Value(prefix), DigitValue(last);
      assert Value(s) == v * 10 + d;
      assert Value(s) / 10 == v && Value(s) % 10 == d;
      assert DigitChar(d) == last;
      assert s == prefix + [last];
    }
  }

  /** A digit string of two or more characters that does not start with 0 is worth at least 10. */
  lemma {:induction false} ValueAtLeastTen(s: string)
    requires |s| >= 1 && AllDigits(s) && s[0] != '0'
    ensures Value(s) >= 1
    ensures |s| >= 2 ==> Value(s) >= 10
    decreases |s|
  {
    if |s| == 1 {
      assert s[..0] == [];
    } else {
      var prefix := s[..|s| - 1];
      assert prefix[0] == s[0];
      ValueAtLeastTen(prefix);
    }
  }
}
