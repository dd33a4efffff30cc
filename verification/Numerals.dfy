/** Base-36 numerals as the engine prints and reads them, lib/utils/stringUtils.go. */
module Numerals {

  predicate IsDigit(c: char) { '0' <= c <= '9' || 'a' <= c <= 'z' }

  predicate AllDigits(s: string) { forall i :: 0 <= i < |s| ==> IsDigit(s[i]) }

  function DigitValue(c: char): (v: nat)
    requires IsDigit(c)
    ensures v < 36
  {
    if c <= '9' then c as int - '0' as int else c as int - 'a' as int + 10
  }

  function DigitChar(d: nat): (c: char)
    requires d < 36
    ensures IsDigit(c) && DigitValue(c) == d
  {
    if d < 10 then '0' + d as char else 'a' + (d - 10) as char
  }

  /** The lower-case base-36 numeral of `n`, without leading zeros. */
  function NumToString(n: nat): (s: string)
    ensures s != [] && AllDigits(s)
  {
    if n < 36 then [DigitChar(n)] else NumToString(n / 36) + [DigitChar(n % 36)]
  }

  const DIGITS := "0123456789abcdefghijklmnopqrstuvwxyz"

  /** A numeral ends with the digit of the remainder; before it stands the numeral of the rest. */
  lemma {:induction false} PrintedDigits(n: nat)
    ensures NumToString(n) == (if n < 36 then "" else NumToString(n / 36)) + [DIGITS[n % 36]]
  {
    OneDigit(n % 36);
    hide DigitChar;
  }

  lemma {:induction false} OneDigit(d: nat)
    requires d < 36
    ensures DigitChar(d) == DIGITS[d]
  {}

  /** The value of a numeral; leading zeros are allowed, the empty numeral reads as 0. */
  function ParseNum(s: string): nat
    requires AllDigits(s)
  {
    if s == [] then 0 else ParseNum(s[..|s| - 1]) * 36 + DigitValue(s[|s| - 1])
  }

  lemma {:induction false} ParsePrinted(n: nat)
    ensures ParseNum(NumToString(n)) == n
  {
    if n >= 36 {
      ParsePrinted(n / 36);
      var s := NumToString(n);
      assert s[..|s| - 1] == NumToString(n / 36);
    }
  }

  /** The length of the longest prefix of `s` made of digits. */
  function DigitRun(s: string): (k: nat)
    ensures k <= |s| && AllDigits(s[..k]) && (k < |s| ==> !IsDigit(s[k]))
  {
    if s == [] || !IsDigit(s[0]) then 0
    else
      var k := DigitRun(s[1..]);
      assert s[..k + 1] == [s[0]] + s[1..][..k];
      k + 1
  }

  /** A numeral followed by something that is not a digit is read back whole. */
  lemma {:induction false} RunOfNumeral(a: string, b: string)
    requires AllDigits(a)
    requires b == [] || !IsDigit(b[0])
    ensures DigitRun(a + b) == |a| && (a + b)[..|a|] == a && (a + b)[|a|..] == b
  {
    if a == [] {
      assert a + b == b;
    } else {
      assert (a + b)[1..] == a[1..] + b;
      RunOfNumeral(a[1..], b);
    }
  }
}
