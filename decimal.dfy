/** Decimal numerals as the simulator and its driver write and read them:
    C++ `operator<<` and Python `str` write an integer as an optional '-'
    and its digits without leading zeros; `std::stoul`, `std::stoi` and
    Python `int` read such text back. */
module Decimal {

  predicate IsDigit(c: char)
  {
    '0' <= c <= '9'
  }

  /** A character a numeral is made of. */
  predicate NumeralChar(c: char)
  {
    IsDigit(c) || c == '-'
  }

  /** The character of the digit `d`. */
  function DigitChar(d: nat): (c: char)
    requires d < 10
    ensures IsDigit(c)
  {
    ('0' as int + d) as char
  }

  /** The value of a digit character. */
  function DigitValue(c: char): (d: nat)
    requires IsDigit(c)
    ensures d < 10
  {
    c as int - '0' as int
  }

  /** A non-empty string of decimal digits. */
  predicate IsDigits(s: string)
  {
    |s| > 0 && forall k :: 0 <= k < |s| ==> IsDigit(s[k])
  }

  /** The digits of `n`, most significant first, without leading zeros. */
  function NatText(n: nat): (s: string)
    ensures IsDigits(s)
    ensures n >= 10 ==> s[0] != '0'
    decreases n
  {
    if n < 10 then [DigitChar(n)] else NatText(n / 10) + [DigitChar(n % 10)]
  }

  /** The numeral of `i`: a '-' before the digits of a negative number. */
  function IntText(i: int): (s: string)
    ensures |s| > 0 && forall k :: 0 <= k < |s| ==> NumeralChar(s[k])
  {
    if i < 0 then "-" + NatText(-i) else NatText(i)
  }

  /** The value of a digit string, most significant digit first. */
  function NatValue(s: string): nat
    requires forall k :: 0 <= k < |s| ==> IsDigit(s[k])
    decreases |s|
  {
    if s == [] then 0 else NatValue(s[..|s| - 1]) * 10 + DigitValue(s[|s| - 1])
  }

  /** Text that reads as an integer: digits, or '-' and digits. */
  predicate IsIntText(s: string)
  {
    IsDigits(s) || (|s| > 1 && s[0] == '-' && IsDigits(s[1..]))
  }

  /** The value of such text. */
  function IntValue(s: string): int
    requires IsIntText(s)
  {
    if IsDigits(s) then NatValue(s) as int else -(NatValue(s[1..]) as int)
  }

  /** Reading the digits of `n` gives `n` back. */
  lemma {:induction false} NatRoundTrip(n: nat)
    ensures NatValue(NatText(n)) == n
  {
    if n >= 10 {
      var s := NatText(n);
      assert s[..|s| - 1] == NatText(n / 10);
      NatRoundTrip(n / 10);
    }
  }

  /** Reading the numeral of `i` gives `i` back. */
  lemma IntRoundTrip(i: int)
    ensures IsIntText(IntText(i)) && IntValue(IntText(i)) == i
  {
    if i < 0 {
      var s := IntText(i);
      assert s[1..] == NatText(-i);
      assert !IsDigits(s) by { assert !IsDigit(s[0]); }
      NatRoundTrip(-i);
    } else {
      NatRoundTrip(i);
    }
  }
}
