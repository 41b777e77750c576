/** Decimal text of integers (Integer#to_s) and the value of a digit string (String#to_i). */
module Decimal {

  predicate IsDigit(c: char) {
    '0' <= c <= '9'
  }

  predicate AllDigits(s: string) {
    forall i :: 0 <= i < |s| ==> IsDigit(s[i])
  }

  function DigitChar(d: nat): (c: char)
    requires d < 10
    ensures IsDigit(c) && c as int - '0' as int == d
  {
    ('0' as int + d) as char
  }

  function DigitValue(c: char): (d: nat)
    requires IsDigit(c)
    ensures d < 10 && DigitChar(d) == c
  {
    c as int - '0' as int
  }

  /** The decimal digits of `n`, most significant first, without leading zeros. */
  function NatToDecimal(n: nat): (s: string)
    ensures |s| > 0 && AllDigits(s)
    ensures s[0] == '0' <==> n == 0
  {
    if n < 10 then [DigitChar(n)] else NatToDecimal(n / 10) + [DigitChar(n % 10)]
  }

  /** Integer#to_s: a minus sign before the digits of a negative number. */
  function IntToDecimal(i: int): (s: string)
    ensures |s| > 0 && (s[0] == '-' <==> i < 0)
    ensures i >= 0 ==> AllDigits(s) && DecimalToNat(s) == i
    ensures i < 0 ==> AllDigits(s[1..]) && DecimalToNat(s[1..]) == -i
    ensures i >= 0 ==> (s[0] == '0' ==> |s| == 1)
    ensures i < 0 ==> |s| >= 2 && s[1] != '0'
  {
    if i < 0 then
      DecimalRoundTrip(-i);
      assert ("-" + NatToDecimal(-i))[1..] == NatToDecimal(-i);
      "-" + NatToDecimal(-i)
    else
      DecimalRoundTrip(i);
      NatToDecimal(i)
  }

  /** String#to_i of a string made only of digits. */
  function DecimalToNat(s: string): (n: nat)
    requires AllDigits(s)
    ensures |s| > 0 && s[0] == '0' ==> n == DecimalToNat(s[1..])
    decreases |s|
  {
    if s == [] then 0
    else
      var init := s[..|s| - 1];
      assert |s| > 1 ==> init[0] == s[0] && init[1..] == s[1..][..|s| - 2];
      10 * DecimalToNat(init) + DigitValue(s[|s| - 1])
  }

  /** Reading back the digits of a number gives the number. */
  lemma {:induction false} DecimalRoundTrip(n: nat)
    ensures DecimalToNat(NatToDecimal(n)) == n
  {
    var s := NatToDecimal(n);
    if n >= 10 {
      var p := NatToDecimal(n / 10);
      assert s[..|s| - 1] == p;
      DecimalRoundTrip(n / 10);
    }
  }

  /** A digit string without leading zeros is the text of its own value. */
  lemma {:induction false} DecimalCanonical(s: string)
    requires |s| > 0 && AllDigits(s)
    requires |s| > 1 ==> s[0] != '0'
    ensures NatToDecimal(DecimalToNat(s)) == s
  {
    if |s| > 1 {
      var p := s[..|s| - 1];
      assert p[0] == s[0];
      DecimalCanonical(p);
      var n := DecimalToNat(s);
      assert n / 10 == DecimalToNat(p) && n % 10 == DigitValue(s[|s| - 1]);
      assert DecimalToNat(p) > 0;
      assert s == p + [s[|s| - 1]];
    }
  }
}
