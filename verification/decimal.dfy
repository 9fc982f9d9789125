/**
  Decimal text as the scripts read and write it: `str.isdigit` / `int(cap)` when a
  capacity attribute is read, and `str(dur)` when a stop's duration is written.
  Only ASCII digits are modelled.
 */
module Decimal {
  import opened Common

  predicate IsDigit(c: char) {
    '0' <= c <= '9'
  }

  /** Every character is an ASCII digit (the empty string included). */
  predicate AllDigits(s: string) {
    forall i :: 0 <= i < |s| ==> IsDigit(s[i])
  }

  /** `s.isdigit()`: non-empty and all digits. */
  predicate IsDigits(s: string) {
    |s| > 0 && AllDigits(s)
  }

  function DigitValue(c: char): nat
    requires IsDigit(c)
  {
    c as int - '0' as int
  }

  function DigitChar(d: nat): (c: char)
    requires d < 10
    ensures IsDigit(c) && DigitValue(c) == d
  {
    ('0' as int + d) as char
  }

  /** `int(s)` for a string of digits; leading zeros are allowed, as in Python. */
  function DigitsValue(s: string): nat
    requires AllDigits(s)
    decreases |s|
  {
    if |s| == 0 then 0 else DigitsValue(s[..|s| - 1]) * 10 + DigitValue(s[|s| - 1])
  }

  /** `str(n)` for n >= 0: the canonical decimal text, which reads back as n. */
  function NatToString(n: nat): (t: string)
    ensures IsDigits(t)
    ensures DigitsValue(t) == n
    ensures t[0] == '0' ==> t == "0"
    decreases n
  {
    if n < 10 then [DigitChar(n)]
    else
      var p := NatToString(n / 10);
      var t := p + [DigitChar(n % 10)];
      assert t[..|t| - 1] == p;
      t
  }

  /** `str(n)` for any integer: a minus sign in front of the magnitude when negative. */
  function IntToString(n: int): (t: string)
    ensures ReadInt(t) == Some(n)
  {
    if n < 0 then
      var m := NatToString(-n);
      var t := "-" + m;
      assert t[1..] == m;
      t
    else NatToString(n)
  }

  /** Reads back an optionally signed decimal integer, as a consumer of the route file does. */
  function ReadInt(t: string): Option<int> {
    if |t| > 0 && t[0] == '-' then
      if IsDigits(t[1..]) then Some(-(DigitsValue(t[1..]) as int)) else None
    else if IsDigits(t) then Some(DigitsValue(t))
    else None
  }

  /** Distinct integers are written as distinct texts. */
  lemma IntToStringInjective(m: int, n: int)
    requires IntToString(m) == IntToString(n)
    ensures m == n
  {
  }
}
