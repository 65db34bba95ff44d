/** Python's `str(int)`, `int(str)` and `round`. */
module Decimal {
  import opened Wrappers
  import opened Text

  predicate IsDigit(c: char) {
    '0' <= c <= '9'
  }

  function DigitChar(d: nat): (c: char)
    requires d < 10
    ensures IsDigit(c) && DigitValue(c) == d
  {
    (('0' as int) + d) as char
  }

  function DigitValue(c: char): (d: nat)
    requires IsDigit(c)
    ensures d < 10
  {
    c as int - '0' as int
  }

  /** `str(n)`. */
  function Str(n: nat): (s: string)
    ensures s != "" && forall i :: 0 <= i < |s| ==> IsDigit(s[i])
  {
    if n < 10 then [DigitChar(n)] else Str(n / 10) + [DigitChar(n % 10)]
  }

  function StrInt(i: int): string {
    if i < 0 then "-" + Str(-i) else Str(i)
  }

  /** Digits, with single underscores allowed between two of them. */
  function ParseDigits(s: string): Option<nat> {
    if s == "" || !IsDigit(s[|s| - 1]) then None
    else if |s| == 1 then Some(DigitValue(s[0]))
    else
      var cut := if s[|s| - 2] == '_' then |s| - 2 else |s| - 1;
      match ParseDigits(s[..cut])
      case None => None
      case Some(high) => Some(10 * high + DigitValue(s[|s| - 1]))
  }

  function Signed(n: Option<nat>, sign: int): Option<int> {
    if n.None? then None else Some(sign * n.value)
  }

  /** `int(s)` on ASCII text; None where Python raises ValueError. */
  function ParseInt(text: string): Option<int> {
    var s := Strip(text);
    if s != "" && s[0] == '-' then
      Signed(ParseDigits(s[1..]), -1)
    else
      Signed(ParseDigits(if s != "" && s[0] == '+' then s[1..] else s), 1)
  }

  lemma {:induction false} ParseDigitsOfStr(n: nat)
    ensures ParseDigits(Str(n)) == Some(n)
  {
    if n >= 10 {
      ParseDigitsOfStr(n / 10);
      var s := Str(n);
      assert s[..|s| - 1] == Str(n / 10);
      assert s[|s| - 2] != '_';
    }
  }

  lemma ParseIntOfStr(i: int)
    ensures ParseInt(StrInt(i)) == Some(i)
  {
    var n := if i < 0 then -i else i;
    ParseDigitsOfStr(n);
    var s := StrInt(i);
    assert IsDigit(Str(n)[0]) && IsDigit(Str(n)[|Str(n)| - 1]);
    assert s[|s| - 1] == Str(n)[|Str(n)| - 1];
    assert Strip(s) == s;
    if i < 0 {
      assert s[1..] == Str(n);
    }
  }

  lemma StrInjective(m: nat, n: nat)
    requires Str(m) == Str(n)
    ensures m == n
  {
    ParseDigitsOfStr(m);
    ParseDigitsOfStr(n);
  }

  /** Python's `round`: to the nearest integer, halves to the even one. */
  function Round(x: real): (r: int)
    ensures x - 0.5 <= r as real <= x + 0.5
  {
    var low := x.Floor;
    var part := x - low as real;
    if part < 0.5 then low
    else if part > 0.5 then low + 1
    else if low % 2 == 0 then low else low + 1
  }
}
