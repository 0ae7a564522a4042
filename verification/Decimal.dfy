/** Decimal numbers as text. */
module Decimal {

  predicate IsDigit(c: char) {
    '0' <= c <= '9'
  }

  predicate AllDigits(s: string) {
    forall i | 0 <= i < |s| :: IsDigit(s[i])
  }

  function Digit(d: nat): (c: char)
    requires d < 10
    ensures IsDigit(c)
  {
    '0' + d as char
  }

  function Print(n: nat): (s: string)
    ensures s != "" && AllDigits(s)
  {
    if n < 10 then [Digit(n)] else Print(n / 10) + [Digit(n % 10)]
  }

  function Parse(s: string): nat
    requires AllDigits(s)
  {
    if s == "" then 0 else 10 * Parse(s[..|s| - 1]) + (s[|s| - 1] - '0') as nat
  }

  /** The length of the longest prefix of digits. */
  function DigitRun(s: string): (r: nat)
    ensures r <= |s| && AllDigits(s[..r])
    ensures r < |s| ==> !IsDigit(s[r])
  {
    if s == "" || !IsDigit(s[0]) then 0
    else
      var r := DigitRun(s[1..]);
      assert s[..r + 1] == [s[0]] + s[1..][..r];
      r + 1
  }

  lemma {:induction false} RoundTrip(n: nat)
    ensures Parse(Print(n)) == n
  {
    if n >= 10 {
      RoundTrip(n / 10);
      var s := Print(n);
      assert s[..|s| - 1] == Print(n / 10);
    }
  }

  /** Digits end where they end, whatever follows. */
  lemma RunOfNumber(digits: string, rest: string)
    requires AllDigits(digits) && rest != "" && !IsDigit(rest[0])
    ensures DigitRun(digits + rest) == |digits|
  {
    var s := digits + rest;
    assert s[|digits|] == rest[0];
    assert forall i | 0 <= i < |digits| :: s[i] == digits[i];
  }
}
