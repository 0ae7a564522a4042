/** What a scalar node of a configuration means. */
module Scalars {
  import opened Values
  import Decimal

  datatype Kind = IntKind | FloatKind | BoolKind | NullKind | StringKind

  datatype Value = Integer(n: int) | Truth(b: bool) | Null | Text(s: string)

  /** A scalar with its type and its source spelling. */
  datatype Scalar = Scalar(kind: Kind, value: Value, text: string)

  /** The last part of the node's tag. */
  datatype Tag = IntTag | FloatTag | BoolTag | NullTag | StringTag

  // ---------- Integers ----------

  function WithoutUnderscores(s: string): string {
    if s == "" then "" else (if s[0] == '_' then "" else [s[0]]) + WithoutUnderscores(s[1..])
  }

  function Lower(c: char): char {
    if 'A' <= c <= 'Z' then c - 'A' + 'a' else c
  }

  function DigitValue(c: char): nat {
    if Decimal.IsDigit(c) then (c - '0') as nat
    else if 'a' <= Lower(c) <= 'f' then 10 + (Lower(c) - 'a') as nat
    else 16
  }

  /** The number these digits spell, if they are digits of the base. */
  function Digits(s: string, base: nat): Option<nat> {
    if s == "" then Some(0)
    else
      var front := Digits(s[..|s| - 1], base);
      var digit := DigitValue(s[|s| - 1]);
      if front.Some? && digit < base then Some(front.value * base + digit) else None
  }

  function Unsigned(s: string): Option<nat> {
    if s == "" then None
    else if |s| >= 2 && s[0] == '0' && Lower(s[1]) == 'x' then NonEmpty(s[2..], 16)
    else if |s| >= 2 && s[0] == '0' && Lower(s[1]) == 'o' then NonEmpty(s[2..], 8)
    else if |s| >= 2 && s[0] == '0' && Lower(s[1]) == 'b' then NonEmpty(s[2..], 2)
    else Digits(s, 10)
  }

  function NonEmpty(s: string, base: nat): Option<nat> {
    if s == "" then None else Digits(s, base)
  }

  /** An integer in decimal, or with a prefix in another base, with a sign and any
      underscores. */
  function ParseInteger(text: string): Option<int> {
    var s := WithoutUnderscores(text);
    var signed := s != "" && (s[0] == '-' || s[0] == '+');
    var n := Unsigned(if signed then s[1..] else s);
    if n.None? then None else Some(if signed && s[0] == '-' then 0 - n.value else n.value)
  }

  lemma {:induction false} PrintIsDigits(n: nat)
    ensures Digits(Decimal.Print(n), 10) == Some(n)
  {
    var s := Decimal.Print(n);
    if n >= 10 {
      assert s[..|s| - 1] == Decimal.Print(n / 10);
      PrintIsDigits(n / 10);
    } else {
      assert s[..0] == "";
    }
  }

  lemma {:induction false} PlainHasNoUnderscores(s: string)
    requires forall i | 0 <= i < |s| :: s[i] != '_'
    ensures WithoutUnderscores(s) == s
  {
    if s != "" {
      PlainHasNoUnderscores(s[1..]);
    }
  }

  lemma PrintIsUnsigned(n: nat)
    ensures Unsigned(Decimal.Print(n)) == Some(n)
  {
    var s := Decimal.Print(n);
    PrintIsDigits(n);
    assert |s| >= 2 ==> Decimal.IsDigit(s[1]);
    hide Decimal.Print, Digits;
  }

  /** Every number reads back from its decimal spelling, with or without a sign. */
  lemma DecimalReadsBack(n: int)
    ensures n >= 0 ==> ParseInteger(Decimal.Print(n)) == ParseInteger("+" + Decimal.Print(n)) == Some(n)
    ensures n <= 0 ==> ParseInteger("-" + Decimal.Print(-n)) == Some(n)
  {
    var s := Decimal.Print(if n < 0 then -n else n);
    PrintIsUnsigned(if n < 0 then -n else n);
    assert Decimal.IsDigit(s[0]);
    hide Decimal.Print, Unsigned;
    PlainHasNoUnderscores(s);
    PlainHasNoUnderscores("-" + s);
    PlainHasNoUnderscores("+" + s);
    assert ("-" + s)[1..] == s && ("+" + s)[1..] == s;
    hide WithoutUnderscores;
  }

  /** The sixteen hexadecimal digits. */
  function HexDigit(d: nat): (c: char)
    requires d < 16
    ensures DigitValue(c) == d && c != '_'
  {
    if d < 10 then '0' + d as char else 'a' + (d - 10) as char
  }

  function PrintHex(n: nat): (s: string)
    ensures s != "" && forall i | 0 <= i < |s| :: s[i] != '_'
  {
    if n < 16 then [HexDigit(n)] else PrintHex(n / 16) + [HexDigit(n % 16)]
  }

  lemma {:induction false} HexIsDigits(n: nat)
    ensures Digits(PrintHex(n), 16) == Some(n)
  {
    var s := PrintHex(n);
    if n >= 16 {
      assert s[..|s| - 1] == PrintHex(n / 16);
      HexIsDigits(n / 16);
    } else {
      assert s[..0] == "";
    }
  }

  /** So does it from its hexadecimal spelling. */
  lemma HexReadsBack(n: nat)
    ensures ParseInteger("0x" + PrintHex(n)) == Some(n)
  {
    var h := PrintHex(n);
    HexIsDigits(n);
    PlainHasNoUnderscores("0x" + h);
    assert ("0x" + h)[2..] == h;
    hide PrintHex, Digits;
  }

  lemma {:induction false} UnderscoreIsDropped(a: string, b: string)
    ensures WithoutUnderscores(a + "_" + b) == WithoutUnderscores(a + b)
  {
    if a == "" {
      assert a + "_" + b == "_" + b && a + b == b && ("_" + b)[1..] == b;
    } else {
      assert (a + "_" + b)[1..] == a[1..] + "_" + b && (a + b)[1..] == a[1..] + b;
      UnderscoreIsDropped(a[1..], b);
    }
  }

  /** Underscores mean nothing. */
  lemma UnderscoresMeanNothing(a: string, b: string)
    ensures ParseInteger(a + "_" + b) == ParseInteger(a + b)
  {
    UnderscoreIsDropped(a, b);
    hide WithoutUnderscores;
  }

  // ---------- Scalars ----------

  function LowerAll(s: string): string {
    seq(|s|, i requires 0 <= i < |s| => Lower(s[i]))
  }

  predicate IsTrue(text: string) {
    LowerAll(text) == "true" || LowerAll(text) == "yes" || LowerAll(text) == "on"
  }

  /** The scalar of a node, or nothing if its integer cannot be read. */
  function ScalarOf(tag: Tag, text: string): Option<Scalar> {
    match tag
    case IntTag =>
      var n := ParseInteger(text);
      if n.None? then None else Some(Scalar(IntKind, Integer(n.value), text))
    case FloatTag => Some(Scalar(FloatKind, Text(text), text))
    case BoolTag => Some(Scalar(BoolKind, Truth(IsTrue(text)), text))
    case NullTag => Some(Scalar(NullKind, Null, text))
    case StringTag => Some(Scalar(StringKind, Text(text), text))
  }
}
