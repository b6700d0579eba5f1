/** Natural numbers in decimal, as %d and FormatUint print them and ParseUint reads them. */
module Decimals {

  predicate IsDigit(c: char) { '0' <= c <= '9' }

  function Digit(n: nat): char
    requires n < 10
  {
    '0' + n as char
  }

  function DigitValue(c: char): nat
    requires IsDigit(c)
  {
    (c - '0') as nat
  }

  predicate AllDigits(s: string) { forall i :: 0 <= i < |s| ==> IsDigit(s[i]) }

  function Decimal(n: nat): (s: string)
    ensures s != [] && AllDigits(s)
  {
    if n < 10 then [Digit(n)] else Decimal(n / 10) + [Digit(n % 10)]
  }

  function DecimalValue(s: string): nat
    requires AllDigits(s)
  {
    if s == [] then 0 else DecimalValue(s[..|s| - 1]) * 10 + DigitValue(s[|s| - 1])
  }

  lemma {:induction false} DecimalRoundTrip(n: nat)
    ensures DecimalValue(Decimal(n)) == n
  {
    if n >= 10 {
      DecimalRoundTrip(n / 10);
      assert Decimal(n)[..|Decimal(n)| - 1] == Decimal(n / 10);
    } else {
      assert Decimal(n)[..0] == [];
    }
  }

  /** Where the first colon of a string is, or its length. */
  function FirstColon(s: string): (n: nat)
    ensures n <= |s|
  {
    if s == [] || s[0] == ':' then 0 else 1 + FirstColon(s[1..])
  }

  lemma {:induction false} FirstColonAfter(p: string, x: string)
    requires ':' !in p
    ensures FirstColon(p + ":" + x) == |p|
  {
    if p == [] {
      assert p + ":" + x == ":" + x;
    } else {
      assert (p + ":" + x)[1..] == p[1..] + ":" + x;
      FirstColonAfter(p[1..], x);
    }
  }

  /** What precedes the first colon, and what follows it, can be read back. */
  lemma ColonSplits(p: string, x: string, q: string, y: string)
    requires ':' !in p && ':' !in q && p + ":" + x == q + ":" + y
    ensures p == q && x == y
  {
    var s := p + ":" + x;
    FirstColonAfter(p, x);
    FirstColonAfter(q, y);
    assert p == s[..|p|] && q == s[..|q|];
    assert x == s[|p| + 1..] && y == s[|q| + 1..];
  }

  /** A number followed by a colon can be split off unambiguously. */
  lemma DecimalColonSplits(a: nat, x: string, b: nat, y: string)
    requires Decimal(a) + ":" + x == Decimal(b) + ":" + y
    ensures a == b && x == y
  {
    ColonSplits(Decimal(a), x, Decimal(b), y);
    DecimalRoundTrip(a);
    DecimalRoundTrip(b);
  }
}
