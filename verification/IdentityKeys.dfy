/** Row keys: a length-prefixed encoding of the identity columns and their values. */
module IdentityKeys {
  import opened Decimals
  import opened GridData

  function EncodedValue(r: Raw): string { r.goType + ":" + r.syntax }

  function KeyPart(column: string, value: Raw): string {
    Prefixed(column) + Prefixed(EncodedValue(value))
  }

  /** The key of the first `n` identity columns. */
  function KeyOf(columns: seq<string>, identity: map<string, Raw>, n: nat): string
    requires n <= |columns|
  {
    if n == 0 then ""
    else KeyOf(columns, identity, n - 1) + KeyPart(columns[n - 1], IdentityValue(identity, columns[n - 1]))
  }

  function Key(columns: seq<string>, identity: map<string, Raw>): string {
    KeyOf(columns, identity, |columns|)
  }

  method IdentityKey(columns: seq<string>, identity: map<string, Raw>) returns (key: string)
    ensures key == Key(columns, identity)
  {
    key := "";
    for index := 0 to |columns|
      invariant key == KeyOf(columns, identity, index)
    {
      var column := columns[index];
      var value := if column in identity then identity[column] else NIL;
      var encoded := value.goType + ":" + value.syntax;
      var part := Decimal(|column|) + ":" + column + Decimal(|encoded|) + ":" + encoded;
      assert part == Prefixed(column) + Prefixed(encoded);
      key := key + part;
    }
  }

  /** The same key, read from the front: the remaining columns from `k` on. */
  function KeyFrom(columns: seq<string>, identity: map<string, Raw>, k: nat): string
    requires k <= |columns|
    decreases |columns| - k
  {
    if k == |columns| then ""
    else KeyPart(columns[k], IdentityValue(identity, columns[k])) + KeyFrom(columns, identity, k + 1)
  }

  lemma {:induction false} KeyFromFront(columns: seq<string>, identity: map<string, Raw>, k: nat)
    requires k <= |columns|
    ensures Key(columns, identity) == KeyOf(columns, identity, k) + KeyFrom(columns, identity, k)
    decreases |columns| - k
  {
    if k < |columns| {
      KeyFromFront(columns, identity, k + 1);
      Associates(KeyOf(columns, identity, k), KeyPart(columns[k], IdentityValue(identity, columns[k])),
                 KeyFrom(columns, identity, k + 1));
    }
  }

  lemma Associates(a: string, b: string, c: string)
    ensures (a + b) + c == a + (b + c)
  {
  }

  lemma EncodedValueInjective(a: Raw, b: Raw)
    requires WellFormedRaw(a) && WellFormedRaw(b) && EncodedValue(a) == EncodedValue(b)
    ensures a == b
  {
    ColonSplits(a.goType, a.syntax, b.goType, b.syntax);
  }

  /** A text with its length in front of it. */
  function Prefixed(x: string): string { Decimal(|x|) + ":" + x }

  /** A length prefix makes the first part of a string recoverable. */
  lemma PrefixedSplits(x: string, p: string, y: string, q: string)
    requires Prefixed(x) + p == Prefixed(y) + q
    ensures x == y && p == q
  {
    Associates(Decimal(|x|) + ":", x, p);
    Associates(Decimal(|y|) + ":", y, q);
    DecimalColonSplits(|x|, x + p, |y|, y + q);
    assert x == (x + p)[..|x|] && y == (y + q)[..|y|];
    assert p == (x + p)[|x|..] && q == (y + q)[|y|..];
  }

  lemma KeyPartSplits(column: string, a: Raw, p: string, b: Raw, q: string)
    requires WellFormedRaw(a) && WellFormedRaw(b)
    requires KeyPart(column, a) + p == KeyPart(column, b) + q
    ensures a == b && p == q
  {
    var ea, eb := Prefixed(EncodedValue(a)), Prefixed(EncodedValue(b));
    Associates(Prefixed(column), ea, p);
    Associates(Prefixed(column), eb, q);
    PrefixedSplits(column, ea + p, column, eb + q);
    PrefixedSplits(EncodedValue(a), p, EncodedValue(b), q);
    EncodedValueInjective(a, b);
  }

  lemma {:induction false} KeyFromInjective(columns: seq<string>, a: map<string, Raw>, b: map<string, Raw>, k: nat)
    requires k <= |columns| && WellFormedIdentity(a) && WellFormedIdentity(b)
    requires KeyFrom(columns, a, k) == KeyFrom(columns, b, k)
    ensures forall i :: k <= i < |columns| ==> IdentityValue(a, columns[i]) == IdentityValue(b, columns[i])
    decreases |columns| - k
  {
    if k < |columns| {
      KeyPartSplits(columns[k], IdentityValue(a, columns[k]), KeyFrom(columns, a, k + 1),
                    IdentityValue(b, columns[k]), KeyFrom(columns, b, k + 1));
      KeyFromInjective(columns, a, b, k + 1);
    }
  }

  lemma {:induction false} SameIdentitySameKey(columns: seq<string>, a: map<string, Raw>, b: map<string, Raw>, n: nat)
    requires n <= |columns| && SameIdentity(columns, a, b)
    ensures KeyOf(columns, a, n) == KeyOf(columns, b, n)
  {
    if n > 0 {
      var column := columns[n - 1];
      assert IdentityValue(a, column) == IdentityValue(b, column);
      SameIdentitySameKey(columns, a, b, n - 1);
      assert KeyPart(column, IdentityValue(a, column)) == KeyPart(column, IdentityValue(b, column));
    }
  }

  /** Two rows have the same key if and only if they agree on every identity column. */
  lemma KeyIdentifiesRow(columns: seq<string>, a: map<string, Raw>, b: map<string, Raw>)
    requires WellFormedIdentity(a) && WellFormedIdentity(b)
    ensures Key(columns, a) == Key(columns, b) <==> SameIdentity(columns, a, b)
  {
    KeyFromFront(columns, a, 0);
    KeyFromFront(columns, b, 0);
    assert KeyOf(columns, a, 0) + KeyFrom(columns, a, 0) == KeyFrom(columns, a, 0);
    assert KeyOf(columns, b, 0) + KeyFrom(columns, b, 0) == KeyFrom(columns, b, 0);
    if Key(columns, a) == Key(columns, b) {
      KeyFromInjective(columns, a, b, 0);
    }
    if SameIdentity(columns, a, b) {
      SameIdentitySameKey(columns, a, b, |columns|);
    }
  }
}
