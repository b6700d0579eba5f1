/** Sorting strings by their characters, as sort.Strings does. */
module StringOrder {

  predicate StringLess(a: string, b: string) {
    b != [] && (a == [] || a[0] < b[0] || (a[0] == b[0] && StringLess(a[1..], b[1..])))
  }

  lemma {:induction false} StringLessIrreflexive(a: string)
    ensures !StringLess(a, a)
  {
    if a != [] { StringLessIrreflexive(a[1..]); }
  }

  lemma {:induction false} StringLessTransitive(a: string, b: string, c: string)
    requires StringLess(a, b) && StringLess(b, c)
    ensures StringLess(a, c)
  {
    if a != [] && a[0] == b[0] && b[0] == c[0] { StringLessTransitive(a[1..], b[1..], c[1..]); }
  }

  lemma {:induction false} StringLessTotal(a: string, b: string)
    ensures StringLess(a, b) || StringLess(b, a) || a == b
  {
    if a != [] && b != [] && a[0] == b[0] {
      StringLessTotal(a[1..], b[1..]);
      assert a == [a[0]] + a[1..] && b == [b[0]] + b[1..];
    }
  }

  ghost predicate Ascending(s: seq<string>) {
    forall i, j {:trigger StringLess(s[i], s[j])} :: 0 <= i < j < |s| ==> StringLess(s[i], s[j])
  }

  ghost predicate IsLeast(keys: set<string>, least: string) {
    least in keys && forall k :: k in keys && k != least ==> StringLess(least, k)
  }

  lemma {:induction false} LeastExists(keys: set<string>)
    requires keys != {}
    ensures exists least :: IsLeast(keys, least)
  {
    var some :| some in keys;
    var rest := keys - {some};
    assert keys == {some} + rest;
    if rest == {} {
      assert IsLeast(keys, some);
    } else {
      LeastExists(rest);
      var least :| IsLeast(rest, least);
      StringLessTotal(some, least);
      if StringLess(some, least) {
        forall k | k in rest && k != least ensures StringLess(some, k) { StringLessTransitive(some, least, k); }
        assert IsLeast(keys, some);
      } else {
        assert IsLeast(keys, least);
      }
    }
  }

  /** The elements of a set in ascending order. */
  ghost function SortedStrings(keys: set<string>): seq<string> {
    if keys == {} then []
    else
      LeastExists(keys);
      var least :| IsLeast(keys, least);
      [least] + SortedStrings(keys - {least})
  }

  lemma {:induction false} SortedStringsFacts(keys: set<string>)
    ensures Ascending(SortedStrings(keys)) && |SortedStrings(keys)| == |keys|
    ensures forall k :: k in SortedStrings(keys) <==> k in keys
  {
    if keys != {} {
      LeastExists(keys);
      var sorted := SortedStrings(keys);
      var least, rest := sorted[0], sorted[1..];
      assert IsLeast(keys, least) && rest == SortedStrings(keys - {least}) && sorted == [least] + rest;
      SortedStringsFacts(keys - {least});
      forall i, j | 0 <= i < j < |sorted| ensures StringLess(sorted[i], sorted[j]) {
        assert sorted[j] == rest[j - 1] && rest[j - 1] in rest;
        if i > 0 { assert sorted[i] == rest[i - 1]; }
      }
    }
  }

  ghost predicate Distinct(s: seq<string>) {
    forall i, j :: 0 <= i < j < |s| ==> s[i] != s[j]
  }

  lemma AscendingIsDistinct(s: seq<string>)
    requires Ascending(s)
    ensures Distinct(s)
  {
    forall i, j | 0 <= i < j < |s| ensures s[i] != s[j] {
      assert StringLess(s[i], s[j]);
      StringLessIrreflexive(s[i]);
    }
  }

  lemma {:induction false} AscendingIsUnique(s: seq<string>, t: seq<string>)
    requires Ascending(s) && Ascending(t) && forall k :: k in s <==> k in t
    ensures s == t
  {
    if s != [] && t != [] {
      HeadIsLeast(s, t[0]);
      HeadIsLeast(t, s[0]);
      assert s[0] in t && t[0] in s;
      if s[0] != t[0] {
        StringLessTransitive(s[0], t[0], s[0]);
        StringLessIrreflexive(s[0]);
      } else {
        forall k ensures k in s[1..] <==> k in t[1..] {
          TailMember(s, k);
          TailMember(t, k);
        }
        assert forall i :: 0 <= i < |s[1..]| ==> s[1..][i] == s[i + 1];
        assert forall i :: 0 <= i < |t[1..]| ==> t[1..][i] == t[i + 1];
        AscendingIsUnique(s[1..], t[1..]);
        assert s == [s[0]] + s[1..] && t == [t[0]] + t[1..];
      }
    } else if s != [] {
      FirstIsMember(s);
    } else if t != [] {
      FirstIsMember(t);
    }
  }

  lemma FirstIsMember(s: seq<string>)
    requires s != []
    ensures s[0] in s
  {
  }

  lemma HeadIsLeast(s: seq<string>, k: string)
    requires Ascending(s) && s != []
    ensures k in s ==> k == s[0] || StringLess(s[0], k)
  {
  }

  lemma TailMember(s: seq<string>, k: string)
    requires Ascending(s) && s != []
    ensures k in s[1..] <==> k in s && k != s[0]
  {
    StringLessIrreflexive(s[0]);
    if k in s && k != s[0] {
      var i :| 0 <= i < |s| && s[i] == k;
      assert s[1..][i - 1] == k;
    }
  }

  /** Puts a new key in its place. */
  method PlaceKey(keys: seq<string>, key: string) returns (r: seq<string>)
    requires Ascending(keys) && key !in keys
    ensures Ascending(r) && forall k :: k in r <==> k == key || k in keys
  {
    var at := 0;
    while at < |keys| && StringLess(keys[at], key)
      invariant at <= |keys| && forall i :: 0 <= i < at ==> StringLess(keys[i], key)
    {
      at := at + 1;
    }
    r := keys[..at] + [key] + keys[at..];
    forall i | at <= i < |keys| ensures StringLess(key, keys[i]) {
      assert keys[at] in keys;
      StringLessTotal(keys[at], key);
      if at < i { StringLessTransitive(key, keys[at], keys[i]); }
    }
    assert forall k :: k in keys <==> k in keys[..at] || k in keys[at..] by { assert keys == keys[..at] + keys[at..]; }
  }

  method SortStrings(values: set<string>) returns (keys: seq<string>)
    ensures keys == SortedStrings(values)
  {
    keys := [];
    var rest := values;
    while rest != {}
      invariant Ascending(keys) && rest <= values && forall k :: k in keys <==> k in values - rest
      decreases |rest|
    {
      var key :| key in rest;
      keys := PlaceKey(keys, key);
      rest := rest - {key};
    }
    SortedStringsFacts(values);
    AscendingIsUnique(keys, SortedStrings(values));
  }
}
