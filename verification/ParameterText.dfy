/** Connection parameters as text: name=value pairs joined by '&', percent-encoded as in
    section 2.1 of RFC 3986 with a space as '+'. */
module ParameterText {
  import opened Relations

  /** Text is a sequence of bytes. */
  type Byte = c: char | c as int < 256 witness 'a'

  datatype Parameter = Parameter(name: seq<Byte>, value: seq<Byte>)

  datatype ParseError = NoEquals(index: nat) | BadEscape(index: nat)

  // ----- percent-encoding -----

  predicate Unreserved(b: Byte) {
    'a' <= b <= 'z' || 'A' <= b <= 'Z' || '0' <= b <= '9' || b == '-' || b == '_' || b == '.' || b == '~'
  }

  function HexDigit(n: nat): Byte
    requires n < 16
  {
    if n < 10 then '0' + n as char else 'A' + (n - 10) as char
  }

  function HexValue(b: Byte): (r: Option<nat>)
    ensures r.Some? ==> r.value < 16
  {
    if '0' <= b <= '9' then Some((b - '0') as nat)
    else if 'A' <= b <= 'F' then Some((b - 'A') as nat + 10)
    else if 'a' <= b <= 'f' then Some((b - 'a') as nat + 10)
    else None
  }

  function EscapeByte(b: Byte): seq<Byte> {
    if b == ' ' then ['+']
    else if Unreserved(b) then [b]
    else ['%', HexDigit(b as int / 16), HexDigit(b as int % 16)]
  }

  function QueryEscape(s: seq<Byte>): seq<Byte> {
    if s == [] then [] else EscapeByte(s[0]) + QueryEscape(s[1..])
  }

  /** Hex digits of either case are read; '%' must be followed by two of them. */
  function QueryUnescape(s: seq<Byte>): Option<seq<Byte>> {
    if s == [] then Some([])
    else if s[0] == '%' then
      if |s| < 3 || HexValue(s[1]).None? || HexValue(s[2]).None? then None
      else
        var rest := QueryUnescape(s[3..]);
        if rest.None? then None else Some([(HexValue(s[1]).value * 16 + HexValue(s[2]).value) as char] + rest.value)
    else
      var rest := QueryUnescape(s[1..]);
      if rest.None? then None else Some([if s[0] == '+' then ' ' else s[0]] + rest.value)
  }

  lemma HexRoundTrip(n: nat)
    requires n < 16
    ensures HexValue(HexDigit(n)) == Some(n)
  {
  }

  lemma UnescapeByte(b: Byte, rest: seq<Byte>)
    requires QueryUnescape(rest).Some?
    ensures QueryUnescape(EscapeByte(b) + rest) == Some([b] + QueryUnescape(rest).value)
  {
    var s := EscapeByte(b) + rest;
    if b == ' ' || Unreserved(b) {
      assert s[1..] == rest;
    } else {
      HexRoundTrip(b as int / 16);
      HexRoundTrip(b as int % 16);
      assert s[0] == '%' && s[1] == HexDigit(b as int / 16) && s[2] == HexDigit(b as int % 16) && s[3..] == rest;
    }
  }

  lemma {:induction false} UnescapeEscaped(s: seq<Byte>)
    ensures QueryUnescape(QueryEscape(s)) == Some(s)
  {
    if s != [] {
      UnescapeEscaped(s[1..]);
      UnescapeByte(s[0], QueryEscape(s[1..]));
      assert s == [s[0]] + s[1..];
    }
  }

  /** Escaped text contains neither separator. */
  lemma {:induction false} EscapedHasNoSeparators(s: seq<Byte>)
    ensures '&' !in QueryEscape(s) && '=' !in QueryEscape(s)
  {
    if s != [] {
      EscapedHasNoSeparators(s[1..]);
      assert '&' !in EscapeByte(s[0]) && '=' !in EscapeByte(s[0]);
    }
  }

  // ----- cutting and joining -----

  /** Where a separator first occurs, or the length. */
  function FirstOf(s: seq<Byte>, sep: Byte): (n: nat)
    ensures n <= |s| && (n < |s| ==> s[n] == sep) && sep !in s[..n]
  {
    if s == [] || s[0] == sep then 0
    else
      var n := FirstOf(s[1..], sep);
      assert s[..n + 1] == [s[0]] + s[1..][..n];
      n + 1
  }

  function Split(s: seq<Byte>, sep: Byte): (parts: seq<seq<Byte>>)
    ensures |parts| > 0
    decreases |s|
  {
    var n := FirstOf(s, sep);
    if n == |s| then [s] else [s[..n]] + Split(s[n + 1..], sep)
  }

  function Join(parts: seq<seq<Byte>>, sep: Byte): seq<Byte> {
    if parts == [] then [] else if |parts| == 1 then parts[0] else parts[0] + [sep] + Join(parts[1..], sep)
  }

  lemma {:induction false} FirstIs(a: seq<Byte>, sep: Byte, rest: seq<Byte>)
    requires sep !in a
    ensures FirstOf(a + [sep] + rest, sep) == |a|
  {
    if a != [] {
      assert (a + [sep] + rest)[1..] == a[1..] + [sep] + rest;
      FirstIs(a[1..], sep, rest);
    }
  }

  lemma FirstOfAppended(a: seq<Byte>, sep: Byte, rest: seq<Byte>)
    requires sep !in a
    ensures FirstOf(a + [sep] + rest, sep) == |a| && (a + [sep] + rest)[..|a|] == a &&
      (a + [sep] + rest)[|a| + 1..] == rest
  {
    FirstIs(a, sep, rest);
  }

  lemma FirstOfAbsent(a: seq<Byte>, sep: Byte)
    requires sep !in a
    ensures FirstOf(a, sep) == |a|
  {
  }

  lemma {:induction false} SplitJoined(parts: seq<seq<Byte>>, sep: Byte)
    requires parts != [] && forall i :: 0 <= i < |parts| ==> sep !in parts[i]
    ensures Split(Join(parts, sep), sep) == parts
    decreases |parts|
  {
    if |parts| == 1 {
      FirstOfAbsent(parts[0], sep);
    } else {
      FirstOfAppended(parts[0], sep, Join(parts[1..], sep));
      SplitJoined(parts[1..], sep);
      assert parts == [parts[0]] + parts[1..];
    }
  }

  // ----- formatting and parsing -----

  function FormatPart(p: Parameter): seq<Byte> { QueryEscape(p.name) + ['='] + QueryEscape(p.value) }

  function FormatParts(ps: seq<Parameter>): (r: seq<seq<Byte>>)
    ensures |r| == |ps|
  {
    seq(|ps|, i requires 0 <= i < |ps| => FormatPart(ps[i]))
  }

  function Format(ps: seq<Parameter>): seq<Byte> { Join(FormatParts(ps), '&') }

  method FormatAdvanced(ps: seq<Parameter>) returns (text: seq<Byte>)
    ensures text == Format(ps)
  {
    var parts: seq<seq<Byte>> := [];
    for i := 0 to |ps|
      invariant parts == FormatParts(ps[..i])
    {
      parts := parts + [QueryEscape(ps[i].name) + ['='] + QueryEscape(ps[i].value)];
    }
    assert ps[..|ps|] == ps;
    return Join(parts, '&');
  }

  function ParsePart(part: seq<Byte>, index: nat): Result<Parameter, ParseError> {
    var n := FirstOf(part, '=');
    if n == |part| then Failure(NoEquals(index))
    else
      var name, value := QueryUnescape(part[..n]), QueryUnescape(part[n + 1..]);
      if name.None? || value.None? then Failure(BadEscape(index)) else Success(Parameter(name.value, value.value))
  }

  /** The parameters of the parts, or the first error. */
  function ParseParts(parts: seq<seq<Byte>>, n: nat): Result<seq<Parameter>, ParseError>
    requires n <= |parts|
  {
    if n == 0 then Success([])
    else
      var before := ParseParts(parts, n - 1);
      if before.Failure? then before
      else
        var last := ParsePart(parts[n - 1], n - 1);
        if last.Failure? then Failure(last.error) else Success(before.value + [last.value])
  }

  /** What counts as blank text: the empty text does, text with an equals sign does not. */
  ghost predicate SaneBlank(blank: seq<Byte> -> bool) { blank([]) && forall s: seq<Byte> :: '=' in s ==> !blank(s) }

  function Parse(blank: seq<Byte> -> bool, raw: seq<Byte>): Result<seq<Parameter>, ParseError> {
    if blank(raw) then Success([])
    else
      var parts := Split(raw, '&');
      ParseParts(parts, |parts|)
  }

  lemma {:induction false} FailureStays(parts: seq<seq<Byte>>, n: nat, k: nat)
    requires n <= k <= |parts| && ParseParts(parts, n).Failure?
    ensures ParseParts(parts, k) == ParseParts(parts, n)
  {
    if n < k { FailureStays(parts, n, k - 1); }
  }

  method DecodePart(part: seq<Byte>, index: nat) returns (r: Result<Parameter, ParseError>)
    ensures r == ParsePart(part, index)
  {
    var cut := FirstOf(part, '=');
    if cut == |part| {
      return Failure(NoEquals(index));
    }
    var name, value := QueryUnescape(part[..cut]), QueryUnescape(part[cut + 1..]);
    if name.None? || value.None? {
      return Failure(BadEscape(index));
    }
    return Success(Parameter(name.value, value.value));
  }

  method ParseAdvanced(blank: seq<Byte> -> bool, raw: seq<Byte>) returns (r: Result<seq<Parameter>, ParseError>)
    ensures r == Parse(blank, raw)
  {
    if blank(raw) {
      return Success([]);
    }
    var parts := Split(raw, '&');
    var parameters: seq<Parameter> := [];
    for index := 0 to |parts|
      invariant ParseParts(parts, index) == Success(parameters)
    {
      var decoded := DecodePart(parts[index], index);
      if decoded.Failure? {
        FailureStays(parts, index + 1, |parts|);
        return Failure(decoded.error);
      }
      parameters := parameters + [decoded.value];
    }
    return Success(parameters);
  }

  // ----- the round trip -----

  lemma ParseFormatted(p: Parameter, index: nat)
    ensures ParsePart(FormatPart(p), index) == Success(p) && '&' !in FormatPart(p)
  {
    EscapedHasNoSeparators(p.name);
    EscapedHasNoSeparators(p.value);
    FirstOfAppended(QueryEscape(p.name), '=', QueryEscape(p.value));
    UnescapeEscaped(p.name);
    UnescapeEscaped(p.value);
  }

  predicate Parses(part: seq<Byte>, index: nat, p: Parameter) { ParsePart(part, index) == Success(p) }

  lemma ParseLast(parts: seq<seq<Byte>>, n: nat, before: seq<Parameter>, last: Parameter)
    requires 0 < n <= |parts| && ParseParts(parts, n - 1) == Success(before) && Parses(parts[n - 1], n - 1, last)
    ensures ParseParts(parts, n) == Success(before + [last])
  {
  }

  lemma {:induction false} ParseAll(parts: seq<seq<Byte>>, ps: seq<Parameter>, n: nat)
    requires n <= |ps| == |parts| && forall i :: 0 <= i < |ps| ==> Parses(parts[i], i, ps[i])
    ensures ParseParts(parts, n) == Success(ps[..n])
  {
    if n > 0 {
      ParseAll(parts, ps, n - 1);
      ParseLast(parts, n, ps[..n - 1], ps[n - 1]);
      assert ps[..n] == ps[..n - 1] + [ps[n - 1]];
    }
  }

  lemma ParseFormattedParts(ps: seq<Parameter>)
    ensures ParseParts(FormatParts(ps), |ps|) == Success(ps)
  {
    forall i | 0 <= i < |ps| ensures Parses(FormatParts(ps)[i], i, ps[i]) {
      ParseFormatted(ps[i], i);
    }
    ParseAll(FormatParts(ps), ps, |ps|);
    assert ps[..|ps|] == ps;
  }

  lemma FormattedHasEquals(ps: seq<Parameter>)
    requires ps != []
    ensures '=' in Format(ps)
  {
  }

  /** Parsing formatted parameters returns them, whatever names and values contain: separators,
      percent and plus signs, spaces, nothing at all, and for the empty list too. */
  lemma ParseUndoesFormat(blank: seq<Byte> -> bool, ps: seq<Parameter>)
    requires SaneBlank(blank)
    ensures Parse(blank, Format(ps)) == Success(ps)
  {
    if ps == [] {
      assert Format(ps) == [];
    } else {
      FormattedHasEquals(ps);
      var parts := FormatParts(ps);
      forall i | 0 <= i < |parts| ensures '&' !in parts[i] { ParseFormatted(ps[i], i); }
      SplitJoined(parts, '&');
      ParseFormattedParts(ps);
    }
  }
}
