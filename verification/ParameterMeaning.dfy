/** What escaped parameter text means, spelled out piece by piece. */
module ParameterMeaning {
  import opened Relations
  import opened ParameterText

  // ----- escapes -----

  const LOWER_DIGITS: seq<Byte> := "0123456789abcdef"

  const UPPER_DIGITS: seq<Byte> := "0123456789ABCDEF"

  /** A hex digit of either case. */
  predicate Digit(b: Byte, n: nat) { n < 16 && (LOWER_DIGITS[n] == b || UPPER_DIGITS[n] == b) }

  /** One piece of escaped text: a byte for itself, a plus for a space, or a percent sign with
      two hex digits. */
  datatype Piece = Itself(b: Byte) | Plus | Percent(high: Byte, low: Byte, h: nat, l: nat)

  predicate Fine(p: Piece) {
    match p
    case Itself(b) => b != '%' && b != '+'
    case Plus => true
    case Percent(high, low, h, l) => Digit(high, h) && Digit(low, l)
  }

  function Spelling(p: Piece): seq<Byte> {
    match p
    case Itself(b) => [b]
    case Plus => ['+']
    case Percent(high, low, _, _) => ['%', high, low]
  }

  function Meaning(p: Piece): Byte
    requires Fine(p)
  {
    match p
    case Itself(b) => b
    case Plus => ' '
    case Percent(_, _, h, l) => (16 * h + l) as char
  }

  predicate AllFine(ps: seq<Piece>) { forall i :: 0 <= i < |ps| ==> Fine(ps[i]) }

  function Spelled(ps: seq<Piece>): seq<Byte> {
    if ps == [] then [] else Spelling(ps[0]) + Spelled(ps[1..])
  }

  function Meant(ps: seq<Piece>): seq<Byte>
    requires AllFine(ps)
  {
    if ps == [] then [] else [Meaning(ps[0])] + Meant(ps[1..])
  }

  ghost predicate Reads(s: seq<Byte>, value: seq<Byte>) {
    exists ps :: AllFine(ps) && Spelled(ps) == s && Meant(ps) == value
  }

  lemma DigitValue(b: Byte, n: nat)
    ensures Digit(b, n) <==> HexValue(b) == Some(n)
  {
    if HexValue(b) == Some(n) {
      LowerDigit(n);
      UpperDigit(n);
    }
  }

  lemma LowerDigit(n: nat)
    requires n < 16
    ensures LOWER_DIGITS[n] == if n < 10 then '0' + n as char else 'a' + (n - 10) as char
  {
  }

  lemma UpperDigit(n: nat)
    requires n < 16
    ensures UPPER_DIGITS[n] == if n < 10 then '0' + n as char else 'A' + (n - 10) as char
  {
  }

  /** Letters, digits and four marks are written as they are, a space as a plus, anything else as
      a percent sign and two upper-case digits. */
  lemma ByteIsWritten(b: Byte)
    ensures EscapeByte(b) ==
      if 'a' <= b <= 'z' || 'A' <= b <= 'Z' || '0' <= b <= '9' || b in {'-', '_', '.', '~'} then [b]
      else if b == ' ' then ['+']
      else ['%', UPPER_DIGITS[b as int / 16], UPPER_DIGITS[b as int % 16]]
  {
    DigitIsWritten(b as int / 16);
    DigitIsWritten(b as int % 16);
  }

  lemma DigitIsWritten(n: nat)
    requires n < 16
    ensures HexDigit(n) == UPPER_DIGITS[n]
  {
    UpperDigit(n);
  }

  /** Pieces are read as what they mean. */
  lemma {:induction false} PiecesAreRead(ps: seq<Piece>)
    requires AllFine(ps)
    ensures QueryUnescape(Spelled(ps)) == Some(Meant(ps))
  {
    if ps != [] {
      assert AllFine(ps[1..]);
      PiecesAreRead(ps[1..]);
      PieceIsRead(ps[0], Spelled(ps[1..]));
    }
  }

  lemma PieceIsRead(p: Piece, rest: seq<Byte>)
    requires Fine(p) && QueryUnescape(rest).Some?
    ensures QueryUnescape(Spelling(p) + rest) == Some([Meaning(p)] + QueryUnescape(rest).value)
  {
    var s := Spelling(p) + rest;
    match p
    case Percent(high, low, h, l) =>
      DigitValue(high, h);
      DigitValue(low, l);
      assert s[0] == '%' && s[1] == high && s[2] == low && s[3..] == rest;
    case _ => assert s[1..] == rest;
  }

  /** What is read consists of pieces. */
  lemma {:induction false} ReadAsPieces(s: seq<Byte>) returns (ps: seq<Piece>)
    requires QueryUnescape(s).Some?
    ensures AllFine(ps) && Spelled(ps) == s && Meant(ps) == QueryUnescape(s).value
    decreases |s|
  {
    if s == [] {
      ps := [];
    } else {
      var piece, n := FirstPiece(s);
      var rest := ReadAsPieces(s[n..]);
      ps := [piece] + rest;
      assert ps[1..] == rest && s == s[..n] + s[n..];
    }
  }

  lemma FirstPiece(s: seq<Byte>) returns (p: Piece, n: nat)
    requires s != [] && QueryUnescape(s).Some?
    ensures 0 < n <= |s| && Fine(p) && Spelling(p) == s[..n] && QueryUnescape(s[n..]).Some?
    ensures QueryUnescape(s).value == [Meaning(p)] + QueryUnescape(s[n..]).value
  {
    if s[0] == '%' {
      p, n := Percent(s[1], s[2], HexValue(s[1]).value, HexValue(s[2]).value), 3;
      DigitValue(s[1], p.h);
      DigitValue(s[2], p.l);
    } else {
      p, n := if s[0] == '+' then Plus else Itself(s[0]), 1;
    }
  }

  /** Escaped text is read exactly if it is made of such pieces, and then as what they mean. */
  lemma UnescapeMeans(s: seq<Byte>, value: seq<Byte>)
    ensures QueryUnescape(s) == Some(value) <==> Reads(s, value)
  {
    if QueryUnescape(s) == Some(value) {
      var ps := ReadAsPieces(s);
      assert AllFine(ps) && Spelled(ps) == s && Meant(ps) == value;
    }
    if Reads(s, value) {
      var ps :| AllFine(ps) && Spelled(ps) == s && Meant(ps) == value;
      PiecesAreRead(ps);
    }
  }

  // ----- pairs -----

  /** The text is cut at every separator, and nowhere else. */
  lemma {:induction false} SplitCuts(s: seq<Byte>, sep: Byte)
    ensures Join(Split(s, sep), sep) == s && forall i :: 0 <= i < |Split(s, sep)| ==> sep !in Split(s, sep)[i]
    decreases |s|
  {
    var n := FirstOf(s, sep);
    if n == |s| {
      assert s[..n] == s;
    } else {
      SplitCuts(s[n + 1..], sep);
      assert s == s[..n] + [sep] + s[n + 1..];
      assert Split(s, sep)[1..] == Split(s[n + 1..], sep);
    }
  }

  /** The part is a name, an equals sign and a value, cut at the first equals sign. */
  ghost predicate IsPair(part: seq<Byte>, p: Parameter) {
    exists name: seq<Byte>, value: seq<Byte> ::
      IsCut(part, name, value) && Reads(name, p.name) && Reads(value, p.value)
  }

  predicate IsCut(part: seq<Byte>, name: seq<Byte>, value: seq<Byte>) {
    part == name + ['='] + value && '=' !in name
  }

  lemma PairHasEquals(part: seq<Byte>, p: Parameter)
    ensures IsPair(part, p) ==> '=' in part
  {
    if IsPair(part, p) {
      var name, value :| IsCut(part, name, value) && Reads(name, p.name) && Reads(value, p.value);
      assert part[|name|] == '=';
    }
  }

  lemma PartMeans(part: seq<Byte>, index: nat, p: Parameter)
    ensures ParsePart(part, index) == Success(p) <==> IsPair(part, p)
    ensures ParsePart(part, index) == Result.Failure(NoEquals(index)) <==> '=' !in part
    ensures ParsePart(part, index).Failure? && '=' in part ==>
      ParsePart(part, index) == Result.Failure(BadEscape(index))
  {
    var n := FirstOf(part, '=');
    PairHasEquals(part, p);
    if n == |part| {
      assert part[..n] == part;
    } else {
      CutAtFirst(part);
      CutMeans(part, part[..n], part[n + 1..], p);
      CutReads(part[..n], part[n + 1..], p);
    }
  }

  lemma CutAtFirst(part: seq<Byte>)
    requires FirstOf(part, '=') < |part|
    ensures IsCut(part, part[..FirstOf(part, '=')], part[FirstOf(part, '=') + 1..])
  {
    CutAt(part, FirstOf(part, '='));
  }

  lemma CutAt(part: seq<Byte>, n: nat)
    requires n < |part| && part[n] == '=' && '=' !in part[..n]
    ensures IsCut(part, part[..n], part[n + 1..])
  {
    assert part[n..] == ['='] + part[n + 1..];
    assert part == part[..n] + part[n..];
  }

  lemma CutMeans(part: seq<Byte>, name: seq<Byte>, value: seq<Byte>, p: Parameter)
    requires IsCut(part, name, value)
    ensures IsPair(part, p) <==> Reads(name, p.name) && Reads(value, p.value)
  {
    if IsPair(part, p) { PairIsRead(part, name, value, p); }
    if Reads(name, p.name) && Reads(value, p.value) { ReadIsPair(part, name, value, p); }
  }

  lemma PairIsRead(part: seq<Byte>, name: seq<Byte>, value: seq<Byte>, p: Parameter)
    requires IsCut(part, name, value) && IsPair(part, p)
    ensures Reads(name, p.name) && Reads(value, p.value)
  {
    var n, v :| IsCut(part, n, v) && Reads(n, p.name) && Reads(v, p.value);
    OneCut(part, n, v);
    OneCut(part, name, value);
  }

  lemma ReadIsPair(part: seq<Byte>, name: seq<Byte>, value: seq<Byte>, p: Parameter)
    requires IsCut(part, name, value) && Reads(name, p.name) && Reads(value, p.value)
    ensures IsPair(part, p)
  {
  }

  lemma CutReads(name: seq<Byte>, value: seq<Byte>, p: Parameter)
    ensures (QueryUnescape(name) == Some(p.name) <==> Reads(name, p.name)) &&
            (QueryUnescape(value) == Some(p.value) <==> Reads(value, p.value))
  {
    UnescapeMeans(name, p.name);
    UnescapeMeans(value, p.value);
  }

  /** There is only one place to cut. */
  lemma OneCut(part: seq<Byte>, name: seq<Byte>, value: seq<Byte>)
    requires IsCut(part, name, value)
    ensures
      var n := FirstOf(part, '=');
      n < |part| && part[..n] == name && part[n + 1..] == value
  {
    FirstOfAppended(name, '=', value);
  }

  /** Reading parts one after the other, by whether each reads as its parameter. */
  lemma {:induction false} AllParse(parts: seq<seq<Byte>>, ps: seq<Parameter>, good: seq<bool>, n: nat)
    requires n <= |parts| == |ps| == |good|
    requires forall i :: 0 <= i < |ps| ==> good[i] == Parses(parts[i], i, ps[i])
    ensures ParseParts(parts, n) == Success(ps[..n]) <==> forall i :: 0 <= i < n ==> good[i]
  {
    if n > 0 {
      AllParse(parts, ps, good, n - 1);
      var ok := good[n - 1];
      ParseStep(parts, ps[..n], n);
      assert ps[..n][..n - 1] == ps[..n - 1];
    }
  }

  lemma PartIsPair(part: seq<Byte>, index: nat, p: Parameter)
    ensures Parses(part, index, p) <==> IsPair(part, p)
  {
    PartMeans(part, index, p);
  }

  lemma ParseStep(parts: seq<seq<Byte>>, qs: seq<Parameter>, n: nat)
    requires 0 < n <= |parts| && |qs| == n
    ensures ParseParts(parts, n) == Success(qs) <==>
      ParseParts(parts, n - 1) == Success(qs[..n - 1]) && Parses(parts[n - 1], n - 1, qs[n - 1])
  {
    assert qs == qs[..n - 1] + [qs[n - 1]];
  }

  lemma {:induction false} ParsedLength(parts: seq<seq<Byte>>, n: nat)
    requires n <= |parts| && ParseParts(parts, n).Success?
    ensures |ParseParts(parts, n).value| == n
  {
    if n > 0 { ParsedLength(parts, n - 1); }
  }

  /** Text that is not blank is read as parameters exactly if each part between two ampersands
      is a pair, in that order. */
  lemma ParseMeans(blank: seq<Byte> -> bool, raw: seq<Byte>, ps: seq<Parameter>)
    requires !blank(raw)
    ensures Parse(blank, raw) == Success(ps) <==>
      |ps| == |Split(raw, '&')| && forall i :: 0 <= i < |ps| ==> IsPair(Split(raw, '&')[i], ps[i])
  {
    var parts := Split(raw, '&');
    if |ps| == |parts| {
      var good := seq(|ps|, i requires 0 <= i < |ps| => Parses(parts[i], i, ps[i]));
      AllParse(parts, ps, good, |parts|);
      assert ps[..|parts|] == ps;
      forall i | 0 <= i < |ps| ensures good[i] <==> IsPair(parts[i], ps[i]) {
        PartIsPair(parts[i], i, ps[i]);
      }
    } else if Parse(blank, raw).Success? {
      ParsedLength(parts, |parts|);
    }
  }

  /** Otherwise the first part that is none is reported: for its missing equals sign, or for its
      escapes. */
  lemma {:induction false} FirstBadPartReported(parts: seq<seq<Byte>>, n: nat) returns (i: nat)
    requires n <= |parts| && ParseParts(parts, n).Failure?
    ensures i < n && ParseParts(parts, i).Success?
    ensures forall p :: !IsPair(parts[i], p)
    ensures ParseParts(parts, n) == Result.Failure(if '=' in parts[i] then BadEscape(i) else NoEquals(i))
  {
    if ParseParts(parts, n - 1).Failure? {
      i := FirstBadPartReported(parts, n - 1);
    } else {
      i := n - 1;
      forall p ensures !IsPair(parts[i], p) {
        PartMeans(parts[i], i, p);
      }
      PartMeans(parts[i], i, Parameter([], []));
    }
  }
}
