/** Lines and columns of a text, and the offsets they stand for. */
module TextPositions {

  /** The text between line breaks; at least one line. */
  function Split(s: string): (lines: seq<string>)
    ensures |lines| > 0
  {
    if s == [] then [""]
    else
      var rest := Split(s[1..]);
      if s[0] == '\n' then [""] + rest else [[s[0]] + rest[0]] + rest[1..]
  }

  datatype Position = Position(line: nat, column: nat)

  /** Where one gets to by stepping over the first `k` characters. */
  function PositionAt(s: string, k: nat): Position
    requires k <= |s|
  {
    if k == 0 then Position(0, 0)
    else
      var before := PositionAt(s, k - 1);
      if s[k - 1] == '\n' then Position(before.line + 1, 0) else Position(before.line, before.column + 1)
  }

  /** The offset at which a line begins. */
  function LineStart(lines: seq<string>, line: nat): nat
    requires line <= |lines|
  {
    if line == 0 then 0 else LineStart(lines, line - 1) + |lines[line - 1]| + 1
  }

  /** A place in the text: a line and a column on it, its end included. */
  predicate OnText(s: string, p: Position) { p.line < |Split(s)| && p.column <= |Split(s)[p.line]| }

  function OffsetOf(s: string, p: Position): nat
    requires OnText(s, p)
  {
    LineStart(Split(s), p.line) + p.column
  }

  // ----- how a line and the text relate -----

  lemma {:induction false} LineStartAfterFirst(first: string, rest: seq<string>, line: nat)
    requires line <= |rest|
    ensures LineStart([first] + rest, line + 1) == |first| + 1 + LineStart(rest, line)
  {
    if line > 0 {
      LineStartAfterFirst(first, rest, line - 1);
      assert ([first] + rest)[line] == rest[line - 1];
    }
  }

  lemma {:induction false} LineStartsOfLonger(c: char, lines: seq<string>, line: nat)
    requires 0 < line <= |lines|
    ensures LineStart([[c] + lines[0]] + lines[1..], line) == LineStart(lines, line) + 1
  {
    var longer := [[c] + lines[0]] + lines[1..];
    if line > 1 {
      LineStartsOfLonger(c, lines, line - 1);
      assert longer[line - 1] == lines[line - 1];
    } else {
      assert LineStart(longer, 1) == LineStart(longer, 0) + |longer[0]| + 1;
      assert LineStart(lines, 1) == LineStart(lines, 0) + |lines[0]| + 1;
    }
  }

  /** What lies at a place: the character of the line, or the line break that ends it. */
  predicate LiesAt(s: string, p: Position)
    requires OnText(s, p)
  {
    var lines := Split(s);
    var k := OffsetOf(s, p);
    k <= |s| && (k == |s| <==> p.line == |lines| - 1 && p.column == |lines[p.line]|) &&
    (k < |s| ==> (s[k] == '\n' <==> p.column == |lines[p.line]|))
  }

  lemma AfterLineBreak(s: string, p: Position)
    requires s != [] && s[0] == '\n' && OnText(s, p) && p.line > 0
    requires OnText(s[1..], Position(p.line - 1, p.column)) ==> LiesAt(s[1..], Position(p.line - 1, p.column))
    ensures LiesAt(s, p)
  {
    var rest := Split(s[1..]);
    LineStartAfterFirst("", rest, p.line - 1);
    assert Split(s)[p.line] == rest[p.line - 1];
  }

  lemma OnLaterLine(s: string, p: Position)
    requires s != [] && s[0] != '\n' && OnText(s, p) && p.line > 0
    requires OnText(s[1..], p) ==> LiesAt(s[1..], p)
    ensures LiesAt(s, p)
  {
    var rest := Split(s[1..]);
    LineStartsOfLonger(s[0], rest, p.line);
    assert Split(s)[p.line] == rest[p.line];
  }

  lemma {:induction false} CharacterAt(s: string, p: Position)
    requires OnText(s, p)
    ensures LiesAt(s, p)
  {
    if s != [] {
      if s[0] == '\n' {
        if p.line > 0 {
          if OnText(s[1..], Position(p.line - 1, p.column)) { CharacterAt(s[1..], Position(p.line - 1, p.column)); }
          AfterLineBreak(s, p);
        }
      } else if p.line > 0 {
        if OnText(s[1..], p) { CharacterAt(s[1..], p); }
        OnLaterLine(s, p);
      } else if p.column > 0 {
        CharacterAt(s[1..], Position(0, p.column - 1));
      }
    }
  }

  /** Stepping over `k` characters leads to the place with offset `k`. */
  lemma {:induction false} PositionHasOffset(s: string, k: nat)
    requires k <= |s|
    ensures OnText(s, PositionAt(s, k)) && OffsetOf(s, PositionAt(s, k)) == k
  {
    if k > 0 {
      PositionHasOffset(s, k - 1);
      CharacterAt(s, PositionAt(s, k - 1));
    }
  }

  lemma {:induction false} LineStartsAscend(lines: seq<string>, i: nat, j: nat)
    requires i < j <= |lines|
    ensures LineStart(lines, i) + |lines[i]| < LineStart(lines, j)
    decreases j
  {
    if i < j - 1 { LineStartsAscend(lines, i, j - 1); }
  }

  /** Different places have different offsets. */
  lemma OffsetIsInjective(s: string, p: Position, q: Position)
    requires OnText(s, p) && OnText(s, q) && OffsetOf(s, p) == OffsetOf(s, q)
    ensures p == q
  {
    if p.line < q.line { LineStartsAscend(Split(s), p.line, q.line); }
    else if q.line < p.line { LineStartsAscend(Split(s), q.line, p.line); }
  }

  /** Places and offsets correspond one to one. */
  lemma OffsetHasPosition(s: string, p: Position)
    requires OnText(s, p)
    ensures OffsetOf(s, p) <= |s| && PositionAt(s, OffsetOf(s, p)) == p
  {
    CharacterAt(s, p);
    PositionHasOffset(s, OffsetOf(s, p));
    OffsetIsInjective(s, PositionAt(s, OffsetOf(s, p)), p);
  }
}
