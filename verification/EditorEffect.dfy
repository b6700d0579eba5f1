/** What an edit, a movement, an undo and a redo do to the SQL editor, in the user's terms. */
module EditorEffect {
  import opened Relations
  import opened TextPositions
  import opened EditorHistory

  /** The nearest offset within a text of that length. */
  function Cut(k: int, n: nat): nat { if k < 0 then 0 else if k > n then n else k }

  /** The selected part of the text, from its smaller to its larger end. */
  predicate Selected(s: EditorState, lo: nat, hi: nat) {
    var a, b := Cut(s.selection.anchor, |s.text|), Cut(s.selection.head, |s.text|);
    s.selection.active && a != b && lo == (if a < b then a else b) && hi == if a < b then b else a
  }

  predicate NothingSelected(s: EditorState) {
    !s.selection.active || Cut(s.selection.anchor, |s.text|) == Cut(s.selection.head, |s.text|)
  }

  /** The state before is the last thing remembered, on top of what was; beyond 200 the oldest
      is forgotten. Nothing can be redone. */
  predicate Remembers(s: EditorState, t: EditorState)
    requires OnText(s.text, s.cursor)
  {
    var all := s.undo + [Snapshot(s.text, OffsetOf(s.text, s.cursor))];
    t.redo == [] && t.undo == if |all| <= 200 then all else all[|all| - 200..]
  }

  predicate SameStacks(s: EditorState, t: EditorState) { t.undo == s.undo && t.redo == s.redo }

  lemma TargetIsSelected(s: EditorState)
    requires OnText(s.text, s.cursor)
    ensures Selected(s, Target(s).0, Target(s).1) ||
      (NothingSelected(s) && Target(s) == (OffsetOf(s.text, s.cursor), OffsetOf(s.text, s.cursor)))
  {
  }

  /** Typing over a selection replaces it, and otherwise inserts at the cursor. The cursor ends up
      behind what was typed and nothing is selected. The state before is remembered if the text
      has changed. */
  lemma ReplacementSplices(s: EditorState, insert: string) returns (lo: nat, hi: nat)
    requires Valid(s)
    ensures lo <= hi <= |s.text|
    ensures Selected(s, lo, hi) || (NothingSelected(s) && lo == hi == OffsetOf(s.text, s.cursor))
    ensures
      var t := Replaced(s, insert);
      t.text == s.text[..lo] + insert + s.text[hi..] && OnText(t.text, t.cursor) &&
      OffsetOf(t.text, t.cursor) == lo + |insert| && !t.selection.active &&
      if t.text == s.text then SameStacks(s, t) else Remembers(s, t)
  {
    TargetIsSelected(s);
    SplicedIsThere(s, insert);
    ReplacedIsSpliced(s, insert);
    lo, hi := Target(s).0, Target(s).1;
  }

  /** The text area's own edits are remembered in the same way, its movements are not. */
  lemma TypingRemembers(s: EditorState, text: string, cursor: Position)
    requires Valid(s) && OnText(text, cursor)
    ensures
      var t := Step(s, Type(text, cursor));
      t.text == text && t.cursor == cursor &&
      if text == s.text then SameStacks(s, t) && t.selection == s.selection
      else Remembers(s, t) && !t.selection.active
  {
  }

  lemma SelectingSelects(s: EditorState, selection: Selection, cursor: Position)
    requires OnText(s.text, s.cursor) && OnText(s.text, cursor)
    ensures Step(s, Select(selection, cursor)) == s.(selection := selection, cursor := cursor)
  {
  }

  /** Undo brings back the last state remembered, and remembers the present one for redo; redo
      does the reverse. Without anything to go back or forward to they do nothing. */
  lemma UndoBringsBack(s: EditorState)
    requires Valid(s)
    ensures
      var t := Step(s, Undo);
      if s.undo == [] then t == s
      else
        var last := s.undo[|s.undo| - 1];
        t.text == last.value && OnText(t.text, t.cursor) && OffsetOf(t.text, t.cursor) == last.cursor &&
        !t.selection.active && t.undo == s.undo[..|s.undo| - 1] &&
        t.redo == s.redo + [Snapshot(s.text, OffsetOf(s.text, s.cursor))]
  {
    if s.undo != [] {
      var last := s.undo[|s.undo| - 1];
      RestoredNow(s.(undo := s.undo[..|s.undo| - 1], redo := s.redo + [Now(s)]), last);
    }
  }

  lemma RedoBringsForward(s: EditorState)
    requires Valid(s)
    ensures
      var t := Step(s, Redo);
      if s.redo == [] then t == s
      else
        var last := s.redo[|s.redo| - 1];
        t.text == last.value && OnText(t.text, t.cursor) && OffsetOf(t.text, t.cursor) == last.cursor &&
        !t.selection.active && t.redo == s.redo[..|s.redo| - 1] &&
        t.undo == s.undo + [Snapshot(s.text, OffsetOf(s.text, s.cursor))]
  {
    if s.redo != [] {
      var last := s.redo[|s.redo| - 1];
      RestoredNow(s.(redo := s.redo[..|s.redo| - 1], undo := s.undo + [Now(s)]), last);
    }
  }
}
