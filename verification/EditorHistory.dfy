/** The SQL editor: text, cursor, selection, and the bounded undo and redo stacks. */
module EditorHistory {
  import opened Relations
  import opened TextPositions

  const MAX_UNDO := 200

  datatype Snapshot = Snapshot(value: string, cursor: int)

  datatype Selection = Selection(anchor: int, head: int, active: bool)

  const NO_SELECTION := Selection(0, 0, false)

  datatype EditorState = EditorState(text: string, cursor: Position, selection: Selection, undo: seq<Snapshot>,
      redo: seq<Snapshot>)

  function Clamp(k: int, limit: nat): (r: nat)
    ensures r <= limit
  {
    Min(limit, Max(0, k))
  }

  predicate InRange(s: Snapshot) { 0 <= s.cursor <= |s.value| }

  /** The cursor is on the text, snapshots have their cursor in range, and both stacks together
      are bounded although only undo is trimmed. */
  predicate Valid(s: EditorState) {
    OnText(s.text, s.cursor) && |s.undo| + |s.redo| <= MAX_UNDO &&
    (forall i :: 0 <= i < |s.undo| ==> InRange(s.undo[i])) && forall i :: 0 <= i < |s.redo| ==> InRange(s.redo[i])
  }

  function CursorOffset(s: EditorState): nat
    requires OnText(s.text, s.cursor)
  {
    OffsetOf(s.text, s.cursor)
  }

  function Now(s: EditorState): Snapshot
    requires OnText(s.text, s.cursor)
  {
    Snapshot(s.text, CursorOffset(s))
  }

  function Placed(s: EditorState, offset: int): EditorState {
    s.(cursor := PositionAt(s.text, Clamp(offset, |s.text|)))
  }

  function Restore(s: EditorState, snapshot: Snapshot): EditorState {
    Placed(s.(text := snapshot.value), snapshot.cursor).(selection := NO_SELECTION)
  }

  function Bounds(selection: Selection, limit: nat): (nat, nat) {
    (Clamp(Min(selection.anchor, selection.head), limit), Clamp(Max(selection.anchor, selection.head), limit))
  }

  predicate HasSelection(s: EditorState) {
    s.selection.active && Bounds(s.selection, |s.text|).0 != Bounds(s.selection, |s.text|).1
  }

  /** What an insertion replaces: the selection, or nothing at the cursor. */
  function Target(s: EditorState): (nat, nat)
    requires OnText(s.text, s.cursor)
  {
    if HasSelection(s) then Bounds(s.selection, |s.text|) else (CursorOffset(s), CursorOffset(s))
  }

  function LastOf(snapshots: seq<Snapshot>): seq<Snapshot> {
    if |snapshots| > MAX_UNDO then snapshots[|snapshots| - MAX_UNDO..] else snapshots
  }

  function Pushed(s: EditorState, before: Snapshot): EditorState {
    s.(undo := LastOf(s.undo + [before]), redo := [])
  }

  lemma TargetInText(s: EditorState)
    requires OnText(s.text, s.cursor)
    ensures Target(s).0 <= Target(s).1 <= |s.text|
  {
    OffsetHasPosition(s.text, s.cursor);
  }

  function Replaced(s: EditorState, insert: string): EditorState
    requires OnText(s.text, s.cursor)
  {
    TargetInText(s);
    var (start, end) := Target(s);
    var value := s.text[..start] + insert + s.text[end..];
    var edited := Placed(s.(text := value), start + |insert|).(selection := NO_SELECTION);
    if value != s.text then Pushed(edited, Now(s)) else edited
  }

  function Undone(s: EditorState): EditorState
    requires OnText(s.text, s.cursor)
  {
    if s.undo == [] then s
    else Restore(s.(undo := s.undo[..|s.undo| - 1], redo := s.redo + [Now(s)]), s.undo[|s.undo| - 1])
  }

  function Redone(s: EditorState): EditorState
    requires OnText(s.text, s.cursor)
  {
    if s.redo == [] then s
    else Restore(s.(redo := s.redo[..|s.redo| - 1], undo := s.undo + [Now(s)]), s.redo[|s.redo| - 1])
  }

  /** The text area edits or moves by itself; an edit is remembered. */
  function Typed(s: EditorState, text: string, cursor: Position): EditorState
    requires OnText(s.text, s.cursor)
  {
    if text != s.text then Pushed(s.(text := text, cursor := cursor, selection := NO_SELECTION), Now(s))
    else s.(cursor := cursor)
  }

  datatype Action =
    | Replace(insert: string)
    | Undo
    | Redo
    | Type(text: string, cursor: Position)
    | Select(selection: Selection, cursor: Position)

  function Step(s: EditorState, a: Action): EditorState
    requires OnText(s.text, s.cursor)
  {
    match a
    case Replace(insert) => Replaced(s, insert)
    case Undo => Undone(s)
    case Redo => Redone(s)
    case Type(text, cursor) => if OnText(text, cursor) then Typed(s, text, cursor) else s
    case Select(selection, cursor) =>
      if OnText(s.text, cursor) then s.(selection := selection, cursor := cursor) else s
  }

  // ----- the cursor -----

  /** The offset read back after placing the cursor is the offset asked for, within the text. */
  lemma PlacedIsThere(s: EditorState, k: int)
    ensures OnText(Placed(s, k).text, Placed(s, k).cursor) && CursorOffset(Placed(s, k)) == Clamp(k, |s.text|)
  {
    PositionHasOffset(s.text, Clamp(k, |s.text|));
  }

  /** Placing the cursor where it already is changes nothing. */
  lemma PlacedWhereItIs(s: EditorState)
    requires OnText(s.text, s.cursor)
    ensures Placed(s, CursorOffset(s)) == s && InRange(Now(s))
  {
    OffsetHasPosition(s.text, s.cursor);
  }

  // ----- every action keeps the editor valid -----

  lemma PushedStaysBounded(s: EditorState, before: Snapshot)
    requires (forall i :: 0 <= i < |s.undo| ==> InRange(s.undo[i])) && |s.undo| <= MAX_UNDO && InRange(before)
    requires OnText(s.text, s.cursor)
    ensures Valid(Pushed(s, before))
  {
  }

  lemma ReplaceKeepsValid(s: EditorState, insert: string)
    requires Valid(s)
    ensures Valid(Replaced(s, insert))
  {
    TargetInText(s);
    PlacedWhereItIs(s);
    var (start, end) := Target(s);
    var edited := s.(text := s.text[..start] + insert + s.text[end..]);
    PlacedIsThere(edited, start + |insert|);
    PushedStaysBounded(Placed(edited, start + |insert|).(selection := NO_SELECTION), Now(s));
  }

  lemma UndoKeepsValid(s: EditorState)
    requires Valid(s)
    ensures Valid(Undone(s))
  {
    PlacedWhereItIs(s);
    if s.undo != [] { PlacedIsThere(s.(text := s.undo[|s.undo| - 1].value), s.undo[|s.undo| - 1].cursor); }
  }

  lemma RedoKeepsValid(s: EditorState)
    requires Valid(s)
    ensures Valid(Redone(s))
  {
    PlacedWhereItIs(s);
    if s.redo != [] { PlacedIsThere(s.(text := s.redo[|s.redo| - 1].value), s.redo[|s.redo| - 1].cursor); }
  }

  lemma TypeKeepsValid(s: EditorState, text: string, cursor: Position)
    requires Valid(s) && OnText(text, cursor)
    ensures Valid(Typed(s, text, cursor))
  {
    PlacedWhereItIs(s);
    PushedStaysBounded(s.(text := text, cursor := cursor, selection := NO_SELECTION), Now(s));
  }

  lemma StepKeepsValid(s: EditorState, a: Action)
    requires Valid(s)
    ensures Valid(Step(s, a))
  {
    match a
    case Replace(insert) => ReplaceKeepsValid(s, insert);
    case Undo => UndoKeepsValid(s);
    case Redo => RedoKeepsValid(s);
    case Type(text, cursor) => if OnText(text, cursor) { TypeKeepsValid(s, text, cursor); }
    case Select(_, _) =>
  }

  function Run(s: EditorState, actions: seq<Action>): EditorState
    requires OnText(s.text, s.cursor)
    decreases |actions|
  {
    if actions == [] then s
    else
      var next := Step(s, actions[0]);
      if OnText(next.text, next.cursor) then Run(next, actions[1..]) else next
  }

  /** Over any run the stacks together never hold more than 200 snapshots. */
  lemma {:induction false} RunStaysBounded(s: EditorState, actions: seq<Action>)
    requires Valid(s)
    ensures Valid(Run(s, actions)) && |Run(s, actions).undo| + |Run(s, actions).redo| <= MAX_UNDO
    decreases |actions|
  {
    if actions != [] {
      StepKeepsValid(s, actions[0]);
      RunStaysBounded(Step(s, actions[0]), actions[1..]);
    }
  }

  // ----- undo and redo -----

  lemma RestoredNow(s: EditorState, snapshot: Snapshot)
    requires InRange(snapshot)
    ensures OnText(Restore(s, snapshot).text, Restore(s, snapshot).cursor) && Now(Restore(s, snapshot)) == snapshot
  {
    PlacedIsThere(s.(text := snapshot.value), snapshot.cursor);
  }

  /** Redo after undo is back: text, cursor, and both stacks. */
  lemma RedoUndoesUndo(s: EditorState)
    requires Valid(s) && s.undo != []
    ensures OnText(Undone(s).text, Undone(s).cursor) && Redone(Undone(s)) == s.(selection := NO_SELECTION)
  {
    RestoredNow(s.(undo := s.undo[..|s.undo| - 1], redo := s.redo + [Now(s)]), s.undo[|s.undo| - 1]);
    PlacedWhereItIs(s);
  }

  /** Undo after redo is back as well. */
  lemma UndoUndoesRedo(s: EditorState)
    requires Valid(s) && s.redo != []
    ensures OnText(Redone(s).text, Redone(s).cursor) && Undone(Redone(s)) == s.(selection := NO_SELECTION)
  {
    RestoredNow(s.(redo := s.redo[..|s.redo| - 1], undo := s.undo + [Now(s)]), s.redo[|s.redo| - 1]);
    PlacedWhereItIs(s);
  }

  // ----- the two stacks are one linear history -----

  function Reversed(s: seq<Snapshot>): seq<Snapshot> {
    if s == [] then [] else [s[|s| - 1]] + Reversed(s[..|s| - 1])
  }

  /** Everything that can be reached by undo and redo, oldest first; the editor shows the entry
      at `|undo|`. */
  function Timeline(s: EditorState): seq<Snapshot>
    requires OnText(s.text, s.cursor)
  {
    s.undo + [Now(s)] + Reversed(s.redo)
  }

  lemma ReversedAppend(s: seq<Snapshot>, x: Snapshot)
    ensures Reversed(s + [x]) == [x] + Reversed(s)
  {
  }

  lemma {:induction false} ReversedLength(s: seq<Snapshot>)
    ensures |Reversed(s)| == |s|
  {
    if s != [] { ReversedLength(s[..|s| - 1]); }
  }

  lemma {:induction false} ReversedInjective(s: seq<Snapshot>, t: seq<Snapshot>)
    requires Reversed(s) == Reversed(t)
    ensures s == t
  {
    ReversedLength(s);
    ReversedLength(t);
    if s != [] {
      var a, b := s[..|s| - 1], t[..|t| - 1];
      assert Reversed(s)[1..] == Reversed(a) && Reversed(t)[1..] == Reversed(b);
      ReversedInjective(a, b);
      assert s == a + [s[|s| - 1]] && t == b + [t[|t| - 1]];
    }
  }

  lemma Regroup(front: seq<Snapshot>, x: Snapshot, y: Snapshot, back: seq<Snapshot>)
    ensures front + [x] + ([y] + back) == (front + [x]) + [y] + back
  {
  }

  /** Undo and redo move along the history without changing it. */
  lemma UndoMovesBack(s: EditorState)
    requires Valid(s) && s.undo != []
    ensures Valid(Undone(s)) && |Undone(s).undo| == |s.undo| - 1 && Timeline(Undone(s)) == Timeline(s)
  {
    var front, last := s.undo[..|s.undo| - 1], s.undo[|s.undo| - 1];
    UndoKeepsValid(s);
    RestoredNow(s.(undo := front, redo := s.redo + [Now(s)]), last);
    ReversedAppend(s.redo, Now(s));
    Regroup(front, last, Now(s), Reversed(s.redo));
    assert s.undo == front + [last];
  }

  lemma RedoMovesForward(s: EditorState)
    requires Valid(s) && s.redo != []
    ensures Valid(Redone(s)) && Timeline(Redone(s)) == Timeline(s)
    ensures |Redone(s).undo| == |s.undo| + 1 && |Redone(s).redo| == |s.redo| - 1
  {
    var front, last := s.redo[..|s.redo| - 1], s.redo[|s.redo| - 1];
    RedoKeepsValid(s);
    RestoredNow(s.(redo := front, undo := s.undo + [Now(s)]), last);
    Regroup(s.undo, Now(s), last, Reversed(front));
    assert Reversed(s.redo) == [last] + Reversed(front);
  }

  /** The history and the place in it determine the editor, selection aside. */
  lemma TimelineDetermines(s: EditorState, t: EditorState)
    requires Valid(s) && Valid(t) && Timeline(s) == Timeline(t) && |s.undo| == |t.undo|
    ensures s.(selection := NO_SELECTION) == t.(selection := NO_SELECTION)
  {
    var n := |s.undo|;
    assert s.undo == Timeline(s)[..n] && t.undo == Timeline(t)[..n];
    assert Now(s) == Timeline(s)[n] && Now(t) == Timeline(t)[n];
    assert Reversed(s.redo) == Timeline(s)[n + 1..] && Reversed(t.redo) == Timeline(t)[n + 1..];
    ReversedInjective(s.redo, t.redo);
    OffsetIsInjective(s.text, s.cursor, t.cursor);
  }

  function Times(s: EditorState, a: Action, n: nat): (r: EditorState)
    requires Valid(s)
    ensures Valid(r)
  {
    if n == 0 then s
    else
      var before := Times(s, a, n - 1);
      StepKeepsValid(before, a);
      Step(before, a)
  }

  lemma {:induction false} UndoMany(s: EditorState, n: nat)
    requires Valid(s) && n <= |s.undo|
    ensures |Times(s, Undo, n).undo| == |s.undo| - n && Timeline(Times(s, Undo, n)) == Timeline(s)
  {
    if n > 0 {
      UndoMany(s, n - 1);
      UndoMovesBack(Times(s, Undo, n - 1));
    }
  }

  lemma TimelineLength(s: EditorState)
    requires OnText(s.text, s.cursor)
    ensures |Timeline(s)| == |s.undo| + 1 + |s.redo|
  {
    ReversedLength(s.redo);
  }

  /** Further on by `n` steps along the same history. */
  ghost predicate Ahead(s: EditorState, t: EditorState, n: nat) {
    Valid(s) && Valid(t) && |t.undo| == |s.undo| + n && |t.redo| == |s.redo| - n && Timeline(t) == Timeline(s)
  }

  lemma AheadByOne(s: EditorState, t: EditorState, n: nat)
    requires Ahead(s, t, n) && t.redo != []
    ensures Ahead(s, Redone(t), n + 1)
  {
    RedoMovesForward(t);
  }

  lemma TimesRedo(s: EditorState, n: nat)
    requires Valid(s) && n > 0
    ensures Times(s, Redo, n) == Redone(Times(s, Redo, n - 1))
  {
  }

  lemma {:induction false} RedoMany(s: EditorState, n: nat)
    requires Valid(s) && n <= |s.redo|
    ensures Ahead(s, Times(s, Redo, n), n)
  {
    if n > 0 {
      RedoMany(s, n - 1);
      AheadByOne(s, Times(s, Redo, n - 1), n - 1);
      TimesRedo(s, n);
    }
  }

  /** Any number of undos is taken back by as many redos: text, cursor and both stacks. */
  lemma RedosTakeBackUndos(s: EditorState, n: nat)
    requires Valid(s) && n <= |s.undo|
    ensures Times(Times(s, Undo, n), Redo, n).(selection := NO_SELECTION) == s.(selection := NO_SELECTION)
  {
    var back := Times(s, Undo, n);
    UndoMany(s, n);
    TimelineLength(s);
    TimelineLength(back);
    RedoMany(back, n);
    TimelineDetermines(Times(back, Redo, n), s);
  }

  /** An edit discards what could be redone and appends the new entry; beyond 200 steps the
      oldest entry is forgotten. */
  lemma EditExtendsHistory(s: EditorState, text: string, cursor: Position)
    requires Valid(s) && text != s.text && OnText(text, cursor)
    ensures
      var t := Typed(s, text, cursor);
      Timeline(t) == LastOf(Timeline(s)[..|s.undo| + 1]) + [Snapshot(text, OffsetOf(text, cursor))]
  {
  }

  lemma PushedTop(e: EditorState, before: Snapshot)
    requires |e.undo| <= MAX_UNDO
    ensures Pushed(e, before).undo == (if |e.undo| < MAX_UNDO then e.undo else e.undo[1..]) + [before]
  {
  }

  lemma UndoneTop(t: EditorState, front: seq<Snapshot>, before: Snapshot)
    requires OnText(t.text, t.cursor) && InRange(before) && t.undo == front + [before]
    ensures
      Undone(t).text == before.value && OnText(before.value, Undone(t).cursor) &&
      OffsetOf(before.value, Undone(t).cursor) == before.cursor && Undone(t).redo == t.redo + [Now(t)] &&
      Undone(t).undo == front
  {
    assert t.undo[..|t.undo| - 1] == front;
    RestoredNow(t.(undo := front, redo := t.redo + [Now(t)]), before);
  }

  lemma PushedUndone(e: EditorState, before: Snapshot)
    requires OnText(e.text, e.cursor) && InRange(before) && |e.undo| <= MAX_UNDO
    ensures
      var t := Pushed(e, before);
      Undone(t).text == before.value && OnText(before.value, Undone(t).cursor) &&
      OffsetOf(before.value, Undone(t).cursor) == before.cursor && Undone(t).redo == [Now(t)] &&
      Undone(t).undo == if |e.undo| < MAX_UNDO then e.undo else e.undo[1..]
  {
    PushedTop(e, before);
    UndoneTop(Pushed(e, before), if |e.undo| < MAX_UNDO then e.undo else e.undo[1..], before);
  }

  /** What a replacement shows, before anything is remembered. */
  function Spliced(s: EditorState, insert: string): EditorState
    requires OnText(s.text, s.cursor)
  {
    TargetInText(s);
    var (start, end) := Target(s);
    Placed(s.(text := s.text[..start] + insert + s.text[end..]), start + |insert|).(selection := NO_SELECTION)
  }

  lemma SplicedIsThere(s: EditorState, insert: string)
    requires Valid(s)
    ensures
      var t := Spliced(s, insert);
      Target(s).0 <= Target(s).1 <= |s.text| && OnText(t.text, t.cursor) &&
      CursorOffset(t) == Target(s).0 + |insert|
  {
    TargetInText(s);
    var (start, end) := Target(s);
    PlacedIsThere(s.(text := s.text[..start] + insert + s.text[end..]), start + |insert|);
  }

  lemma ReplacedIsSpliced(s: EditorState, insert: string)
    requires OnText(s.text, s.cursor)
    ensures Replaced(s, insert) ==
      if Spliced(s, insert).text != s.text then Pushed(Spliced(s, insert), Now(s)) else Spliced(s, insert)
  {
  }

  /** Replacing the selection splices the text and leaves the cursor behind what was inserted;
      undoing it brings back the text, the cursor and, unless the history was full, the stack. */
  lemma ReplaceThenUndo(s: EditorState, insert: string)
    requires Valid(s)
    ensures
      var (start, end) := Target(s);
      var t := Replaced(s, insert);
      start <= end <= |s.text| && t.text == s.text[..start] + insert + s.text[end..] && !HasSelection(t) &&
      OnText(t.text, t.cursor) && CursorOffset(t) == start + |insert| &&
      (t.text != s.text ==>
         Undone(t).text == s.text && Undone(t).cursor == s.cursor && Undone(t).redo == [Now(t)] &&
         Undone(t).undo == if |s.undo| < MAX_UNDO then s.undo else s.undo[1..])
  {
    SplicedIsThere(s, insert);
    ReplacedIsSpliced(s, insert);
    PlacedWhereItIs(s);
    if Spliced(s, insert).text != s.text {
      PushedUndone(Spliced(s, insert), Now(s));
      OffsetIsInjective(s.text, Undone(Replaced(s, insert)).cursor, s.cursor);
    }
  }
}
