/** The editor as the object it is, refining the history functions. */
module SqlEditor {
  import opened Relations
  import opened TextPositions
  import opened EditorHistory

  class Editor {
    var text: string
    var line: nat
    var column: nat
    var selection: Selection
    var undo: seq<Snapshot>
    var redo: seq<Snapshot>

    function State(): EditorState
      reads this
    {
      EditorState(text, Position(line, column), selection, undo, redo)
    }

    constructor ()
      ensures EditorHistory.Valid(State()) && State() == EditorState("", Position(0, 0), NO_SELECTION, [], [])
    {
      text, line, column, selection, undo, redo := "", 0, 0, NO_SELECTION, [], [];
    }

    /** Counts the lines before the cursor's, each with its line break. */
    method CursorOffset() returns (offset: nat)
      requires OnText(text, Position(line, column))
      ensures offset == EditorHistory.CursorOffset(State())
    {
      var lines := Split(text);
      var row := Min(line, |lines| - 1);
      offset := 0;
      for index := 0 to row
        invariant offset == LineStart(lines, index)
      {
        offset := offset + |lines[index]| + 1;
      }
      offset := offset + Min(column, |lines[row]|);
    }

    /** Steps over the characters before the offset. */
    method SetCursorOffset(offset: int)
      modifies this`line, this`column
      ensures State() == Placed(old(State()), offset)
    {
      var limit := Min(|text|, Max(0, offset));
      var row, col := 0, 0;
      for index := 0 to limit
        invariant Position(row, col) == PositionAt(text, index)
      {
        if text[index] == '\n' {
          row, col := row + 1, 0;
        } else {
          col := col + 1;
        }
      }
      line, column := row, col;
    }

    method PushUndo(snapshot: Snapshot)
      modifies this`undo, this`redo
      ensures State() == Pushed(old(State()), snapshot)
    {
      undo := undo + [snapshot];
      if |undo| > MAX_UNDO {
        undo := undo[|undo| - MAX_UNDO..];
      }
      redo := [];
    }

    method RestoreEditor(snapshot: Snapshot)
      modifies this`text, this`line, this`column, this`selection
      ensures State() == Restore(old(State()), snapshot)
    {
      text := snapshot.value;
      SetCursorOffset(snapshot.cursor);
      selection := NO_SELECTION;
    }

    method ReplaceSelection(insert: string)
      requires OnText(text, Position(line, column))
      modifies this
      ensures State() == Replaced(old(State()), insert)
    {
      TargetInText(State());
      var offset := CursorOffset();
      var before := Snapshot(text, offset);
      var (start, end) := Bounds(selection, |text|);
      if !(selection.active && start != end) {
        start, end := offset, offset;
      }
      var value := text[..start] + insert + text[end..];
      text := value;
      SetCursorOffset(start + |insert|);
      selection := NO_SELECTION;
      if value != before.value {
        PushUndo(before);
      }
    }

    method UndoEdit()
      requires OnText(text, Position(line, column))
      modifies this
      ensures State() == Undone(old(State()))
    {
      if |undo| == 0 {
        return;
      }
      var offset := CursorOffset();
      var current, snapshot := Snapshot(text, offset), undo[|undo| - 1];
      undo := undo[..|undo| - 1];
      redo := redo + [current];
      RestoreEditor(snapshot);
    }

    method RedoEdit()
      requires OnText(text, Position(line, column))
      modifies this
      ensures State() == Redone(old(State()))
    {
      if |redo| == 0 {
        return;
      }
      var offset := CursorOffset();
      var current, snapshot := Snapshot(text, offset), redo[|redo| - 1];
      redo := redo[..|redo| - 1];
      undo := undo + [current];
      RestoreEditor(snapshot);
    }

    /** An edit or movement of the text area. */
    method UpdateTextArea(changed: string, cursor: Position)
      requires OnText(text, Position(line, column)) && OnText(changed, cursor)
      modifies this
      ensures State() == Typed(old(State()), changed, cursor)
    {
      var offset := CursorOffset();
      var before := Snapshot(text, offset);
      text, line, column := changed, cursor.line, cursor.column;
      if text != before.value {
        PushUndo(before);
        selection := NO_SELECTION;
      }
    }
  }

  /** Line and column, both counted from one, of a character position counted from one. */
  method SubmittedPosition(snapshot: string, position: int) returns (line: nat, column: nat)
    ensures 1 <= line && 1 <= column && OnText(snapshot, Position(line - 1, column - 1))
    ensures OffsetOf(snapshot, Position(line - 1, column - 1)) == Clamp(position - 1, |snapshot|)
  {
    var target := Max(0, position - 1);
    line, column := 1, 1;
    var index := 0;
    while index < |snapshot| && index < target
      invariant index <= Clamp(position - 1, |snapshot|) && line >= 1 && column >= 1
      invariant Position(line - 1, column - 1) == PositionAt(snapshot, index)
    {
      if snapshot[index] == '\n' {
        line, column := line + 1, 1;
      } else {
        column := column + 1;
      }
      index := index + 1;
    }
    PositionHasOffset(snapshot, index);
  }
}
