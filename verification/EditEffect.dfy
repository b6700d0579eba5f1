/** What keys and buttons do to drafts, cells and overlays of a table tab, in the user's terms. */
module EditEffect {
  import opened Relations
  import opened GridData
  import opened IdentityKeys
  import opened Staging
  import opened GridState
  import opened GridEffect

  /** The key of a character does what the button of the same action does. */
  lemma KeysAreButtons(valid: Validator, g: Grid, c: char, action: Action)
    requires Calm(g) && g.edits.relation.Some?
    requires (c == 'i' && action == InsertAction) || (c == 'e' && action == EditAction) ||
             (c == 'z' && action == NullAction) || (c == 'f' && action == DefaultAction) ||
             (c == 'd' && action == DeleteAction) || (c == 'a' && action == ApplyAction) ||
             (c == 'u' && action == RevertAction) || (c == 'U' && action == RevertAllAction) ||
             (c == 'v' && action == ChangesAction)
    ensures Step(valid, g, KeyPress(Character(c))) == Step(valid, g, Click(OnAction(action)))
  {
    CalmKey(valid, g, Character(c));
    CharactersAct(g, c);
    ButtonsPress(valid, g, action);
  }

  lemma CharactersAct(g: Grid, c: char)
    requires ActionOf(c).Some?
    ensures GridKey(g, Character(c)) == (ActionClick(g, ActionOf(c).value), NoCommand)
  {
  }

  // ----- buttons -----

  function Press(g: Grid, action: Action): Grid { ActionClick(g, action) }

  lemma ButtonsPress(valid: Validator, g: Grid, action: Action)
    requires g.edits.relation.Some? && g.edits.editor.None? && g.overlay == NoOverlay
    ensures Step(valid, g, Click(OnAction(action))) == (Press(g, action), NoCommand)
  {
  }

  /** Insert adds a draft and selects it, if rows may be inserted. */
  lemma InsertSelectsDraft(g: Grid)
    requires g.edits.relation.Some?
    ensures
      var h := Press(g, InsertAction);
      if !g.edits.relation.value.canInsert then h == g
      else h == g.(edits := g.edits.(staged := h.edits.staged),
        view := g.view.(row := |g.edits.staged.inserts|, rowOffset := 0)) &&
           h.edits.staged == StageInsert(g.edits.staged)
  {
  }

  /** The cell may be edited: the column is writable for a draft, or for a row without tombstone. */
  predicate MayEdit(g: Grid, row: int, column: nat) {
    g.edits.relation.Some? && column < |g.edits.relation.value.columns| && 0 <= row < Total(g) &&
    var relation := g.edits.relation.value;
    var c := relation.columns[column];
    !c.generated && !c.identity &&
    if row < |g.edits.staged.inserts| then relation.canInsert && c.canInsert
    else
      relation.canUpdate && c.canUpdate &&
      IdentityKeys.Key(relation.identity,
        g.edits.page.rows[row - |g.edits.staged.inserts|].identity) !in g.edits.staged.deletes
  }

  lemma MayEditIsEditable(g: Grid, row: int, column: nat)
    ensures MayEdit(g, row, column) <==>
      RefAt(g.edits, row).Some? && EditableAt(g.edits, RefAt(g.edits, row).value, column)
  {
  }

  /** Edit opens an editor on the selected cell with what it shows, if it may be edited. */
  lemma EditOpensEditor(g: Grid)
    ensures
      var h := Press(g, EditAction);
      var row, column := g.view.row, g.view.column;
      if !MayEdit(g, row, column) then h == g
      else
        RefAt(g.edits, row).Some? &&
        (RefAt(g.edits, row).value.insert ==> RefAt(g.edits, row).value.insertIdx < |g.edits.staged.inserts|) &&
        var cell := CellAt(g.edits.relation.value, g.edits.staged, RefAt(g.edits, row).value, column);
        var text := if cell.isNull || cell.display == "DEFAULT" then "" else cell.edit;
        h == g.(edits := g.edits.(editor := Some(CellEditor(row, column, text, |text|))))
  {
    MayEditIsEditable(g, g.view.row, g.view.column);
  }

  /** Null and Default stage that for the selected cell, if it may be edited and admits it. */
  lemma SpecialsStage(g: Grid)
    requires g.edits.relation.Some?
    ensures
      var row, column := g.view.row, g.view.column;
      MayEdit(g, row, column) ==>
        var c := g.edits.relation.value.columns[column];
        var ref := RefAt(g.edits, row).value;
        RefAt(g.edits, row).Some? && (ref.insert ==> ref.insertIdx < |g.edits.staged.inserts|) &&
        Press(g, NullAction).edits.staged ==
          (if c.nullable then StageValue(g.edits.relation.value, g.edits.staged, ref, c.name, NullValue)
                                              else g.edits.staged) &&
        Press(g, DefaultAction).edits.staged == (if c.hasDefault || c.nullable
                                                 then StageValue(g.edits.relation.value, g.edits.staged, ref, c.name,
                                                   DefaultValue)
                                                 else g.edits.staged)
    ensures
      !MayEdit(g, g.view.row, g.view.column) ==> Press(g, NullAction) == g && Press(g, DefaultAction) == g
  {
    MayEditIsEditable(g, g.view.row, g.view.column);
  }

  /** Delete drops the selected draft, or toggles the tombstone of the selected row if rows may
      be deleted. */
  lemma DeleteDropsOrMarks(g: Grid)
    requires g.edits.relation.Some? && 0 <= g.view.row
    ensures
      var h, n := Press(g, DeleteAction), |g.edits.staged.inserts|;
      if g.view.row >= Total(g) then h == g
      else if g.view.row < n then h.edits == g.edits.(staged := RemoveDraft(g.edits.staged, g.view.row))
      else if !g.edits.relation.value.canDelete then h == g
      else h == g.(edits := g.edits.(staged := ToggleDelete(g.edits.staged, RefAt(g.edits, g.view.row).value)))
  {
  }

  /** Revert drops the selected draft, or everything staged for the selected row. */
  lemma RevertTakesBack(g: Grid)
    requires g.edits.relation.Some? && 0 <= g.view.row
    ensures
      var h, n := Press(g, RevertAction), |g.edits.staged.inserts|;
      if g.view.row >= Total(g) then h == g
      else if g.view.row < n then h.edits == g.edits.(staged := RemoveDraft(g.edits.staged, g.view.row))
      else h == g.(edits := g.edits.(staged := RevertRow(g.edits.staged, RefAt(g.edits, g.view.row).value)))
  {
  }

  /** Apply, Revert all and Changes ask, if there is anything staged. */
  lemma QuestionsAreAsked(g: Grid)
    ensures Press(g, RevertAllAction) == if Dirty(g.edits.staged) then g.(overlay := RevertAllOverlay) else g
    ensures Press(g, ChangesAction) == if Dirty(g.edits.staged) then g.(overlay := ChangesOverlay) else g
    ensures Dirty(g.edits.staged) && Complete(g) ==>
      Press(g, ApplyAction) == g.(overlay := ApplyOverlay, apply := g.apply.(reloadFirst := false))
    ensures !Dirty(g.edits.staged) ==> Press(g, ApplyAction) == g
    ensures Dirty(g.edits.staged) && !Complete(g) ==> Press(g, ApplyAction) == g.(view := Press(g, ApplyAction).view)
  {
    CompleteIsValid(g);
  }

  /** The draft gives no value for a column that needs one. */
  predicate Lacks(g: Grid, i: int, k: int)
    requires g.edits.relation.Some?
  {
    0 <= i < |g.edits.staged.inserts| && 0 <= k < |g.edits.relation.value.columns| &&
    var c := g.edits.relation.value.columns[k];
    var values := g.edits.staged.inserts[i].values;
    !c.nullable && !c.hasDefault && !c.generated && !c.identity && !(c.name in values && values[c.name].Text?)
  }

  /** Every draft gives every required value. */
  ghost predicate Complete(g: Grid) { g.edits.relation.Some? && forall i, k :: !Lacks(g, i, k) }

  lemma {:induction false} FirstMissingColumn(columns: seq<Column>, values: map<string, StagedValue>, k: nat)
    requires k <= |columns|
    ensures
      var missing := MissingColumn(columns, values, k);
      if missing.None? then forall j :: k <= j < |columns| ==> Given(columns[j], values)
      else k <= missing.value < |columns| && !Given(columns[missing.value], values) &&
           forall j :: k <= j < missing.value ==> Given(columns[j], values)
    decreases |columns| - k
  {
    if k < |columns| { FirstMissingColumn(columns, values, k + 1); }
  }

  predicate Given(c: Column, values: map<string, StagedValue>) {
    c.nullable || c.hasDefault || c.generated || c.identity || (c.name in values && values[c.name].Text?)
  }

  ghost predicate AllGiven(columns: seq<Column>, values: map<string, StagedValue>) {
    forall j :: 0 <= j < |columns| ==> Given(columns[j], values)
  }

  lemma {:induction false} FirstMissingValue(columns: seq<Column>, inserts: seq<Mutation>, i: nat)
    requires i <= |inserts|
    ensures
      var missing := MissingValue(columns, inserts, i);
      if missing.None? then forall j :: i <= j < |inserts| ==> AllGiven(columns, inserts[j].values)
      else
        var (row, k) := missing.value;
        i <= row < |inserts| && k < |columns| && !Given(columns[k], inserts[row].values) &&
        (forall j :: 0 <= j < k ==> Given(columns[j], inserts[row].values)) &&
        forall j :: i <= j < row ==> AllGiven(columns, inserts[j].values)
    decreases |inserts| - i
  {
    if i < |inserts| {
      FirstMissingColumn(columns, inserts[i].values, 0);
      if MissingColumn(columns, inserts[i].values, 0).None? { FirstMissingValue(columns, inserts, i + 1); }
    }
  }

  lemma CompleteIsValid(g: Grid)
    ensures Complete(g) <==> ChangesValid(g.edits)
  {
    if g.edits.relation.Some? {
      var columns, inserts := g.edits.relation.value.columns, g.edits.staged.inserts;
      FirstMissingValue(columns, inserts, 0);
      if ChangesValid(g.edits) {
        forall i, k ensures !Lacks(g, i, k) {
          if 0 <= i < |inserts| && 0 <= k < |columns| {
            assert AllGiven(columns, inserts[i].values);
            assert Given(columns[k], inserts[i].values);
          }
        }
      } else {
        var (i, k) := MissingValue(columns, inserts, 0).value;
        assert Lacks(g, i, k);
      }
    }
  }

  /** When something required is missing, Apply selects the first such cell instead of asking. */
  lemma ApplySelectsMissing(g: Grid)
    requires g.edits.relation.Some? && Dirty(g.edits.staged) && !Complete(g)
    ensures
      var h := Press(g, ApplyAction);
      Lacks(g, h.view.row, h.view.column) && (forall i, k :: 0 <= i < h.view.row ==> !Lacks(g, i, k)) &&
      forall k :: 0 <= k < h.view.column ==> !Lacks(g, h.view.row, k)
  {
    CompleteIsValid(g);
    var columns, inserts := g.edits.relation.value.columns, g.edits.staged.inserts;
    FirstMissingValue(columns, inserts, 0);
    var (row, column) := MissingValue(columns, inserts, 0).value;
    forall i, k | 0 <= i < row ensures !Lacks(g, i, k) {
      assert AllGiven(columns, inserts[i].values);
      if 0 <= k < |columns| { assert Given(columns[k], inserts[i].values); }
    }
    forall k | 0 <= k < column ensures !Lacks(g, row, k) {
      assert Given(columns[k], inserts[row].values);
    }
  }

  // ----- editing a cell -----

  predicate Editing(
    g: Grid) { !Busy(g) && g.edits.editor.Some? && 0 <= g.edits.editor.value.cursor <= |g.edits.editor.value.buffer| }

  /** Only the text being edited, and the cursor in it, differ. */
  predicate BufferBecomes(g: Grid, h: Grid, buffer: string, cursor: int)
    requires g.edits.editor.Some?
  {
    h == g.(edits := g.edits.(editor := Some(g.edits.editor.value.(buffer := buffer, cursor := cursor))))
  }

  lemma TypingInserts(valid: Validator, g: Grid, c: char)
    requires Editing(g)
    ensures
      var b, k := g.edits.editor.value.buffer, g.edits.editor.value.cursor;
      BufferBecomes(g, Step(valid, g, KeyPress(Character(c))).0, b[..k] + [c] + b[k..], k + 1)
  {
  }

  lemma PastingInserts(valid: Validator, g: Grid, content: string)
    requires Editing(g)
    ensures
      var b, k := g.edits.editor.value.buffer, g.edits.editor.value.cursor;
      BufferBecomes(g, Step(valid, g, Paste(content)).0, b[..k] + content + b[k..], k + |content|)
  {
  }

  lemma ErasingRemoves(valid: Validator, g: Grid)
    requires Editing(g)
    ensures
      var b, k := g.edits.editor.value.buffer, g.edits.editor.value.cursor;
      if k == 0 then Step(valid, g, KeyPress(Backspace)).0 == g
      else BufferBecomes(g, Step(valid, g, KeyPress(Backspace)).0, b[..k - 1] + b[k..], k - 1)
    ensures
      var b, k := g.edits.editor.value.buffer, g.edits.editor.value.cursor;
      if k == |b| then Step(valid, g, KeyPress(GridState.Delete)).0 == g
      else BufferBecomes(g, Step(valid, g, KeyPress(GridState.Delete)).0, b[..k] + b[k + 1..], k)
  {
  }

  lemma CursorMoves(valid: Validator, g: Grid)
    requires Editing(g)
    ensures
      var b, k := g.edits.editor.value.buffer, g.edits.editor.value.cursor;
      BufferBecomes(g, Step(valid, g, KeyPress(Left)).0, b, if k > 0 then k - 1 else 0) &&
      BufferBecomes(g, Step(valid, g, KeyPress(Right)).0, b, if k < |b| then k + 1 else |b|)
  {
  }

  lemma CursorJumps(valid: Validator, g: Grid, key: Key)
    requires Editing(g) && (key == Home || key == CtrlA || key == End || key == CtrlE)
    ensures
      var b := g.edits.editor.value.buffer;
      BufferBecomes(g, Step(valid, g, KeyPress(key)).0, b, if key == Home || key == CtrlA then 0 else |b|)
  {
  }

  /** Escape closes the editor and stages nothing. Enter stages the text for the cell the editor
      is on and closes it, if the text is valid, and does nothing otherwise. */
  lemma EditorCloses(valid: Validator, g: Grid)
    requires !Busy(g) && g.edits.editor.Some? && RefAt(g.edits, g.edits.editor.value.row).Some?
    requires g.edits.relation.Some? && g.edits.editor.value.column < |g.edits.relation.value.columns|
    ensures Step(valid, g, KeyPress(Esc)).0 == g.(edits := g.edits.(editor := None))
    ensures
      var editor := g.edits.editor.value;
      var ref := RefAt(g.edits, editor.row).value;
      var c := g.edits.relation.value.columns[editor.column];
      (ref.insert ==> ref.insertIdx < |g.edits.staged.inserts|) &&
      Step(valid, g, KeyPress(Enter)).0 ==
        if !valid(c, editor.buffer) then g
        else g.(edits := g.edits.(editor := None, staged :=
          StageValue(g.edits.relation.value, g.edits.staged, ref, c.name, Text(editor.buffer))))
  {
  }

  /** An editor whose cell is gone is closed by Enter, and nothing is staged. */
  lemma EditorWithoutCell(valid: Validator, g: Grid)
    requires !Busy(g) && g.edits.editor.Some?
    requires RefAt(g.edits, g.edits.editor.value.row).None? ||
      (g.edits.relation.Some? && g.edits.editor.value.column >= |g.edits.relation.value.columns|)
    ensures Step(valid, g, KeyPress(Enter)) == (g.(edits := g.edits.(editor := None)), NoCommand)
  {
  }

  /** Clicks do nothing while a cell is edited, and pasting does nothing while none is. */
  lemma EditingTakesInput(valid: Validator, g: Grid, target: ClickTarget, content: string)
    ensures g.edits.editor.Some? ==> Step(valid, g, Click(target)) == (g, NoCommand)
    ensures g.edits.editor.None? ==> Step(valid, g, Paste(content)) == (g, NoCommand)
  {
  }

  // ----- overlays -----

  ghost predicate Sends(g: Grid, h: Grid, command: Command) {
    g.edits.relation.Some? && Busy(h) && ActiveMeta(h.io).kind == Applying && h.overlay == NoOverlay &&
    h.edits == g.edits && h.view == g.view && h.apply.snapshot == Snapshot(g.edits.staged) &&
    command == ApplyCommand(g.edits.relation.value, Snapshot(g.edits.staged), ActiveMeta(h.io))
  }

  predicate Answers(g: Grid, overlay: Overlay) { !Busy(g) && g.edits.editor.None? && g.overlay == overlay }

  /** Confirming the apply question sends what is staged; Escape takes the question back. */
  lemma ApplyQuestion(valid: Validator, g: Grid, key: Key)
    requires Answers(g, ApplyOverlay) && g.edits.relation.Some? && Dirty(g.edits.staged)
    ensures key == Enter || key == Character('a') ==>
      Sends(g, Step(valid, g, KeyPress(key)).0, Step(valid, g, KeyPress(key)).1)
    ensures key == Esc ==> Step(valid, g, KeyPress(key)) == (g.(overlay := NoOverlay), NoCommand)
    ensures key != Enter && key != Character('a') && key != Esc ==> Step(valid, g, KeyPress(key)) == (g, NoCommand)
  {
  }

  /** Confirming Revert all drops everything staged; Escape takes the question back. */
  lemma RevertAllQuestion(valid: Validator, g: Grid, key: Key)
    requires Answers(g, RevertAllOverlay)
    ensures key == Enter || key == Character('r') ==>
      var (h, command) := Step(valid, g, KeyPress(key));
      h.edits == g.edits.(staged := h.edits.staged) && Emptied(g.edits.staged, h.edits.staged) &&
      h.overlay == NoOverlay && h.io == g.io &&
      command == NoCommand
    ensures key == Esc ==> Step(valid, g, KeyPress(key)) == (g.(overlay := NoOverlay), NoCommand)
    ensures key != Enter && key != Character('r') && key != Esc ==> Step(valid, g, KeyPress(key)) == (g, NoCommand)
  {
  }

  /** The refresh question: apply first, drop everything and load page one, or neither. */
  lemma RefreshQuestion(valid: Validator, g: Grid, key: Key)
    requires Answers(g, RefreshOverlay) && g.edits.relation.Some? && Dirty(g.edits.staged)
    ensures key == Character('a') && Complete(g) ==>
      Sends(g, Step(valid, g, KeyPress(key)).0, Step(valid, g, KeyPress(key)).1)
    ensures key == Character('a') && !Complete(g) ==>
      var (h, command) := Step(valid, g, KeyPress(key));
      h.edits == g.edits && h.io == g.io && h.overlay == NoOverlay && command == NoCommand
    ensures key == Character('r') ==>
      var (h, command) := Step(valid, g, KeyPress(key));
      h.edits == g.edits.(staged := h.edits.staged) && Emptied(g.edits.staged, h.edits.staged) &&
      h.overlay == NoOverlay && AsksFirst(g, h, command)
    ensures key == Esc ==> Step(valid, g, KeyPress(key)) == (g.(overlay := NoOverlay), NoCommand)
  {
    CompleteIsValid(g);
  }

  /** The buttons of a question do what its keys do. */
  lemma ApplyButtons(valid: Validator, g: Grid)
    requires Answers(g, ApplyOverlay) && g.edits.relation.Some?
    ensures Step(valid, g, Click(OnConfirm)) == Step(valid, g, KeyPress(Enter))
    ensures Step(valid, g, Click(OnDismiss)) == Step(valid, g, KeyPress(Esc))
  {
    AnswerKey(valid, g, Enter);
    AnswerKey(valid, g, Esc);
    AnswerClick(valid, g, OnConfirm);
    AnswerClick(valid, g, OnDismiss);
  }

  lemma AnswerKey(valid: Validator, g: Grid, key: Key)
    requires Answers(g, g.overlay) && g.overlay != NoOverlay
    ensures Step(valid, g, KeyPress(key)) == OverlayKey(g, key)
  {
  }

  lemma AnswerClick(valid: Validator, g: Grid, target: ClickTarget)
    requires Answers(g, g.overlay) && g.overlay != NoOverlay && g.edits.relation.Some?
    ensures Step(valid, g, Click(target)) == OverlayClick(g, target)
  {
  }

  lemma RevertAllButtons(valid: Validator, g: Grid)
    requires Answers(g, RevertAllOverlay) && g.edits.relation.Some?
    ensures Step(valid, g, Click(OnConfirm)) == Step(valid, g, KeyPress(Enter))
    ensures Step(valid, g, Click(OnDismiss)) == Step(valid, g, KeyPress(Esc))
  {
    AnswerKey(valid, g, Enter);
    AnswerKey(valid, g, Esc);
    AnswerClick(valid, g, OnConfirm);
    AnswerClick(valid, g, OnDismiss);
  }

  lemma RefreshConfirmButton(valid: Validator, g: Grid)
    requires Answers(g, RefreshOverlay) && g.edits.relation.Some?
    ensures Step(valid, g, Click(OnConfirm)) == Step(valid, g, KeyPress(Character('a')))
  {
    AnswerKey(valid, g, Character('a'));
    AnswerClick(valid, g, OnConfirm);
  }

  lemma RefreshOtherButtons(valid: Validator, g: Grid)
    requires Answers(g, RefreshOverlay) && g.edits.relation.Some?
    ensures Step(valid, g, Click(OnAlternative)) == Step(valid, g, KeyPress(Character('r')))
    ensures Step(valid, g, Click(OnDismiss)) == Step(valid, g, KeyPress(Esc))
  {
    AnswerKey(valid, g, Character('r'));
    AnswerKey(valid, g, Esc);
    AnswerClick(valid, g, OnAlternative);
    AnswerClick(valid, g, OnDismiss);
  }

  /** The list of changes is closed again, or leads to the apply question. */
  lemma ChangesListCloses(valid: Validator, g: Grid, key: Key)
    requires Answers(g, ChangesOverlay)
    ensures key == Esc || key == Character('v') ==>
      Step(valid, g, KeyPress(key)) == (g.(overlay := NoOverlay), NoCommand)
    ensures key == Character('a') && Dirty(g.edits.staged) && Complete(g) ==>
      var (h, command) := Step(valid, g, KeyPress(key));
      h.overlay == ApplyOverlay && h.edits == g.edits && command == NoCommand
  {
    CompleteIsValid(g);
    AnswerKey(valid, g, key);
  }

  /** So is the error, which is then no longer shown as a failure. */
  lemma ErrorCloses(valid: Validator, g: Grid, key: Key)
    requires Answers(g, ErrorOverlay) && (key == Esc || key == Enter || key == Character('e'))
    ensures Step(valid, g, KeyPress(key)) ==
      (g.(overlay := NoOverlay, io := g.io.(failed := false, failedKind := None, lifecycle := Idle)), NoCommand)
  {
    AnswerKey(valid, g, key);
  }

  lemma ErrorLeadsToApply(valid: Validator, g: Grid)
    requires Answers(g, ErrorOverlay) && Dirty(g.edits.staged) && Complete(g)
    ensures
      var (h, command) := Step(valid, g, KeyPress(Character('a')));
      h.overlay == ApplyOverlay && h.edits == g.edits && command == NoCommand
  {
    CompleteIsValid(g);
    AnswerKey(valid, g, Character('a'));
  }
}
