/** Which clicks disturb an apply in flight: clicks, unlike keys, are not held back by it. */
module GridClicks {
  import opened Relations
  import opened GridData
  import opened Staging
  import opened GridState
  import opened GridInvariant

  predicate ApplyRuns(io: Requests) { io.active.Some? && io.active.value.kind == Applying }

  /** The values after staging one more, which drops or replaces what there was. */
  function Put(values: map<string, StagedValue>, drops: bool, column: string, value: StagedValue):
    map<string, StagedValue>
  {
    if drops then values - {column} else values[column := value]
  }

  predicate PutMatters(values: map<string, StagedValue>, drops: bool, column: string, value: StagedValue) {
    if drops then column in values else column !in values || values[column] != value
  }

  /** Staging a value does something: one that the row shows already is dropped if it was
      staged, the default of a draft is the absence of a value, any other replaces what is there. */
  predicate StagingChanges(relation: Relation, s: Staged, ref: RowRef, column: string, value: StagedValue)
    requires ref.insert ==> ref.insertIdx < |s.inserts|
  {
    var values := if ref.insert then s.inserts[ref.insertIdx].values else UpdateFor(s, ref).values;
    var drops :=
      if ref.insert then value == DefaultValue
      else StagedMatchesOriginal(value, ref.row, ColumnIndex(relation.columns, column));
    PutMatters(values, drops, column, value)
  }

  /** Null and Default act on a cell that may be edited, if its column admits them. */
  predicate SpecialStages(e: Edits, row: int, column: nat, value: StagedValue) {
    var ref := RefAt(e, row);
    ref.Some? && EditableAt(e, ref.value, column) && (ref.value.insert ==> ref.value.insertIdx < |e.staged.inserts|) &&
    var c := e.relation.value.columns[column];
    (value == NullValue ==> c.nullable) && (value == DefaultValue ==> c.hasDefault || c.nullable) &&
    StagingChanges(e.relation.value, e.staged, ref.value, c.name, value)
  }

  /** The button changes what is staged. */
  predicate ActionStages(e: Edits, row: int, column: nat, action: Action)
    requires e.relation.Some?
  {
    var ref := RefAt(e, row);
    match action
    case InsertAction => e.relation.value.canInsert
    case NullAction => SpecialStages(e, row, column, NullValue)
    case DefaultAction => SpecialStages(e, row, column, DefaultValue)
    case DeleteAction => ref.Some? && (ref.value.insert || e.relation.value.canDelete)
    case RevertAction =>
      ref.Some? && (ref.value.insert || ref.value.key in e.staged.updates || ref.value.key in e.staged.deletes)
    case _ => false
  }

  /** The click starts a request. */
  predicate ClickStarts(g: Grid, target: ClickTarget) {
    g.edits.relation.Some? && g.edits.editor.None? &&
    match g.overlay
    case ApplyOverlay => target == OnConfirm && Dirty(g.edits.staged)
    case RefreshOverlay =>
      target == OnAlternative || (target == OnConfirm && ChangesValid(g.edits) && Dirty(g.edits.staged))
    case _ => false
  }

  /** The click changes what is staged. */
  predicate ClickStages(g: Grid, target: ClickTarget) {
    g.edits.relation.Some? && g.edits.editor.None? &&
    match g.overlay
    case NoOverlay => target.OnAction? && ActionStages(g.edits, g.view.row, g.view.column, target.action)
    case RefreshOverlay => target == OnAlternative && Dirty(g.edits.staged)
    case RevertAllOverlay => target == OnConfirm && Dirty(g.edits.staged)
    case _ => false
  }

  predicate ClickDisturbs(g: Grid, target: ClickTarget) { ClickStarts(g, target) || ClickStages(g, target) }

  // ----- what changes the staged changes -----

  lemma PutChanges(values: map<string, StagedValue>, drops: bool, column: string, value: StagedValue)
    ensures Put(values, drops, column, value) != values <==> PutMatters(values, drops, column, value)
  {
    var after := Put(values, drops, column, value);
    if PutMatters(values, drops, column, value) {
      assert drops ==> column !in after;
    } else {
      assert after == values;
    }
  }

  /** The updates after one of them got these values; none is left without any. */
  function Updated(updates: map<string, Mutation>, key: string, m: Mutation, values: map<string, StagedValue>):
    map<string, Mutation>
  {
    if values == map[] then updates - {key} else updates[key := m.(values := values)]
  }

  lemma UpdatedChanges(
    updates: map<string, Mutation>, key: string, m: Mutation, values: map<string, StagedValue>)
    requires if key in updates then updates[key] == m && m.values != map[] else m.values == map[]
    ensures Updated(updates, key, m, values) != updates <==> values != m.values
  {
    var after := Updated(updates, key, m, values);
    if values == m.values {
      assert after == updates;
    } else if key in after {
      assert after[key].values == values;
    }
  }

  lemma RowValueChanges(relation: Relation, s: Staged, ref: RowRef, column: string, value: StagedValue)
    requires !ref.insert && (ref.key in s.updates ==> s.updates[ref.key].values != map[])
    ensures StageValue(relation, s, ref, column, value) != s <==> StagingChanges(relation, s, ref, column, value)
  {
    var m := UpdateFor(s, ref);
    var drops := StagedMatchesOriginal(value, ref.row, ColumnIndex(relation.columns, column));
    PutChanges(m.values, drops, column, value);
    UpdatedChanges(s.updates, ref.key, m, Put(m.values, drops, column, value));
    assert StageValue(relation, s, ref, column, value).updates ==
      Updated(s.updates, ref.key, m, Put(m.values, drops, column, value));
  }

  lemma DraftValueChanges(relation: Relation, s: Staged, ref: RowRef, column: string, value: StagedValue)
    requires ref.insert && ref.insertIdx < |s.inserts|
    ensures StageValue(relation, s, ref, column, value) != s <==> StagingChanges(relation, s, ref, column, value)
  {
    var draft := s.inserts[ref.insertIdx];
    PutChanges(draft.values, value == DefaultValue, column, value);
    var t := StageValue(relation, s, ref, column, value);
    assert t.inserts[ref.insertIdx].values == Put(draft.values, value == DefaultValue, column, value);
    if t.inserts[ref.insertIdx].values == draft.values { assert t.inserts == s.inserts; }
  }

  lemma StageValueChanges(relation: Relation, s: Staged, ref: RowRef, column: string, value: StagedValue)
    requires Consistent(relation, s) && (ref.insert ==> ref.insertIdx < |s.inserts|)
    ensures StageValue(relation, s, ref, column, value) != s <==> StagingChanges(relation, s, ref, column, value)
  {
    if ref.insert {
      DraftValueChanges(relation, s, ref, column, value);
    } else {
      if ref.key in s.updates { assert UpdateEntry(relation, ref.key, s.updates[ref.key]); }
      RowValueChanges(relation, s, ref, column, value);
    }
  }

  lemma SpecialChanges(e: Edits, row: int, column: nat, value: StagedValue)
    requires EditsSound(e) && !value.Text?
    ensures StageSpecial(e, row, column, value).staged != e.staged <==> SpecialStages(e, row, column, value)
  {
    var ref := RefAt(e, row);
    if ref.Some? && EditableAt(e, ref.value, column) {
      StageValueChanges(e.relation.value, e.staged, ref.value, e.relation.value.columns[column].name, value);
    }
  }

  lemma DeleteChanges(g: Grid)
    requires g.edits.relation.Some?
    ensures ToggleDeleteSelected(g).edits.staged != g.edits.staged <==>
              ActionStages(g.edits, g.view.row, g.view.column, DeleteAction)
  {
    var ref := RefAt(g.edits, g.view.row);
    if ref.Some? && ref.value.insert { DropChanges(g, ref.value.insertIdx); }
    else if ref.Some? { ToggleChanges(g.edits.staged, ref.value); }
  }

  lemma RevertChanges(g: Grid)
    requires g.edits.relation.Some?
    ensures RevertSelected(g).edits.staged != g.edits.staged <==>
              ActionStages(g.edits, g.view.row, g.view.column, RevertAction)
  {
    var ref := RefAt(g.edits, g.view.row);
    if ref.Some? && ref.value.insert { DropChanges(g, ref.value.insertIdx); }
    else if ref.Some? { RevertRowChanges(g.edits.staged, ref.value); }
  }

  lemma DropChanges(g: Grid, index: nat)
    requires index < |g.edits.staged.inserts|
    ensures |DropDraft(g, index).edits.staged.inserts| == |g.edits.staged.inserts| - 1
  {
  }

  lemma ToggleChanges(s: Staged, ref: RowRef)
    ensures ref.key in ToggleDelete(s, ref).deletes <==> ref.key !in s.deletes
  {
  }

  lemma RevertRowChanges(s: Staged, ref: RowRef)
    ensures RevertRow(s, ref) != s <==> ref.key in s.updates || ref.key in s.deletes
  {
    var t := RevertRow(s, ref);
    assert ref.key !in t.updates && ref.key !in t.deletes;
    if ref.key !in s.updates && ref.key !in s.deletes {
      assert t.updates == s.updates && t.deletes == s.deletes;
    }
  }

  lemma ClearingChanges(s: Staged)
    ensures ClearStaged(s) != s <==> Dirty(s)
  {
    if !Dirty(s) {
      assert s.deletes.Keys == {} && s.updates.Keys - s.deletes.Keys == {};
      assert s.updates.Keys == {};
    } else if s.inserts == [] && s.deletes == map[] {
      assert s.updates.Keys - s.deletes.Keys == s.updates.Keys;
    }
  }

  lemma HarmlessActions(g: Grid, action: Action)
    requires g.edits.relation.Some?
    requires action == EditAction || action == ApplyAction || action == RevertAllAction || action == ChangesAction
    ensures ActionClick(g, action).edits.staged == g.edits.staged
  {
  }

  lemma InsertChanges(g: Grid)
    requires g.edits.relation.Some?
    ensures AddDraft(g).edits.staged != g.edits.staged <==> g.edits.relation.value.canInsert
  {
  }

  lemma ActionsStartNothing(g: Grid, action: Action)
    ensures ActionClick(g, action).io == g.io
  {
  }

  lemma ActionChanges(g: Grid, action: Action)
    requires EditsSound(g.edits) && g.edits.relation.Some?
    ensures ActionClick(g, action).edits.staged != g.edits.staged <==>
              ActionStages(g.edits, g.view.row, g.view.column, action)
  {
    match action
    case InsertAction => InsertChanges(g);
    case NullAction => SpecialChanges(g.edits, g.view.row, g.view.column, NullValue);
    case DefaultAction => SpecialChanges(g.edits, g.view.row, g.view.column, DefaultValue);
    case DeleteAction => DeleteChanges(g);
    case RevertAction => RevertChanges(g);
    case _ => HarmlessActions(g, action);
  }

  // ----- clicks -----

  lemma RefreshClick(g: Grid, target: ClickTarget)
    requires g.edits.relation.Some? && g.overlay == RefreshOverlay
    ensures
      var h := OverlayClick(g, target).0;
      (h.edits.staged != g.edits.staged <==> target == OnAlternative && Dirty(g.edits.staged)) &&
      if target == OnAlternative || (target == OnConfirm && ChangesValid(g.edits) && Dirty(g.edits.staged))
      then h.io.next == g.io.next + 1 else h.io == g.io
  {
    if target == OnAlternative { ClearingChanges(g.edits.staged); }
  }

  lemma ApplyClick(g: Grid, target: ClickTarget)
    requires g.edits.relation.Some? && g.overlay == ApplyOverlay
    ensures
      var h := OverlayClick(g, target).0;
      h.edits.staged == g.edits.staged &&
      if target == OnConfirm && Dirty(g.edits.staged) then h.io.next == g.io.next + 1 else h.io == g.io
  {
  }

  lemma OverlayClickChanges(g: Grid, target: ClickTarget)
    requires g.edits.relation.Some? && g.edits.editor.None? && g.overlay != NoOverlay
    ensures
      var h := OverlayClick(g, target).0;
      (h.edits.staged != g.edits.staged <==> ClickStages(g, target)) &&
      if ClickStarts(g, target) then h.io.next == g.io.next + 1 else h.io == g.io
  {
    match g.overlay
    case ApplyOverlay => ApplyClick(g, target);
    case RefreshOverlay => RefreshClick(g, target);
    case RevertAllOverlay => ClearingChanges(g.edits.staged);
    case _ =>
  }

  lemma ActionClickChanges(valid: Validator, g: Grid, action: Action)
    requires EditsSound(g.edits) && g.edits.relation.Some? && g.edits.editor.None? && g.overlay == NoOverlay
    ensures
      var h := Step(valid, g, Click(OnAction(action))).0;
      (h.edits.staged != g.edits.staged <==> ClickStages(g, OnAction(action))) && h.io == g.io
  {
    ActionChanges(g, action);
    ActionsStartNothing(g, action);
    GridTakesClick(valid, g, action);
  }

  lemma GridTakesClick(valid: Validator, g: Grid, action: Action)
    requires g.edits.relation.Some? && g.edits.editor.None? && g.overlay == NoOverlay
    ensures Step(valid, g, Click(OnAction(action))) == (ActionClick(g, action), NoCommand)
  {
  }

  lemma OverlayTakesClick(valid: Validator, g: Grid, target: ClickTarget)
    requires g.edits.relation.Some? && g.edits.editor.None? && g.overlay != NoOverlay
    ensures Step(valid, g, Click(target)) == OverlayClick(g, target)
  {
  }

  lemma OtherClicksKeep(valid: Validator, g: Grid, target: ClickTarget)
    requires g.edits.relation.None? || g.edits.editor.Some? || (g.overlay == NoOverlay && !target.OnAction?)
    ensures
      var h := Step(valid, g, Click(target)).0;
      h.edits == g.edits && h.io == g.io && h.apply == g.apply && !ClickStages(g, target) && !ClickStarts(g, target)
  {
  }

  /** Exactly which clicks change what is staged, and which start a request, whatever is in
      flight: nothing about them asks whether something is. */
  lemma ClickChanges(valid: Validator, g: Grid, target: ClickTarget)
    requires Good(g)
    ensures
      var h := Step(valid, g, Click(target)).0;
      (h.edits.staged != g.edits.staged <==> ClickStages(g, target)) &&
      if ClickStarts(g, target) then h.io.next == g.io.next + 1 else h.io == g.io
  {
    if g.edits.relation.None? || g.edits.editor.Some? || (g.overlay == NoOverlay && !target.OnAction?) {
      OtherClicksKeep(valid, g, target);
    } else if g.overlay != NoOverlay {
      OverlayTakesClick(valid, g, target);
      OverlayClickChanges(g, target);
    } else {
      ActionClickChanges(valid, g, target.action);
    }
  }
}
