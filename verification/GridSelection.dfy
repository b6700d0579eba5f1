/** The selected cell stays on the grid, so looking it up never runs off the rows or columns. */
module GridSelection {
  import opened Relations
  import opened GridData
  import opened IdentityKeys
  import opened Staging
  import opened GridState
  import opened GridRuns

  function ColumnCount(g: Grid): nat { if g.edits.relation.None? then 0 else |g.edits.relation.value.columns| }

  /** The selection is a row and a column of the grid, or zero where it has none. */
  predicate OnGrid(g: Grid) {
    0 <= g.view.row < Max(1, Total(g)) && g.view.column < Max(1, ColumnCount(g))
  }

  /** A step that leaves the grid's extent and the selection alone. */
  predicate SameSelection(g: Grid, h: Grid) {
    Total(h) == Total(g) && ColumnCount(h) == ColumnCount(g) && h.view.row == g.view.row &&
    h.view.column == g.view.column
  }

  lemma SameStaysOnGrid(g: Grid, h: Grid)
    requires OnGrid(g) && SameSelection(g, h)
    ensures OnGrid(h)
  {
  }

  lemma MoveStaysOnGrid(g: Grid, delta: int)
    requires OnGrid(g)
    ensures OnGrid(MoveRow(g, delta)) && OnGrid(MoveColumn(g, delta)) && OnGrid(ToLastRow(g)) && OnGrid(ToTop(g))
  {
  }

  lemma EditingKeepsRows(valid: Validator, e: Edits, key: Key)
    requires e.editor.Some?
    ensures
      var f := EditorKey(valid, e, key);
      |f.staged.inserts| == |e.staged.inserts| && f.page == e.page && f.relation == e.relation
  {
  }

  lemma SpecialKeepsRows(e: Edits, row: int, column: nat, value: StagedValue)
    ensures
      var f := StageSpecial(e, row, column, value);
      |f.staged.inserts| == |e.staged.inserts| && f.page == e.page && f.relation == e.relation
  {
  }

  lemma ClearStaysOnGrid(g: Grid)
    requires OnGrid(g)
    ensures OnGrid(ClearChanges(g))
  {
  }

  lemma {:induction false} MissingColumnInRange(columns: seq<Column>, values: map<string, StagedValue>, k: nat)
    requires k <= |columns|
    ensures MissingColumn(columns, values, k).Some? ==> MissingColumn(columns, values, k).value < |columns|
    decreases |columns| - k
  {
    if k < |columns| { MissingColumnInRange(columns, values, k + 1); }
  }

  lemma {:induction false} MissingValueInRange(columns: seq<Column>, inserts: seq<Mutation>, i: nat)
    requires i <= |inserts|
    ensures
      var missing := MissingValue(columns, inserts, i);
      missing.Some? ==> missing.value.0 < |inserts| && missing.value.1 < |columns|
    decreases |inserts| - i
  {
    if i < |inserts| {
      MissingColumnInRange(columns, inserts[i].values, 0);
      MissingValueInRange(columns, inserts, i + 1);
    }
  }

  /** Validation puts the selection on a draft and a required column of the grid. */
  lemma ValidationStaysOnGrid(g: Grid)
    requires OnGrid(g)
    ensures OnGrid(ValidateChanges(g)) && OnGrid(RequestApply(g)) && SameExtent(g, ValidateChanges(g))
  {
    if g.edits.relation.Some? { MissingValueInRange(g.edits.relation.value.columns, g.edits.staged.inserts, 0); }
  }

  predicate SameExtent(g: Grid, h: Grid) { Total(h) == Total(g) && ColumnCount(h) == ColumnCount(g) }

  lemma ActionStaysOnGrid(g: Grid, action: Action)
    requires OnGrid(g)
    ensures OnGrid(ActionClick(g, action))
  {
    match action
    case NullAction => SpecialKeepsRows(g.edits, g.view.row, g.view.column, NullValue);
    case DefaultAction => SpecialKeepsRows(g.edits, g.view.row, g.view.column, DefaultValue);
    case DeleteAction => DeletingStaysOnGrid(g);
    case RevertAction => RevertingStaysOnGrid(g);
    case ApplyAction => ValidationStaysOnGrid(g);
    case _ =>
  }

  lemma DeletingStaysOnGrid(g: Grid)
    requires OnGrid(g)
    ensures OnGrid(ToggleDeleteSelected(g))
  {
  }

  lemma RevertingStaysOnGrid(g: Grid)
    requires OnGrid(g)
    ensures OnGrid(RevertSelected(g))
  {
  }

  lemma PagingStaysOnGrid(g: Grid, request: PageRequest<string>, target: int)
    requires OnGrid(g)
    ensures OnGrid(StartPage(g, request, target).0) && OnGrid(Describe(g).0) && OnGrid(Retry(g).0)
  {
  }

  lemma PageKeysStayOnGrid(g: Grid)
    requires OnGrid(g)
    ensures OnGrid(NextPage(g).0) && OnGrid(PreviousPage(g).0) && OnGrid(Refresh(g).0) && OnGrid(CycleSort(g).0)
  {
  }

  lemma ApplyStaysOnGrid(g: Grid)
    requires OnGrid(g)
    ensures OnGrid(StartApply(g).0) && OnGrid(ApplyBeforeRefresh(g).0) && OnGrid(RevertAndRefresh(g).0)
  {
    ValidationStaysOnGrid(g);
    ClearStaysOnGrid(g);
    PagingStaysOnGrid(ClearChanges(g), FirstPageRequest(ClearChanges(g)), 1);
  }

  lemma OverlayKeyStaysOnGrid(g: Grid, key: Key)
    requires OnGrid(g)
    ensures OnGrid(OverlayKey(g, key).0)
  {
    SameStaysOnGrid(g, HideOverlay(g));
    match g.overlay
    case ErrorOverlay =>
      SameStaysOnGrid(g, DismissError(g));
      ValidationStaysOnGrid(DismissError(g));
    case ChangesOverlay => ValidationStaysOnGrid(g);
    case NoOverlay =>
    case _ =>
      ApplyStaysOnGrid(g);
      ClearStaysOnGrid(g);
  }

  lemma OverlayClickStaysOnGrid(g: Grid, target: ClickTarget)
    requires OnGrid(g)
    ensures OnGrid(OverlayClick(g, target).0)
  {
    SameStaysOnGrid(g, HideOverlay(g));
    ApplyStaysOnGrid(g);
    ClearStaysOnGrid(g);
  }

  lemma CharacterStaysOnGrid(g: Grid, c: char)
    requires OnGrid(g)
    ensures OnGrid(CharacterKey(g, c).0)
  {
    if c == 'n' || c == 'p' || c == 'r' || c == 's' {
      PageKeysStayOnGrid(g);
    } else if ActionOf(c).Some? {
      ActionStaysOnGrid(g, ActionOf(c).value);
    } else {
      MoveStaysOnGrid(g, 1);
      MoveStaysOnGrid(g, -1);
    }
  }

  lemma GridKeyStaysOnGrid(g: Grid, key: Key)
    requires OnGrid(g)
    ensures OnGrid(GridKey(g, key).0)
  {
    match key
    case Character(c) => CharacterStaysOnGrid(g, c);
    case PageUp => PageKeysStayOnGrid(g);
    case PageDown => PageKeysStayOnGrid(g);
    case Enter =>
    case _ =>
      MoveStaysOnGrid(g, 1);
      MoveStaysOnGrid(g, -1);
  }

  lemma {:induction false} DraftIndexInRange(inserts: seq<Mutation>, draftId: nat, i: nat)
    requires i <= |inserts|
    ensures DraftIndex(inserts, draftId, i).Some? ==> DraftIndex(inserts, draftId, i).value < |inserts|
    decreases |inserts| - i
  {
    if i < |inserts| { DraftIndexInRange(inserts, draftId, i + 1); }
  }

  lemma {:induction false} PageIndexInRange(identity: seq<string>, rows: seq<Row>, key: string, i: nat)
    requires i <= |rows|
    ensures PageIndex(identity, rows, key, i).Some? ==> PageIndex(identity, rows, key, i).value < |rows|
    decreases |rows| - i
  {
    if i < |rows| { PageIndexInRange(identity, rows, key, i + 1); }
  }

  lemma FocusStaysOnGrid(g: Grid, failure: Failure)
    requires OnGrid(g)
    ensures OnGrid(FocusFailure(g, failure))
  {
    if g.edits.relation.Some? && failure.mutation.Some? && 0 <= failure.mutation.value < |g.apply.snapshot| {
      var m := g.apply.snapshot[failure.mutation.value];
      DraftIndexInRange(g.edits.staged.inserts, m.draftId, 0);
      PageIndexInRange(g.edits.relation.value.identity, g.edits.page.rows,
                       IdentityKeys.Key(g.edits.relation.value.identity, m.original.identity), 0);
    }
  }

  lemma ResultStaysOnGrid(valid: Validator, g: Grid, message: Message)
    requires OnGrid(g) &&
      (message.RelationDescribed? || message.PageLoaded? || message.Applied? || message.OperationFailed?)
    ensures OnGrid(Step(valid, g, message).0)
  {
    match message
    case Applied(result, meta) => ClearStaysOnGrid(g);
    case OperationFailed(kind, failure, meta) =>
      var down := g.(io := g.io.(active := None, failed := true, failedKind := Some(kind), lifecycle := Failed));
      SameStaysOnGrid(g, down);
      FocusStaysOnGrid(down.(overlay := ErrorOverlay), failure);
    case _ =>
  }

  /** Every message keeps the selection on the grid. */
  lemma StepStaysOnGrid(valid: Validator, g: Grid, message: Message)
    requires OnGrid(g)
    ensures OnGrid(Step(valid, g, message).0)
  {
    match message
    case KeyPress(key) =>
      if g.edits.editor.Some? { EditingKeepsRows(valid, g.edits, key); }
      OverlayKeyStaysOnGrid(g, key);
      GridKeyStaysOnGrid(g, key);
    case Click(target) =>
      OverlayClickStaysOnGrid(g, target);
      if target.OnAction? { ActionStaysOnGrid(g, target.action); }
    case Wheel(up, sideways) =>
      MoveStaysOnGrid(g, if up then -1 else 1);
      MoveStaysOnGrid(g, if up then -3 else 3);
    case Paste(_) =>
    case Resize(_) =>
    case _ => ResultStaysOnGrid(valid, g, message);
  }

  lemma NewTabIsOnGrid(workspace: string, tab: string, relationId: RelationId)
    ensures OnGrid(NewGrid(workspace, tab, relationId)) && OnGrid(Describe(NewGrid(workspace, tab, relationId)).0)
  {
  }

  /** So does every run. */
  lemma {:induction false} RunStaysOnGrid(valid: Validator, g: Grid, messages: seq<Message>)
    requires OnGrid(g)
    ensures OnGrid(After(valid, g, messages))
    decreases |messages|
  {
    if messages != [] {
      StepStaysOnGrid(valid, g, messages[0]);
      RunStaysOnGrid(valid, Step(valid, g, messages[0]).0, messages[1..]);
    }
  }

  /** From a new tab on the selected row and column always exist, if there are any. */
  lemma NewTabStaysOnGrid(
    valid: Validator, workspace: string, tab: string, relationId: RelationId, messages: seq<Message>)
    ensures
      var g := After(valid, Describe(NewGrid(workspace, tab, relationId)).0, messages);
      (Total(g) > 0 ==> 0 <= g.view.row < Total(g)) && (ColumnCount(g) > 0 ==> g.view.column < ColumnCount(g))
  {
    NewTabIsOnGrid(workspace, tab, relationId);
    RunStaysOnGrid(valid, Describe(NewGrid(workspace, tab, relationId)).0, messages);
  }

  /** Sorting by the selected column is therefore always by a column of the relation. */
  lemma SortedColumnExists(g: Grid)
    requires OnGrid(g) && ColumnCount(g) > 0
    ensures g.view.column < |g.edits.relation.value.columns|
    ensures CycleSort(g).1.LoadPageCommand? <==> g.edits.relation.value.columns[g.view.column].sortable
  {
  }

  /** With drafts pinned above the page, End selects that many rows above the last one. */
  lemma EndCountsOnlyPageRows(g: Grid)
    requires OnGrid(g) && |g.edits.page.rows| > 0
    ensures ToLastRow(g).view.row == Total(g) - 1 - |g.edits.staged.inserts|
  {
  }
}
