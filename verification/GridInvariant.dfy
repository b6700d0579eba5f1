/** What every message keeps true of a table tab. */
module GridInvariant {
  import opened Relations
  import opened GridData
  import opened IdentityKeys
  import opened Staging
  import opened GridState

  predicate WellFormedRows(rows: seq<Row>) {
    forall i :: 0 <= i < |rows| ==> WellFormedIdentity(rows[i].identity)
  }

  /** Describe answers for the relation asked about; PostgreSQL column names are distinct. */
  predicate Sound(relationId: RelationId, message: Message) {
    match message
    case RelationDescribed(relation, _) => relation.id == relationId && DistinctNames(relation.columns)
    case PageLoaded(page, _) => WellFormedRows(page.rows)
    case _ => true
  }

  /** An open editor is on a column its row may be edited in. */
  predicate EditorSound(relation: Relation, drafts: nat, editor: Option<CellEditor>) {
    editor.Some? ==>
    editor.value.column < |relation.columns| && editor.value.row >= 0 &&
    ColumnWritable(relation, editor.value.row < drafts, relation.columns[editor.value.column])
  }

  ghost predicate EditsSound(e: Edits) {
    if e.relation.None? then e.staged == NOTHING_STAGED && e.page == NO_PAGE && e.editor.None?
    else
      e.relation.value.id == e.relationId && DistinctNames(e.relation.value.columns) &&
      Consistent(e.relation.value, e.staged) && WellFormedOriginals(e.staged) && WellFormedRows(e.page.rows) &&
      EditorSound(e.relation.value, |e.staged.inserts|, e.editor)
  }

  /** At most one operation is active, numbered below the next; describing is what happens
      while no relation is known; the lifecycle shows exactly whether something runs. */
  predicate RequestsSound(relationId: RelationId, known: bool, io: Requests) {
    (known ==> io.pending.relation == relationId) &&
    (io.active.Some? <==> io.lifecycle == Running) &&
    (io.active.Some? ==>
       ActiveMeta(io).kind == io.active.value.kind && ActiveMeta(io).request < io.next &&
       ActiveMeta(io).workspace == io.workspace && ActiveMeta(io).tab == io.tab &&
       (io.active.value.kind == Describing <==> !known))
  }

  ghost predicate Inv(g: Grid) {
    g.edits.relationId != NO_RELATION && EditsSound(g.edits) &&
    RequestsSound(g.edits.relationId, g.edits.relation.Some?, g.io)
  }

  /** A new tab, and one that has asked for its metadata, satisfies the invariants. */
  lemma NewGridSound(workspace: string, tab: string, relationId: RelationId)
    requires relationId != NO_RELATION
    ensures Inv(NewGrid(workspace, tab, relationId)) && Inv(Describe(NewGrid(workspace, tab, relationId)).0)
  {
  }

  // ----- staging keeps the edits sound -----

  lemma ReferenceResolves(e: Edits, index: int)
    requires EditsSound(e) && RefAt(e, index).Some?
    ensures
      var ref := RefAt(e, index).value;
      e.relation.Some? && Resolves(e.relation.value, e.staged, ref) && (ref.insert <==> index < |e.staged.inserts|) &&
      index >= 0 && (!ref.insert ==> WellFormedIdentity(ref.row.identity))
  {
  }

  lemma StageValueKeepsShape(relation: Relation, s: Staged, ref: RowRef, column: string, value: StagedValue)
    requires WellFormedOriginals(s) && (ref.insert ==> ref.insertIdx < |s.inserts|)
    requires !ref.insert ==> WellFormedIdentity(ref.row.identity)
    ensures WellFormedOriginals(StageValue(relation, s, ref, column, value))
    ensures |StageValue(relation, s, ref, column, value).inserts| == |s.inserts|
  {
  }

  lemma StageAtSound(e: Edits, index: int, column: nat, value: StagedValue)
    requires EditsSound(e) && RefAt(e, index).Some? && column < |e.relation.value.columns|
    requires ColumnWritable(e.relation.value, RefAt(e, index).value.insert, e.relation.value.columns[column])
    ensures EditsSound(StageAt(e, RefAt(e, index).value, column, value))
  {
    var relation := e.relation.value;
    var ref := RefAt(e, index).value;
    ReferenceResolves(e, index);
    FindsOwnColumn(relation.columns, column);
    StageValueConsistent(relation, e.staged, ref, relation.columns[column].name, value);
    StageValueKeepsShape(relation, e.staged, ref, relation.columns[column].name, value);
  }

  lemma CloseEditorSound(e: Edits)
    requires EditsSound(e)
    ensures EditsSound(e.(editor := None))
  {
  }

  lemma EditorKeySound(valid: Validator, e: Edits, key: Key)
    requires EditsSound(e) && e.editor.Some?
    ensures EditsSound(EditorKey(valid, e, key))
  {
    if key == Enter {
      var editor := e.editor.value;
      CloseEditorSound(e);
      if RefAt(e, editor.row).Some? {
        ReferenceResolves(e, editor.row);
        StageAtSound(e, editor.row, editor.column, Text(editor.buffer));
        CloseEditorSound(StageAt(e, RefAt(e, editor.row).value, editor.column, Text(editor.buffer)));
      }
    } else if key != Esc {
      var same := BufferKey(e.editor.value, key);
      assert same.row == e.editor.value.row && same.column == e.editor.value.column;
    }
  }

  lemma StageSpecialSound(e: Edits, row: int, column: nat, value: StagedValue)
    requires EditsSound(e)
    ensures EditsSound(StageSpecial(e, row, column, value))
  {
    var ref := RefAt(e, row);
    if ref.Some? && EditableAt(e, ref.value, column) {
      StageAtSound(e, row, column, value);
    }
  }

  lemma RemoveDraftSound(e: Edits, index: nat)
    requires EditsSound(e) && e.editor.None? && e.relation.Some? && index < |e.staged.inserts|
    ensures EditsSound(e.(staged := RemoveDraft(e.staged, index)))
  {
  }

  lemma ToggleKeepsOriginals(s: Staged, ref: RowRef)
    requires WellFormedOriginals(s) && WellFormedIdentity(ref.row.identity)
    ensures WellFormedOriginals(ToggleDelete(s, ref))
  {
  }

  lemma ToggleDeleteSound(e: Edits, row: int)
    requires EditsSound(e) && RefAt(e, row).Some? && !RefAt(e, row).value.insert && e.relation.value.canDelete
    ensures EditsSound(e.(staged := ToggleDelete(e.staged, RefAt(e, row).value)))
  {
    var ref := RefAt(e, row).value;
    ReferenceResolves(e, row);
    ToggleDeleteConsistent(e.relation.value, e.staged, ref);
    ToggleKeepsOriginals(e.staged, ref);
    StagedSound(e, ToggleDelete(e.staged, ref));
  }

  lemma StagedSound(e: Edits, s: Staged)
    requires EditsSound(e) && e.relation.Some? && Consistent(e.relation.value, s) && WellFormedOriginals(s)
    requires |s.inserts| == |e.staged.inserts|
    ensures EditsSound(e.(staged := s))
  {
  }

  lemma RevertRowSound(e: Edits, row: int)
    requires EditsSound(e) && RefAt(e, row).Some?
    ensures EditsSound(e.(staged := RevertRow(e.staged, RefAt(e, row).value)))
  {
    RevertRowConsistent(e.relation.value, e.staged, RefAt(e, row).value);
  }

  // ----- every kind of step -----

  lemma RequestApplyKeeps(g: Grid)
    ensures RequestApply(g).edits == g.edits && RequestApply(g).io == g.io
    ensures RequestApply(g).overlay == g.overlay || RequestApply(g).overlay == ApplyOverlay
    ensures ValidateChanges(g).edits == g.edits && ValidateChanges(g).io == g.io &&
      ValidateChanges(g).overlay == g.overlay
  {
  }

  /** The overlays that ask about staged changes are only up once a relation is known. */
  predicate OverlaySound(g: Grid) {
    g.overlay == RefreshOverlay || g.overlay == RevertAllOverlay ==> g.edits.relation.Some?
  }

  ghost predicate Good(g: Grid) { Inv(g) && OverlaySound(g) }

  lemma SameGood(g: Grid, h: Grid)
    requires Good(g) && h.edits == g.edits && h.io == g.io && OverlaySound(h)
    ensures Good(h)
  {
  }

  lemma EditedGood(g: Grid, h: Grid)
    requires Good(g) && h.io == g.io && h.overlay == g.overlay && EditsSound(h.edits)
    requires h.edits.relation == g.edits.relation && h.edits.relationId == g.edits.relationId
    ensures Good(h)
  {
  }

  lemma DeleteActionGood(g: Grid)
    requires Good(g) && g.edits.editor.None?
    ensures Good(ToggleDeleteSelected(g))
  {
    var ref := RefAt(g.edits, g.view.row);
    if ref.Some? {
      ReferenceResolves(g.edits, g.view.row);
      if ref.value.insert { RemoveDraftSound(g.edits, ref.value.insertIdx); }
      else if g.edits.relation.value.canDelete { ToggleDeleteSound(g.edits, g.view.row); }
      EditedGood(g, ToggleDeleteSelected(g));
    }
  }

  lemma RevertActionGood(g: Grid)
    requires Good(g) && g.edits.editor.None?
    ensures Good(RevertSelected(g))
  {
    var ref := RefAt(g.edits, g.view.row);
    if ref.Some? {
      ReferenceResolves(g.edits, g.view.row);
      if ref.value.insert { RemoveDraftSound(g.edits, ref.value.insertIdx); }
      else { RevertRowSound(g.edits, g.view.row); }
      EditedGood(g, RevertSelected(g));
    }
  }

  lemma AddDraftGood(g: Grid)
    requires Good(g) && g.edits.editor.None?
    ensures Good(AddDraft(g))
  {
  }

  lemma OpenGood(g: Grid)
    requires Good(g)
    ensures Good(OpenSelected(g))
  {
  }

  lemma SpecialGood(g: Grid, value: StagedValue)
    requires Good(g)
    ensures Good(SpecialSelected(g, value))
  {
    StageSpecialSound(g.edits, g.view.row, g.view.column, value);
    EditedGood(g, SpecialSelected(g, value));
  }

  lemma RequestGood(g: Grid)
    requires Good(g)
    ensures Good(RequestApply(g))
  {
    RequestApplyKeeps(g);
    SameGood(g, RequestApply(g));
  }

  lemma AskingGood(g: Grid)
    requires Good(g)
    ensures Good(AskRevertAll(g)) && Good(ShowChanges(g)) && Good(RequestApply(g))
  {
    RequestGood(g);
    if g.edits.relation.None? { assert !Dirty(g.edits.staged); }
  }

  lemma ActionGood(g: Grid, action: Action)
    requires Good(g) && g.edits.editor.None?
    ensures Good(ActionClick(g, action))
  {
    match action
    case InsertAction => AddDraftGood(g);
    case EditAction => OpenGood(g);
    case NullAction => SpecialGood(g, NullValue);
    case DefaultAction => SpecialGood(g, DefaultValue);
    case DeleteAction => DeleteActionGood(g);
    case RevertAction => RevertActionGood(g);
    case ApplyAction => AskingGood(g);
    case RevertAllAction => AskingGood(g);
    case ChangesAction => AskingGood(g);
  }

  lemma StartApplyGood(g: Grid)
    requires Good(g)
    ensures Good(StartApply(g).0)
  {
  }

  lemma ApplyBeforeRefreshGood(g: Grid)
    requires Good(g)
    ensures Good(ApplyBeforeRefresh(g).0)
  {
  }

  lemma ClearChangesGood(g: Grid)
    requires Good(g) && g.edits.relation.Some?
    ensures Good(ClearChanges(g)) && Good(RevertAndRefresh(g).0)
  {
  }

  lemma DismissGood(g: Grid)
    requires Good(g) && !Busy(g)
    ensures Good(DismissError(g))
  {
  }

  lemma HideGood(g: Grid)
    requires Good(g)
    ensures Good(HideOverlay(g))
  {
  }

  lemma ErrorOverlayKeyGood(g: Grid, key: Key)
    requires Good(g) && !Busy(g) && g.overlay == ErrorOverlay
    ensures Good(OverlayKey(g, key).0)
  {
    DismissGood(g);
    if key == Character('a') {
      RequestGood(DismissError(g));
    } else {
      assert OverlayKey(g, key).0 == g || OverlayKey(g, key).0 == DismissError(g);
    }
  }

  lemma OverlayKeyGood(g: Grid, key: Key)
    requires Good(g) && !Busy(g)
    ensures Good(OverlayKey(g, key).0)
  {
    HideGood(g);
    match g.overlay
    case ApplyOverlay => if key == Enter || key == Character('a') { StartApplyGood(g); }
    case RefreshOverlay =>
      if key == Character('a') { ApplyBeforeRefreshGood(g); } else if key == Character('r') { ClearChangesGood(g); }
    case RevertAllOverlay => if key == Enter || key == Character('r') { ClearChangesGood(g); }
    case ChangesOverlay => if key == Character('a') { AskingGood(g); }
    case ErrorOverlay => ErrorOverlayKeyGood(g, key);
    case NoOverlay =>
  }

  lemma OverlayClickGood(g: Grid, target: ClickTarget)
    requires Good(g) && g.edits.relation.Some?
    ensures Good(OverlayClick(g, target).0)
  {
  }

  lemma PagingKeysSound(g: Grid)
    requires Good(g) && !Busy(g) && g.edits.relation.Some?
    ensures Good(NextPage(g).0) && Good(PreviousPage(g).0) && Good(Refresh(g).0) && Good(CycleSort(g).0)
  {
  }

  lemma UnknownRelationKeysSound(g: Grid)
    requires Good(g) && !Busy(g) && g.edits.relation.None?
    ensures Good(NextPage(g).0) && Good(PreviousPage(g).0) && Good(Refresh(g).0) && Good(CycleSort(g).0)
  {
  }

  lemma NavigationGood(g: Grid, c: char)
    requires Good(g)
    ensures Good(Navigate(g, c))
  {
  }

  lemma PagingKeysGood(g: Grid)
    requires Good(g) && !Busy(g)
    ensures Good(NextPage(g).0) && Good(PreviousPage(g).0) && Good(Refresh(g).0) && Good(CycleSort(g).0)
  {
    if g.edits.relation.Some? { PagingKeysSound(g); } else { UnknownRelationKeysSound(g); }
  }

  lemma CharacterKeyGood(g: Grid, c: char)
    requires Good(g) && !Busy(g) && g.edits.editor.None?
    ensures Good(CharacterKey(g, c).0)
  {
    if c == 'n' || c == 'p' || c == 'r' || c == 's' {
      PagingKeysGood(g);
    } else if ActionOf(c).Some? {
      ActionGood(g, ActionOf(c).value);
    } else {
      NavigationGood(g, c);
    }
  }

  lemma ArrowKeyGood(g: Grid, key: Key)
    requires Good(g) && !key.Character? && key != Enter && key != PageUp && key != PageDown
    ensures Good(GridKey(g, key).0)
  {
  }

  lemma GridKeyGood(g: Grid, key: Key)
    requires Good(g) && !Busy(g) && g.edits.editor.None?
    ensures Good(GridKey(g, key).0)
  {
    match key
    case Enter => OpenGood(g);
    case Character(c) => CharacterKeyGood(g, c);
    case PageUp => PagingKeysGood(g);
    case PageDown => PagingKeysGood(g);
    case _ => ArrowKeyGood(g, key);
  }

  lemma DescribedSound(g: Grid, relation: Relation)
    requires Good(g) && g.edits.relation.None? && relation.id == g.edits.relationId && DistinctNames(relation.columns)
    ensures Good(OnDescribed(g, relation).0)
  {
  }

  lemma AppliedSound(g: Grid, result: ApplyResult)
    requires Good(g) && g.edits.relation.Some?
    ensures Good(OnApplied(g, result).0)
  {
  }

  lemma PageSound(g: Grid, page: Page)
    requires Good(g) && g.edits.relation.Some? && WellFormedRows(page.rows)
    ensures Good(OnPage(g, page))
  {
  }

  lemma FailedSound(g: Grid, kind: OperationKind, failure: Failure)
    requires Good(g)
    ensures Good(OnFailed(g, kind, failure))
  {
  }

  lemma PasteSound(e: Edits, content: string)
    requires EditsSound(e) && e.editor.Some?
    ensures EditsSound(e.(editor := Some(InsertText(e.editor.value, content))))
  {
  }

  /** Every message, clicks included, keeps the staging invariant, the request invariant and
      the soundness of an open editor. */
  lemma StepKeepsInvariant(valid: Validator, g: Grid, message: Message)
    requires Good(g) && Sound(g.edits.relationId, message)
    ensures Good(Step(valid, g, message).0)
  {
    match message
    case RelationDescribed(relation, meta) => if Matches(g, Describing, meta) { DescribedSound(g, relation); }
    case PageLoaded(page, meta) => if Matches(g, Paging, meta) { PageSound(g, page); }
    case Applied(result, meta) => if Matches(g, Applying, meta) { AppliedSound(g, result); }
    case OperationFailed(kind, failure, meta) => FailedSound(g, kind, failure);
    case Paste(content) => if g.edits.editor.Some? { PasteSound(g.edits, content); }
    case KeyPress(key) =>
      if !Busy(g) {
        if g.edits.editor.Some? { EditorKeySound(valid, g.edits, key); }
        else if g.overlay != NoOverlay { OverlayKeyGood(g, key); }
        else { GridKeyGood(g, key); }
      }
    case Click(target) =>
      if g.edits.relation.Some? && g.edits.editor.None? {
        if g.overlay != NoOverlay { OverlayClickGood(g, target); }
        else if target.OnAction? { ActionGood(g, target.action); }
      }
    case _ =>
  }
}
