/** A table tab as the object it is: fields updated in place, refining the state functions. */
module GridModel {
  import opened Relations
  import opened GridData
  import opened IdentityKeys
  import opened Staging
  import opened GridState
  import GridInvariant
  import GridSelection

  class Model {
    const workspace: string
    const tab: string
    const relationId: RelationId
    var relation: Option<Relation>
    var page: Page
    var inserts: seq<Mutation>
    var updates: map<string, Mutation>
    var deletes: map<string, Mutation>
    var nextDraft: nat
    var editor: Option<CellEditor>
    var nextRequest: nat
    var active: Option<Active>
    var lifecycle: Lifecycle
    var failed: bool
    var failedKind: Option<OperationKind>
    var pendingRequest: PageRequest<string>
    var pendingPage: int
    var height: int
    var selectedRow: int
    var selectedColumn: nat
    var rowOffset: int
    var pageNumber: int
    var sort: Sort
    var overlay: Overlay
    var applySnapshot: seq<Mutation>
    var applyReloadFirst: bool
    var reloadAfterApply: Option<ApplyResult>

    function StagedState(): Staged
      reads this
    {
      Staged(inserts, updates, deletes, nextDraft)
    }

    function EditsState(): Edits
      reads this
    {
      Edits(relationId, relation, page, StagedState(), editor)
    }

    function RequestsState(): Requests
      reads this
    {
      Requests(workspace, tab, nextRequest, active, lifecycle, failed, failedKind, pendingRequest, pendingPage)
    }

    function ViewState(): Cursor
      reads this
    {
      Cursor(height, selectedRow, selectedColumn, rowOffset, pageNumber, sort)
    }

    function State(): Grid
      reads this
    {
      Grid(EditsState(), RequestsState(), ViewState(), overlay,
        GridState.Apply(applySnapshot, applyReloadFirst, reloadAfterApply))
    }

    /** What is staged fits the relation, at most one request is active, and the selection is on
        the grid. */
    ghost predicate Valid()
      reads this
    {
      GridInvariant.Good(State()) && GridSelection.OnGrid(State())
    }

    constructor (workspace: string, tab: string, relationId: RelationId)
      ensures State() == NewGrid(workspace, tab, relationId)
      ensures relationId != NO_RELATION ==> Valid()
    {
      this.workspace, this.tab, this.relationId := workspace, tab, relationId;
      relation, page, editor := None, NO_PAGE, None;
      inserts, updates, deletes, nextDraft := [], map[], map[], 1;
      nextRequest, active, lifecycle, failed, failedKind := 1, None, Idle, false, None;
      pendingRequest, pendingPage := NO_PAGE_REQUEST, 0;
      height, selectedRow, selectedColumn, rowOffset, pageNumber, sort := 0, 0, 0, 0, 0, Sort("", false);
      overlay, applySnapshot, applyReloadFirst, reloadAfterApply := NoOverlay, [], false, None;
    }

    // ----- requests -----

    method NewRequest(kind: OperationKind) returns (meta: Meta)
      modifies this`nextRequest, this`active, this`lifecycle, this`failed
      ensures RequestsState() == Begin(old(RequestsState()), kind) && active == Some(Active(kind, meta))
      ensures State() == old(State()).(io := RequestsState())
    {
      meta := Meta(workspace, tab, kind, nextRequest);
      nextRequest := nextRequest + 1;
      active := Some(Active(kind, meta));
      lifecycle := Running;
      failed := false;
      assert EditsState() == old(EditsState()) && ViewState() == old(ViewState());
    }

    method Describe() returns (command: Command)
      modifies this
      ensures (State(), command) == GridState.Describe(old(State()))
    {
      var meta := NewRequest(Describing);
      command := DescribeCommand(relationId, meta);
    }

    method StartPage(request: PageRequest<string>, target: int) returns (command: Command)
      modifies this
      ensures (State(), command) == GridState.StartPage(old(State()), request, target)
    {
      if relation.None? {
        command := Describe();
        return;
      }
      pendingRequest := request;
      pendingPage := target;
      assert State() == old(State()).(io := old(RequestsState()).(pending := request, pendingPage := target));
      var meta := NewRequest(Paging);
      command := LoadPageCommand(relation.value, request, meta);
    }

    method StartFirstPage() returns (command: Command)
      modifies this
      ensures (State(), command) == GridState.StartPage(old(State()), FirstPageRequest(old(State())), 1)
    {
      command := StartPage(PageRequest(relationId, "", First, sort, DEFAULT_PAGE_SIZE), 1);
    }

    method Retry() returns (command: Command)
      modifies this
      ensures (State(), command) == GridState.Retry(old(State()))
    {
      if relation.None? || pendingRequest.relation == NO_RELATION {
        command := Describe();
      } else {
        command := StartPage(pendingRequest, Max(1, pendingPage));
      }
    }

    method CycleSort() returns (command: Command)
      modifies this
      ensures (State(), command) == GridState.CycleSort(old(State()))
    {
      command := NoCommand;
      if relation.Some? && selectedColumn < |relation.value.columns| {
        var column := relation.value.columns[selectedColumn];
        if column.sortable {
          if sort.column != column.name {
            sort := Sort(column.name, true);
          } else if sort.ascending {
            sort := sort.(ascending := false);
          } else {
            sort := Sort("", false);
          }
          command := StartFirstPage();
        }
      }
    }

    // ----- the selection -----

    method EnsureVisible()
      modifies this`rowOffset
      ensures State() == old(State()).(view := EnsureRowVisible(old(ViewState()), TotalRows(StagedState(), page)))
    {
      var total := |inserts| + |page.rows|;
      var visible := Max(1, height - 6);
      if selectedRow < rowOffset {
        rowOffset := selectedRow;
      }
      if selectedRow >= rowOffset + visible {
        rowOffset := selectedRow - visible + 1;
      }
      rowOffset := Min(Max(0, total - visible), Max(0, rowOffset));
    }

    method MoveRow(delta: int)
      modifies this
      ensures State() == GridState.MoveRow(old(State()), delta)
    {
      var total := |inserts| + |page.rows|;
      if total == 0 {
        return;
      }
      selectedRow := Min(total - 1, Max(0, selectedRow + delta));
      EnsureVisible();
    }

    method MoveColumn(delta: int)
      modifies this
      ensures State() == GridState.MoveColumn(old(State()), delta)
    {
      if relation.None? || relation.value.columns == [] {
        return;
      }
      selectedColumn := Min(|relation.value.columns| - 1, Max(0, selectedColumn + delta));
    }

    // ----- staging -----

    method DropStaged()
      modifies this`inserts, this`updates, this`deletes, this`editor
      ensures EditsState() == old(EditsState()).(staged := ClearStaged(old(StagedState())), editor := None)
    {
      inserts, updates, deletes := [], map[], map[];
      editor := None;
    }

    method ClearChanges()
      modifies this
      ensures State() == GridState.ClearChanges(old(State()))
    {
      DropStaged();
      overlay := NoOverlay;
      applySnapshot := [];
      applyReloadFirst := false;
      selectedRow := Min(Max(0, |page.rows| - 1), Max(0, selectedRow));
    }

    method StageInsert()
      modifies this
      ensures State() == AddDraft(old(State()))
    {
      if relation.None? || !relation.value.canInsert {
        return;
      }
      inserts := inserts + [Mutation(MutationKind.InsertRow, nextDraft, NO_ROW, map[])];
      nextDraft := nextDraft + 1;
      selectedRow := |inserts| - 1;
      rowOffset := 0;
    }

    /** Stages a value in a draft or, against the row as shown, in an update. */
    method StageValueIn(ref: RowRef, column: string, value: StagedValue)
      requires relation.Some? && (ref.insert ==> ref.insertIdx < |inserts|)
      modifies this`inserts, this`updates
      ensures StagedState() == StageValue(relation.value, old(StagedState()), ref, column, value)
    {
      if ref.insert {
        var draft := inserts[ref.insertIdx];
        var values := draft.values;
        if value == DefaultValue {
          values := values - {column};
        } else {
          values := values[column := value];
        }
        inserts := inserts[ref.insertIdx := draft.(values := values)];
        return;
      }
      var mutation := Mutation(UpdateRow, 0, ref.row, map[]);
      if ref.key in updates {
        mutation := updates[ref.key];
      }
      var values := mutation.values;
      var index := FindIndex(relation.value.columns, column);
      if StagedMatchesOriginal(value, ref.row, index) {
        values := values - {column};
      } else {
        values := values[column := value];
      }
      if values == map[] {
        updates := updates - {ref.key};
      } else {
        updates := updates[ref.key := mutation.(values := values)];
      }
    }

    method StageCell(ref: RowRef, column: nat, value: StagedValue)
      requires relation.Some? && column < |relation.value.columns|
      modifies this`inserts, this`updates
      ensures EditsState() == StageAt(old(EditsState()), ref, column, value)
    {
      if !(ref.insert && ref.insertIdx >= |inserts|) {
        StageValueIn(ref, relation.value.columns[column].name, value);
      }
    }

    method RemoveDraftAt(index: nat)
      requires index < |inserts|
      modifies this`inserts, this`selectedRow
      ensures State() == DropDraft(old(State()), index)
    {
      inserts := inserts[..index] + inserts[index + 1..];
      selectedRow := Min(Max(0, |inserts| + |page.rows| - 1), selectedRow);
    }

    method ToggleDelete()
      modifies this
      ensures State() == ToggleDeleteSelected(old(State()))
    {
      var ref := RefAt(EditsState(), selectedRow);
      if ref.None? {
        return;
      }
      if ref.value.insert {
        if ref.value.insertIdx < |inserts| {
          RemoveDraftAt(ref.value.insertIdx);
        }
        return;
      }
      if !relation.value.canDelete {
        return;
      }
      if ref.value.key in deletes {
        deletes := deletes - {ref.value.key};
      } else {
        deletes := deletes[ref.value.key := Mutation(DeleteRow, 0, ref.value.row, map[])];
      }
    }

    method RevertSelectedRow()
      modifies this
      ensures State() == RevertSelected(old(State()))
    {
      var ref := RefAt(EditsState(), selectedRow);
      if ref.None? {
        return;
      }
      if ref.value.insert {
        if ref.value.insertIdx < |inserts| {
          RemoveDraftAt(ref.value.insertIdx);
        }
        return;
      }
      updates := updates - {ref.value.key};
      deletes := deletes - {ref.value.key};
    }

    // ----- the cell editor -----

    method OpenCellEditor()
      modifies this`editor
      ensures State() == OpenSelected(old(State()))
    {
      var ref := RefAt(EditsState(), selectedRow);
      if ref.None? || relation.None? || selectedColumn >= |relation.value.columns| {
        return;
      }
      if ref.value.key in deletes && !ref.value.insert {
        return;
      }
      if !ColumnWritable(relation.value, ref.value.insert, relation.value.columns[selectedColumn]) {
        return;
      }
      if ref.value.insert && ref.value.insertIdx >= |inserts| {
        return;
      }
      var cell := CellAt(relation.value, StagedState(), ref.value, selectedColumn);
      var buffer := cell.edit;
      if cell.isNull || cell.display == "DEFAULT" {
        buffer := "";
      }
      editor := Some(CellEditor(selectedRow, selectedColumn, buffer, |buffer|));
    }

    method CommitCell(valid: Validator)
      requires editor.Some?
      modifies this`inserts, this`updates, this`editor
      ensures State() == old(State()).(edits := CommitEditor(valid, old(EditsState())))
    {
      var ref := RefAt(EditsState(), editor.value.row);
      if ref.None? || relation.None? || editor.value.column >= |relation.value.columns| {
        editor := None;
        return;
      }
      var column := relation.value.columns[editor.value.column];
      if !valid(column, editor.value.buffer) {
        return;
      }
      StageCell(ref.value, editor.value.column, Text(editor.value.buffer));
      editor := None;
    }

    method UpdateEditorKey(valid: Validator, key: Key)
      requires editor.Some?
      modifies this
      ensures State() == old(State()).(edits := EditorKey(valid, old(EditsState()), key))
    {
      match key {
        case Esc => editor := None;
        case Enter => CommitCell(valid);
        case _ => editor := Some(BufferKey(editor.value, key));
      }
    }

    method StageSpecialValue(value: StagedValue)
      modifies this`inserts, this`updates
      ensures State() == SpecialSelected(old(State()), value)
    {
      var ref := RefAt(EditsState(), selectedRow);
      if ref.None? || relation.None? || selectedColumn >= |relation.value.columns| {
        return;
      }
      if ref.value.key in deletes && !ref.value.insert {
        return;
      }
      var column := relation.value.columns[selectedColumn];
      if !ColumnWritable(relation.value, ref.value.insert, column) {
        return;
      }
      if value == NullValue && !column.nullable {
        return;
      }
      if value == DefaultValue && !column.hasDefault && !column.nullable {
        return;
      }
      StageCell(ref.value, selectedColumn, value);
    }

    // ----- apply -----

    method ValidateDrafts() returns (ok: bool)
      modifies this`selectedRow, this`selectedColumn
      ensures State() == ValidateChanges(old(State())) && ok == ChangesValid(old(EditsState()))
    {
      if relation.None? {
        return false;
      }
      var missing := FindMissingValue(relation.value.columns, inserts);
      if missing.Some? {
        selectedRow := missing.value.0;
        selectedColumn := missing.value.1;
        return false;
      }
      return true;
    }

    method RequestApplyConfirmation()
      modifies this
      ensures State() == RequestApply(old(State()))
    {
      var count := CountChanges(StagedState());
      if count == 0 {
        return;
      }
      var ok := ValidateDrafts();
      if !ok {
        return;
      }
      overlay := ApplyOverlay;
      applyReloadFirst := false;
    }

    method StartApply() returns (command: Command)
      modifies this
      ensures (State(), command) == GridState.StartApply(old(State()))
    {
      var count := CountChanges(StagedState());
      if relation.None? || count == 0 {
        return NoCommand;
      }
      var snapshot := SnapshotOf(StagedState());
      var meta := NewRequest(Applying);
      failedKind := None;
      overlay := NoOverlay;
      applySnapshot := snapshot;
      assert RequestsState() == Begin(old(RequestsState()), Applying).(failedKind := None);
      command := ApplyCommand(relation.value, snapshot, meta);
    }

    method ApplyFirst() returns (command: Command)
      modifies this
      ensures (State(), command) == ApplyBeforeRefresh(old(State()))
    {
      var ok := ValidateDrafts();
      if !ok {
        overlay := NoOverlay;
        return NoCommand;
      }
      applyReloadFirst := true;
      command := StartApply();
    }

    method RevertAndReload() returns (command: Command)
      modifies this
      ensures (State(), command) == RevertAndRefresh(old(State()))
    {
      ClearChanges();
      command := StartFirstPage();
    }

    /** Where the grid shows the draft or the row of a mutation. */
    method FindRowOf(mutation: Mutation) returns (row: Option<nat>)
      requires relation.Some?
      ensures row == RowOfMutation(relation.value, EditsState(), mutation)
    {
      if mutation.kind == MutationKind.InsertRow {
        row := FindDraft(inserts, mutation.draftId);
        return;
      }
      var key := IdentityKey(relation.value.identity, mutation.original.identity);
      var index := FindPageRow(relation.value.identity, page.rows, key);
      if index.None? {
        return None;
      }
      return Some(|inserts| + index.value);
    }

    method FocusMutationError(failure: Failure)
      modifies this
      ensures State() == FocusFailure(old(State()), failure)
    {
      if relation.None? || failure.mutation.None? || failure.mutation.value < 0 ||
        failure.mutation.value >= |applySnapshot| {
        return;
      }
      var row := FindRowOf(applySnapshot[failure.mutation.value]);
      if row.Some? {
        selectedRow := row.value;
      }
      var column := FindIndex(relation.value.columns, failure.column);
      if column >= 0 {
        selectedColumn := column;
      }
      EnsureVisible();
    }

    // ----- overlays -----

    method Dismiss()
      modifies this
      ensures State() == DismissError(old(State()))
    {
      overlay := NoOverlay;
      failed := false;
      failedKind := None;
      lifecycle := Idle;
    }

    method UpdateOverlayKey(key: Key) returns (command: Command)
      modifies this
      ensures (State(), command) == OverlayKey(old(State()), key)
    {
      command := NoCommand;
      match overlay {
        case NoOverlay =>
        case ApplyOverlay =>
          if key == Enter || key == Character('a') { command := StartApply(); }
          else if key == Esc { overlay := NoOverlay; }
        case RefreshOverlay =>
          if key == Character('a') { command := ApplyFirst(); }
          else if key == Character('r') { command := RevertAndReload(); }
          else if key == Esc { overlay := NoOverlay; }
        case RevertAllOverlay =>
          if key == Enter || key == Character('r') { ClearChanges(); }
          else if key == Esc { overlay := NoOverlay; }
        case ChangesOverlay =>
          if key == Esc || key == Character('v') { overlay := NoOverlay; }
          else if key == Character('a') { RequestApplyConfirmation(); }
        case ErrorOverlay =>
          if key == Esc || key == Enter || key == Character('e') { Dismiss(); }
          else if key == Character('a') {
            Dismiss();
            RequestApplyConfirmation();
          }
      }
    }

    // ----- results -----

    method Described(message: Message) returns (command: Command)
      requires message.RelationDescribed?
      modifies this
      ensures (State(), command) == if Matches(old(State()), Describing, message.meta)
                                    then OnDescribed(old(State()), message.relation) else (old(State()), NoCommand)
    {
      if active != Some(Active(Describing, message.meta)) {
        return NoCommand;
      }
      active := None;
      relation := Some(message.relation);
      selectedColumn := 0;
      failed := false;
      command := StartPage(PageRequest(message.relation.id, "", First, Sort("", false), DEFAULT_PAGE_SIZE), 1);
    }

    method Loaded(message: Message)
      requires message.PageLoaded?
      modifies this
      ensures State() ==
        if Matches(old(State()), Paging, message.meta) then OnPage(old(State()), message.page) else old(State())
    {
      if active != Some(Active(Paging, message.meta)) {
        return;
      }
      active := None;
      page := message.page;
      pageNumber := Max(1, pendingPage);
      selectedRow, rowOffset := 0, 0;
      failed := false;
      lifecycle := Idle;
      reloadAfterApply := None;
    }

    method AppliedAll(message: Message) returns (command: Command)
      requires message.Applied?
      modifies this
      ensures (State(), command) == if Matches(old(State()), Applying, message.meta)
                                    then OnApplied(old(State()), message.result) else (old(State()), NoCommand)
    {
      if active != Some(Active(Applying, message.meta)) {
        return NoCommand;
      }
      active := None;
      ClearChanges();
      failed := false;
      failedKind := None;
      lifecycle := Idle;
      reloadAfterApply := Some(message.result);
      assert State() == AfterApply(old(State()), message.result);
      var request, target := pendingRequest, Max(1, pageNumber);
      if request.relation == NO_RELATION || applyReloadFirst {
        request := PageRequest(relationId, "", First, sort, DEFAULT_PAGE_SIZE);
        target := 1;
      }
      applyReloadFirst := false;
      command := StartPage(request, target);
    }

    method FailedOperation(message: Message)
      requires message.OperationFailed?
      modifies this
      ensures State() == if Matches(old(State()), message.kind, message.meta)
                         then OnFailed(old(State()), message.kind, message.failure) else old(State())
    {
      if active != Some(Active(message.kind, message.meta)) {
        return;
      }
      active := None;
      failed := true;
      failedKind := Some(message.kind);
      lifecycle := Failed;
      ghost var down := old(State()).(io := RequestsState());
      assert State() == down;
      if message.kind == Applying {
        overlay := ErrorOverlay;
        assert State() == down.(overlay := ErrorOverlay);
        FocusMutationError(message.failure);
      }
      if message.failure.cancelled {
        Dismiss();
      }
    }

    // ----- keys, clicks and the wheel -----

    method RunAction(action: Action)
      modifies this
      ensures State() == ActionClick(old(State()), action)
    {
      match action {
        case InsertAction => StageInsert();
        case EditAction => OpenCellEditor();
        case NullAction => StageSpecialValue(NullValue);
        case DefaultAction => StageSpecialValue(DefaultValue);
        case DeleteAction => ToggleDelete();
        case ApplyAction => RequestApplyConfirmation();
        case RevertAction => RevertSelectedRow();
        case RevertAllAction => AskAboutChanges(RevertAllOverlay);
        case ChangesAction => AskAboutChanges(ChangesOverlay);
      }
    }

    method AskAboutChanges(question: Overlay)
      modifies this`overlay
      ensures State() == if Dirty(old(StagedState())) then old(State()).(overlay := question) else old(State())
    {
      var count := CountChanges(StagedState());
      if count > 0 {
        overlay := question;
      }
    }

    method TurnPage(next: bool) returns (command: Command)
      modifies this
      ensures (State(), command) == if next then NextPage(old(State())) else PreviousPage(old(State()))
    {
      command := NoCommand;
      if next && page.next != "" {
        command := StartPage(PageRequest(relationId, page.next, Next, sort, DEFAULT_PAGE_SIZE), pageNumber + 1);
      } else if !next && page.prev != "" {
        command := StartPage(PageRequest(relationId, page.prev, Previous, sort, DEFAULT_PAGE_SIZE),
          Max(1, pageNumber - 1));
      }
    }

    method RefreshPage() returns (command: Command)
      modifies this
      ensures (State(), command) == Refresh(old(State()))
    {
      if failed {
        command := Retry();
        return;
      }
      if relation.None? {
        command := Describe();
        return;
      }
      var count := CountChanges(StagedState());
      if count > 0 {
        overlay := RefreshOverlay;
        return NoCommand;
      }
      command := StartFirstPage();
    }

    method UpdateCharacter(c: char) returns (command: Command)
      modifies this
      ensures (State(), command) == CharacterKey(old(State()), c)
    {
      command := NoCommand;
      match c {
        case 'n' => command := TurnPage(true);
        case 'p' => command := TurnPage(false);
        case 'r' => command := RefreshPage();
        case 's' => command := CycleSort();
        case _ =>
          var action := ActionOf(c);
          if action.Some? {
            RunAction(action.value);
          } else {
            NavigateBy(c);
          }
      }
    }

    method NavigateBy(c: char)
      modifies this
      ensures State() == Navigate(old(State()), c)
    {
      match c {
        case 'k' => MoveRow(-1);
        case 'j' => MoveRow(1);
        case 'h' => MoveColumn(-1);
        case 'l' => MoveColumn(1);
        case 'g' => selectedRow, rowOffset := 0, 0;
        case 'G' => SelectLastRow();
        case _ =>
      }
    }

    method SelectLastRow()
      modifies this
      ensures State() == ToLastRow(old(State()))
    {
      if |page.rows| > 0 {
        selectedRow := |page.rows| - 1;
        EnsureVisible();
      }
    }

    method UpdateGridKey(key: Key) returns (command: Command)
      modifies this
      ensures (State(), command) == GridKey(old(State()), key)
    {
      command := NoCommand;
      match key {
        case Up => MoveRow(-1);
        case Down => MoveRow(1);
        case Left => MoveColumn(-1);
        case Right => MoveColumn(1);
        case Home => selectedRow, rowOffset := 0, 0;
        case End => SelectLastRow();
        case PageDown => command := TurnPage(true);
        case PageUp => command := TurnPage(false);
        case Enter => OpenCellEditor();
        case Character(c) => command := UpdateCharacter(c);
        case _ =>
      }
    }

    /** Keys are gated while an operation is in flight. */
    method UpdateKeyMessage(valid: Validator, key: Key) returns (command: Command)
      modifies this
      ensures (State(), command) == UpdateKey(valid, old(State()), key)
    {
      command := NoCommand;
      if active.Some? {
        if key == CtrlC {
          command := CancelCommand(active.value.meta);
        }
      } else if editor.Some? {
        UpdateEditorKey(valid, key);
      } else if overlay != NoOverlay {
        command := UpdateOverlayKey(key);
      } else {
        command := UpdateGridKey(key);
      }
    }

    method ClickOverlay(target: ClickTarget) returns (command: Command)
      modifies this
      ensures (State(), command) == OverlayClick(old(State()), target)
    {
      command := NoCommand;
      match overlay {
        case ApplyOverlay =>
          if target == OnConfirm { command := StartApply(); }
          else if target == OnDismiss { overlay := NoOverlay; }
        case RefreshOverlay =>
          if target == OnConfirm { command := ApplyFirst(); }
          else if target == OnAlternative { command := RevertAndReload(); }
          else if target == OnDismiss { overlay := NoOverlay; }
        case RevertAllOverlay =>
          if target == OnConfirm { ClearChanges(); }
          else if target == OnDismiss { overlay := NoOverlay; }
        case _ =>
      }
    }

    method SelectCell(row: int, column: Option<nat>)
      modifies this
      ensures State() == CellClick(old(State()), row, column)
    {
      if row < 0 || row >= |inserts| + |page.rows| || relation.None? {
        return;
      }
      selectedRow := row;
      if column.Some? && column.value < |relation.value.columns| {
        selectedColumn := column.value;
      }
      EnsureVisible();
    }

    /** Clicks are not gated. */
    method UpdateClick(target: ClickTarget) returns (command: Command)
      modifies this
      ensures (State(), command) == UpdateMouse(old(State()), target)
    {
      command := NoCommand;
      if relation.None? || editor.Some? {
        return;
      }
      if overlay != NoOverlay {
        command := ClickOverlay(target);
        return;
      }
      match target {
        case OnAction(action) => RunAction(action);
        case OnCell(row, column) => SelectCell(row, column);
        case _ =>
      }
    }

    method Scroll(up: bool, sideways: bool)
      modifies this
      ensures State() == UpdateWheel(old(State()), up, sideways)
    {
      if overlay == ApplyOverlay || overlay == ChangesOverlay {
        return;
      }
      if sideways {
        MoveColumn(if up then -1 else 1);
      } else {
        MoveRow(if up then -3 else 3);
      }
    }

    /** Handles one message as the step function says. */
    method Update(valid: Validator, message: Message) returns (command: Command)
      modifies this
      ensures (State(), command) == Step(valid, old(State()), message)
      ensures old(Valid()) && GridInvariant.Sound(relationId, message) ==> Valid()
    {
      ghost var before := State();
      command := HandleMessage(valid, message);
      if GridInvariant.Sound(relationId, message) { StepKeepsValid(valid, before, message); }
    }

    method HandleMessage(valid: Validator, message: Message) returns (command: Command)
      modifies this
      ensures (State(), command) == Step(valid, old(State()), message)
    {
      command := NoCommand;
      match message {
        case RelationDescribed(_, _) => command := Described(message);
        case PageLoaded(_, _) => Loaded(message);
        case Applied(_, _) => command := AppliedAll(message);
        case OperationFailed(_, _, _) => FailedOperation(message);
        case Paste(content) =>
          if editor.Some? {
            editor := Some(InsertText(editor.value, content));
          }
        case KeyPress(key) => command := UpdateKeyMessage(valid, key);
        case Click(target) => command := UpdateClick(target);
        case Wheel(up, sideways) => Scroll(up, sideways);
        case Resize(h) =>
          height := h;
          EnsureVisible();
      }
    }
  }

  lemma StepKeepsValid(valid: Validator, g: Grid, message: Message)
    requires GridInvariant.Sound(g.edits.relationId, message)
    ensures GridInvariant.Good(g) && GridSelection.OnGrid(g) ==>
              GridInvariant.Good(Step(valid, g, message).0) && GridSelection.OnGrid(Step(valid, g, message).0)
  {
    if GridInvariant.Good(g) && GridSelection.OnGrid(g) {
      GridInvariant.StepKeepsInvariant(valid, g, message);
      GridSelection.StepStaysOnGrid(valid, g, message);
    }
  }

  /** The first draft, and its first required column, without a value. */
  method FindMissingValue(columns: seq<Column>, inserts: seq<Mutation>) returns (missing: Option<(nat, nat)>)
    ensures missing == MissingValue(columns, inserts, 0)
  {
    for i := 0 to |inserts|
      invariant MissingValue(columns, inserts, 0) == MissingValue(columns, inserts, i)
    {
      for k := 0 to |columns|
        invariant MissingColumn(columns, inserts[i].values, 0) == MissingColumn(columns, inserts[i].values, k)
      {
        if !Required(columns[k]) {
          continue;
        }
        if columns[k].name !in inserts[i].values || !inserts[i].values[columns[k].name].Text? {
          return Some((i, k));
        }
      }
    }
    return None;
  }

  method FindDraft(inserts: seq<Mutation>, draftId: nat) returns (index: Option<nat>)
    ensures index == DraftIndex(inserts, draftId, 0)
  {
    for i := 0 to |inserts|
      invariant DraftIndex(inserts, draftId, 0) == DraftIndex(inserts, draftId, i)
    {
      if inserts[i].draftId == draftId {
        return Some(i);
      }
    }
    return None;
  }

  method FindPageRow(identity: seq<string>, rows: seq<Row>, key: string) returns (index: Option<nat>)
    ensures index == PageIndex(identity, rows, key, 0)
  {
    for i := 0 to |rows|
      invariant PageIndex(identity, rows, key, 0) == PageIndex(identity, rows, key, i)
    {
      var rowKey := IdentityKey(identity, rows[i].identity);
      if rowKey == key {
        return Some(i);
      }
    }
    return None;
  }

  /** Where a column of that name is, by a linear search, or -1. */
  method FindIndex(columns: seq<Column>, name: string) returns (index: int)
    ensures index == ColumnIndex(columns, name)
  {
    for i := 0 to |columns|
      invariant forall j :: 0 <= j < i ==> columns[j].name != name
    {
      if columns[i].name == name {
        IndexIsFirst(columns, name, i);
        return i;
      }
    }
    assert forall j :: 0 <= j < |columns| ==> columns[j].name != name;
    return -1;
  }

  lemma {:induction false} IndexIsFirst(columns: seq<Column>, name: string, i: nat)
    requires i < |columns| && columns[i].name == name && forall j :: 0 <= j < i ==> columns[j].name != name
    ensures ColumnIndex(columns, name) == i
  {
    if i > 0 {
      assert columns[0].name != name;
      IndexIsFirst(columns[1..], name, i - 1);
    }
  }
}
