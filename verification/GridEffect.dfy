/** What each key, click and result does to a table tab, in the user's terms. */
module GridEffect {
  import opened Relations
  import opened GridData
  import opened IdentityKeys
  import opened Staging
  import opened GridState

  /** Nothing runs, no editor and no overlay is open. */
  predicate Calm(g: Grid) { !Busy(g) && g.edits.editor.None? && g.overlay == NoOverlay }

  /** Only the selection and the scrolling differ. */
  predicate OnlyView(g: Grid, h: Grid) {
    h == g.(view := h.view) && h.view.height == g.view.height && h.view.sort == g.view.sort &&
    h.view.pageNumber == g.view.pageNumber
  }

  predicate InView(view: Cursor) { view.rowOffset <= view.row < view.rowOffset + Max(1, view.height - 6) }

  /** Nothing is staged any more; draft numbers are not used again. */
  predicate Emptied(before: Staged, after: Staged) {
    after.inserts == [] && after.updates == map[] && after.deletes == map[] && after.nextDraft == before.nextDraft
  }

  // ----- moving -----

  /** The row `delta` rows on, or the first or last where there are not that many. */
  predicate RowMoved(g: Grid, h: Grid, delta: int) {
    OnlyView(g, h) && h.view.column == g.view.column &&
    (Total(g) == 0 ==> h.view == g.view) &&
    (Total(g) > 0 && 0 <= g.view.row + delta < Total(g) ==> h.view.row == g.view.row + delta && InView(h.view)) &&
    (Total(g) > 0 && g.view.row + delta < 0 ==> h.view.row == 0 && InView(h.view)) &&
    (Total(g) > 0 && g.view.row + delta >= Total(g) ==> h.view.row == Total(g) - 1 && InView(h.view))
  }

  predicate ColumnMoved(g: Grid, h: Grid, delta: int) {
    OnlyView(g, h) && h.view.row == g.view.row && h.view.rowOffset == g.view.rowOffset &&
    (g.edits.relation.None? || g.edits.relation.value.columns == [] ==> h.view == g.view) &&
    (g.edits.relation.Some? && g.edits.relation.value.columns != [] ==>
       var last := |g.edits.relation.value.columns| - 1;
       h.view.column == if g.view.column + delta < 0 then 0 else if g.view.column + delta > last then last
                        else g.view.column + delta)
  }

  lemma RowsMove(g: Grid, delta: int)
    ensures RowMoved(g, MoveRow(g, delta), delta)
  {
  }

  lemma ColumnsMove(g: Grid, delta: int)
    ensures ColumnMoved(g, MoveColumn(g, delta), delta)
  {
  }

  lemma ArrowsMove(valid: Validator, g: Grid)
    requires Calm(g)
    ensures RowMoved(g, Step(valid, g, KeyPress(Up)).0, -1) && RowMoved(g, Step(valid, g, KeyPress(Down)).0, 1)
    ensures ColumnMoved(g, Step(valid, g, KeyPress(Left)).0, -1) && ColumnMoved(g, Step(valid, g, KeyPress(Right)).0, 1)
  {
    RowsMove(g, -1);
    RowsMove(g, 1);
    ColumnsMove(g, -1);
    ColumnsMove(g, 1);
  }

  lemma CalmKey(valid: Validator, g: Grid, key: Key)
    requires Calm(g)
    ensures Step(valid, g, KeyPress(key)) == GridKey(g, key)
  {
  }

  lemma LettersNavigate(g: Grid, c: char)
    requires c == 'k' || c == 'j' || c == 'h' || c == 'l' || c == 'g' || c == 'G'
    ensures GridKey(g, Character(c)) == (Navigate(g, c), NoCommand)
  {
  }

  lemma NavigationIs(g: Grid)
    ensures Navigate(g, 'k') == MoveRow(g, -1) && Navigate(g, 'j') == MoveRow(g, 1)
    ensures Navigate(g, 'h') == MoveColumn(g, -1) && Navigate(g, 'l') == MoveColumn(g, 1)
    ensures Navigate(g, 'g') == ToTop(g) && Navigate(g, 'G') == ToLastRow(g)
  {
  }

  lemma RowLettersMove(valid: Validator, g: Grid)
    requires Calm(g)
    ensures RowMoved(g, Step(valid, g, KeyPress(Character('k'))).0, -1)
    ensures RowMoved(g, Step(valid, g, KeyPress(Character('j'))).0, 1)
  {
    CalmKey(valid, g, Character('k'));
    LettersNavigate(g, 'k');
    CalmKey(valid, g, Character('j'));
    LettersNavigate(g, 'j');
    NavigationIs(g);
    RowsMove(g, -1);
    RowsMove(g, 1);
  }

  lemma ColumnLettersMove(valid: Validator, g: Grid)
    requires Calm(g)
    ensures ColumnMoved(g, Step(valid, g, KeyPress(Character('h'))).0, -1)
    ensures ColumnMoved(g, Step(valid, g, KeyPress(Character('l'))).0, 1)
  {
    CalmKey(valid, g, Character('h'));
    LettersNavigate(g, 'h');
    CalmKey(valid, g, Character('l'));
    LettersNavigate(g, 'l');
    NavigationIs(g);
    ColumnsMove(g, -1);
    ColumnsMove(g, 1);
  }

  /** Home goes to the first row. */
  lemma HomeMoves(valid: Validator, g: Grid, key: Key)
    requires Calm(g) && (key == Home || key == Character('g'))
    ensures
      var h := Step(valid, g, KeyPress(key)).0;
      OnlyView(g, h) && h.view.row == 0 && h.view.rowOffset == 0 && h.view.column == g.view.column
  {
    CalmKey(valid, g, key);
    LettersNavigate(g, 'g');
    NavigationIs(g);
  }

  /** End goes to the row whose index is that of the page's last. */
  lemma EndMoves(valid: Validator, g: Grid, key: Key)
    requires Calm(g) && (key == End || key == Character('G'))
    ensures
      var h := Step(valid, g, KeyPress(key)).0;
      OnlyView(g, h) && h.view.column == g.view.column &&
      if |g.edits.page.rows| == 0 then h == g else h.view.row == |g.edits.page.rows| - 1 && InView(h.view)
  {
    CalmKey(valid, g, key);
    LettersNavigate(g, 'G');
    NavigationIs(g);
  }

  lemma WheelMoves(valid: Validator, g: Grid, up: bool)
    requires g.overlay != ApplyOverlay && g.overlay != ChangesOverlay
    ensures RowMoved(g, Step(valid, g, Wheel(up, false)).0, if up then -3 else 3)
    ensures ColumnMoved(g, Step(valid, g, Wheel(up, true)).0, if up then -1 else 1)
  {
    RowsMove(g, if up then -3 else 3);
    ColumnsMove(g, if up then -1 else 1);
  }

  /** The wheel leaves the selection alone while the question before an apply or the list of
      changes is open. */
  lemma WheelRests(valid: Validator, g: Grid, up: bool, sideways: bool)
    requires g.overlay == ApplyOverlay || g.overlay == ChangesOverlay
    ensures Step(valid, g, Wheel(up, sideways)) == (g, NoCommand)
  {
  }

  /** A click on a cell selects it. */
  lemma CellClickSelects(valid: Validator, g: Grid, row: int, column: Option<nat>)
    requires g.edits.relation.Some? && g.edits.editor.None? && g.overlay == NoOverlay && 0 <= row < Total(g)
    ensures
      var h := Step(valid, g, Click(OnCell(row, column))).0;
      OnlyView(g, h) && h.view.row == row && InView(h.view) &&
      h.view.column ==
        if column.Some? && column.value < |g.edits.relation.value.columns| then column.value else g.view.column
  {
  }

  /** A change of height keeps the selection, and keeps it in view. */
  lemma ResizeKeepsSelection(valid: Validator, g: Grid, height: int)
    ensures
      var h := Step(valid, g, Resize(height)).0;
      h == g.(view := g.view.(height := height, rowOffset := h.view.rowOffset)) &&
      (0 <= g.view.row < Total(g) ==> InView(h.view))
  {
  }

  // ----- asking for pages -----

  /** The step asks for a page, and remembers what it asked for. */
  predicate Asks(h: Grid, command: Command, request: PageRequest<string>, target: int) {
    h.edits.relation.Some? && h.io.pending == request && h.io.pendingPage == target && Busy(h) &&
    command == LoadPageCommand(h.edits.relation.value, request, ActiveMeta(h.io)) && ActiveMeta(h.io).kind == Paging
  }

  /** Next and Previous ask for the page at that cursor, in that direction, under the chosen
      sort, and count pages on and back. */
  lemma TurningAsks(valid: Validator, g: Grid, forward: bool, key: Key)
    requires Calm(g) && g.edits.relation.Some?
    requires if forward then key == PageDown || key == Character('n') else key == PageUp || key == Character('p')
    ensures
      var (h, command) := Step(valid, g, KeyPress(key));
      var cursor := if forward then g.edits.page.next else g.edits.page.prev;
      if cursor == "" then h == g && command == NoCommand
      else
        Asks(h, command, PageRequest(g.edits.relationId, cursor, if forward then Next else Previous, g.view.sort, 100),
             if forward then g.view.pageNumber + 1 else Max(1, g.view.pageNumber - 1)) &&
        h == g.(io := h.io)
  {
  }

  predicate AsksFirst(g: Grid, h: Grid, command: Command) {
    Asks(h, command, PageRequest(g.edits.relationId, "", First, h.view.sort, 100), 1)
  }

  /** The sort key sorts the selected column ascending, then descending, then not at all, and
      asks for page one; a column that cannot be sorted is left alone. */
  lemma SortingAsks(valid: Validator, g: Grid)
    requires Calm(g) && g.edits.relation.Some? && g.view.column < |g.edits.relation.value.columns|
    ensures
      var (h, command) := Step(valid, g, KeyPress(Character('s')));
      var column := g.edits.relation.value.columns[g.view.column];
      if !column.sortable then h == g && command == NoCommand
      else
        AsksFirst(g, h, command) && h.edits == g.edits &&
        h.view == g.view.(sort :=
          if g.view.sort.column == column.name
          then (if g.view.sort.ascending then Sort(column.name, false) else Sort("", false))
          else Sort(column.name, true))
  {
  }

  /** Refresh asks for page one; with unsent changes it asks the user first; after a failure it
      repeats what failed. */
  lemma RefreshingAsks(valid: Validator, g: Grid)
    requires Calm(g) && g.edits.relation.Some?
    ensures
      var (h, command) := Step(valid, g, KeyPress(Character('r')));
      if g.io.failed then
        g.io.pending.relation != NO_RELATION ==>
          Asks(h, command, g.io.pending, Max(1, g.io.pendingPage)) && h.edits == g.edits
      else if Dirty(g.edits.staged) then h == g.(overlay := RefreshOverlay) && command == NoCommand
      else AsksFirst(g, h, command) && h.edits == g.edits && h.view == g.view
  {
  }

  // ----- results -----

  /** Metadata that was asked for becomes known, and page one is asked for, unsorted. */
  lemma MetadataArrives(valid: Validator, g: Grid, relation: Relation, meta: Meta)
    requires Matches(g, Describing, meta)
    ensures
      var (h, command) := Step(valid, g, RelationDescribed(relation, meta));
      h.edits == g.edits.(relation := Some(relation)) && h.view.column == 0 && h.view.row == g.view.row &&
      Asks(h, command, PageRequest(relation.id, "", First, Sort("", false), 100), 1)
  {
  }

  /** A page that was asked for is shown from its first row, under its number. */
  lemma PageArrives(valid: Validator, g: Grid, page: Page, meta: Meta)
    requires Matches(g, Paging, meta)
    ensures
      var (h, command) := Step(valid, g, PageLoaded(page, meta));
      h.edits == g.edits.(page := page) && h.view.row == 0 && h.view.rowOffset == 0 &&
      h.view.pageNumber == Max(1, g.io.pendingPage) && h.view.sort == g.view.sort && !Busy(h) && !h.io.failed &&
      h.io.lifecycle == Idle && h.apply.reloaded.None? && command == NoCommand
  {
  }

  /** After a successful apply nothing is staged, and the page last asked for is loaded again. */
  lemma ApplyArrives(valid: Validator, g: Grid, result: ApplyResult, meta: Meta)
    requires Matches(g, Applying, meta) && g.edits.relation.Some?
    ensures
      var (h, command) := Step(valid, g, Applied(result, meta));
      Emptied(g.edits.staged, h.edits.staged) && h.edits.editor.None? && h.edits.page == g.edits.page &&
      h.overlay == NoOverlay && h.apply.reloaded == Some(result) && !h.io.failed &&
      if g.io.pending.relation == NO_RELATION then AsksFirst(g, h, command)
      else Asks(h, command, g.io.pending, Max(1, g.view.pageNumber))
  {
  }

  /** A failure ends the operation and keeps everything staged. A cancelled one shows nothing;
      any other is shown as failed, a failed apply with its error. */
  lemma FailureArrives(valid: Validator, g: Grid, kind: OperationKind, failure: Failure, meta: Meta)
    requires Matches(g, kind, meta)
    ensures
      var (h, command) := Step(valid, g, OperationFailed(kind, failure, meta));
      h.edits == g.edits && !Busy(h) && command == NoCommand && h.io.pending == g.io.pending &&
      if failure.cancelled then !h.io.failed && h.io.lifecycle == Idle && h.overlay == NoOverlay
      else h.io.failed && h.io.failedKind == Some(kind) && h.io.lifecycle == Failed &&
           h.overlay == if kind == Applying then ErrorOverlay else g.overlay
  {
  }

  predicate FirstNamed(columns: seq<Column>, name: string, i: nat) {
    i < |columns| && columns[i].name == name && forall j :: 0 <= j < i ==> columns[j].name != name
  }

  predicate NoneNamed(columns: seq<Column>, name: string) {
    forall j :: 0 <= j < |columns| ==> columns[j].name != name
  }

  lemma {:induction false} ColumnIndexIsFirst(columns: seq<Column>, name: string)
    ensures
      var i := ColumnIndex(columns, name);
      if i < 0 then NoneNamed(columns, name) else FirstNamed(columns, name, i)
  {
    if columns != [] {
      ColumnIndexIsFirst(columns[1..], name);
      assert columns == [columns[0]] + columns[1..];
    }
  }

  /** The column selected after a failed apply is the one the failure names, if the table has
      it. */
  lemma FailureSelectsColumn(valid: Validator, g: Grid, failure: Failure, meta: Meta, i: nat)
    requires Matches(g, Applying, meta) && g.edits.relation.Some? && failure.mutation.Some? &&
      0 <= failure.mutation.value < |g.apply.snapshot|
    ensures
      var h := Step(valid, g, OperationFailed(Applying, failure, meta)).0;
      (FirstNamed(g.edits.relation.value.columns, failure.column, i) ==> h.view.column == i) &&
      (NoneNamed(g.edits.relation.value.columns, failure.column) ==> h.view.column == g.view.column)
  {
    ColumnIndexIsFirst(g.edits.relation.value.columns, failure.column);
    var k := ColumnIndex(g.edits.relation.value.columns, failure.column);
    FailedIsFocused(valid, g, failure, meta);
    FocusedColumn(g.(io := g.io.(active := None, failed := true, failedKind := Some(Applying), lifecycle := Failed),
                     overlay := ErrorOverlay), failure, k);
  }

  lemma FocusedColumn(g: Grid, failure: Failure, k: int)
    requires g.edits.relation.Some? && failure.mutation.Some? && 0 <= failure.mutation.value < |g.apply.snapshot|
    requires k == ColumnIndex(g.edits.relation.value.columns, failure.column)
    ensures FocusFailure(g, failure).view.column == if k < 0 then g.view.column else k
  {
  }

  lemma FailedIsFocused(valid: Validator, g: Grid, failure: Failure, meta: Meta)
    requires Matches(g, Applying, meta)
    ensures
      var down := g.(io := g.io.(active := None, failed := true, failedKind := Some(Applying), lifecycle := Failed),
                     overlay := ErrorOverlay);
      Step(valid, g, OperationFailed(Applying, failure, meta)).0.view == FocusFailure(down, failure).view
  {
  }

  /** Control-C cancels the operation that runs; no other key does anything while one runs. */
  lemma KeysWhileBusy(valid: Validator, g: Grid, key: Key)
    requires Busy(g)
    ensures Step(valid, g, KeyPress(key)) == (g, if key == CtrlC then CancelCommand(ActiveMeta(g.io)) else NoCommand)
  {
  }
}
