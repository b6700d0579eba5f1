/** The state of a table tab and what each message does to it. */
module GridState {
  import opened Relations
  import opened GridData
  import opened IdentityKeys
  import opened Staging

  datatype Lifecycle = Idle | Running | Failed

  datatype OperationKind = Describing | Paging | Applying

  /** Everything that identifies a request; the operation name repeats kind, tab and number. */
  datatype Meta = Meta(workspace: string, tab: string, kind: OperationKind, request: nat)

  datatype Active = Active(kind: OperationKind, meta: Meta)

  datatype Overlay = NoOverlay | ApplyOverlay | RefreshOverlay | RevertAllOverlay | ChangesOverlay | ErrorOverlay

  /** What the reducer reads off an operation's error. */
  datatype Failure = Failure(mutation: Option<int>, column: string, cancelled: bool)

  datatype CellEditor = CellEditor(row: int, column: nat, buffer: string, cursor: int)

  /** What staging and editing work on. */
  datatype Edits = Edits(
    relationId: RelationId, relation: Option<Relation>, page: Page, staged: Staged, editor: Option<CellEditor>)

  /** The operation in flight, how it is shown, and the page request it or the last one was for. */
  datatype Requests = Requests(
    workspace: string, tab: string, next: nat, active: Option<Active>, lifecycle: Lifecycle, failed: bool,
    failedKind: Option<OperationKind>, pending: PageRequest<string>, pendingPage: int)

  datatype Cursor = Cursor(height: int, row: int, column: nat, rowOffset: int, pageNumber: int, sort: Sort)

  /** What an apply was started with and what to do when it succeeds. */
  datatype Apply = Apply(snapshot: seq<Mutation>, reloadFirst: bool, reloaded: Option<ApplyResult>)

  datatype Grid = Grid(edits: Edits, io: Requests, view: Cursor, overlay: Overlay, apply: Apply)

  datatype Key =
    | Up | Down | Left | Right | Home | End | PageUp | PageDown | Enter | Esc | Backspace | Delete
    | CtrlA | CtrlC | CtrlE | Character(c: char) | OtherKey

  datatype Action =
    | InsertAction | EditAction | NullAction | DefaultAction | DeleteAction | ApplyAction
    | RevertAction | RevertAllAction | ChangesAction

  /** A left click, resolved to what lies under it. */
  datatype ClickTarget =
    | OnAction(action: Action)
    | OnCell(row: int, column: Option<nat>)
    | OnConfirm
    | OnAlternative
    | OnDismiss
    | Elsewhere

  datatype Message =
    | RelationDescribed(relation: Relation, meta: Meta)
    | PageLoaded(page: Page, meta: Meta)
    | Applied(result: ApplyResult, meta: Meta)
    | OperationFailed(kind: OperationKind, failure: Failure, meta: Meta)
    | Paste(content: string)
    | KeyPress(key: Key)
    | Click(target: ClickTarget)
    | Wheel(up: bool, sideways: bool)
    | Resize(height: int)

  datatype Command =
    | NoCommand
    | DescribeCommand(relationId: RelationId, meta: Meta)
    | LoadPageCommand(relation: Relation, request: PageRequest<string>, meta: Meta)
    | ApplyCommand(relation: Relation, mutations: seq<Mutation>, meta: Meta)
    | CancelCommand(meta: Meta)

  /** Client-side validation of typed text for a column. */
  type Validator = (Column, string) -> bool

  const NO_PAGE_REQUEST := PageRequest(NO_RELATION, "", Unspecified, Sort("", false), 0)

  function NewGrid(workspace: string, tab: string, relationId: RelationId): Grid {
    Grid(Edits(relationId, None, NO_PAGE, NOTHING_STAGED, None),
         Requests(workspace, tab, 1, None, Idle, false, None, NO_PAGE_REQUEST, 0),
         Cursor(0, 0, 0, 0, 0, Sort("", false)), NoOverlay, Apply([], false, None))
  }

  predicate Busy(g: Grid) { g.io.active.Some? }

  function Total(g: Grid): nat { TotalRows(g.edits.staged, g.edits.page) }

  function ActiveMeta(io: Requests): Meta
    requires io.active.Some?
  {
    io.active.value.meta
  }

  predicate Matches(g: Grid, kind: OperationKind, meta: Meta) {
    g.io.active == Some(Active(kind, meta))
  }

  // ----- requests -----

  function Begin(io: Requests, kind: OperationKind): (r: Requests)
    ensures r.active.Some?
  {
    io.(active := Some(Active(kind, Meta(io.workspace, io.tab, kind, io.next))), next := io.next + 1,
        lifecycle := Running, failed := false)
  }

  function Describe(g: Grid): (Grid, Command) {
    var io := Begin(g.io, Describing);
    (g.(io := io), DescribeCommand(g.edits.relationId, ActiveMeta(io)))
  }

  function StartPage(g: Grid, request: PageRequest<string>, target: int): (Grid, Command) {
    if g.edits.relation.None? then Describe(g)
    else
      var io := Begin(g.io, Paging).(pending := request, pendingPage := target);
      (g.(io := io), LoadPageCommand(g.edits.relation.value, request, ActiveMeta(io)))
  }

  function FirstPageRequest(g: Grid): PageRequest<string> {
    PageRequest(g.edits.relationId, "", First, g.view.sort, DEFAULT_PAGE_SIZE)
  }

  function Retry(g: Grid): (Grid, Command) {
    if g.edits.relation.None? || g.io.pending.relation == NO_RELATION then Describe(g)
    else StartPage(g, g.io.pending, Max(1, g.io.pendingPage))
  }

  // ----- rows in view -----

  function VisibleRows(view: Cursor): int { Max(1, view.height - 6) }

  function EnsureRowVisible(view: Cursor, total: nat): Cursor {
    var visible := VisibleRows(view);
    var up := if view.row < view.rowOffset then view.row else view.rowOffset;
    var down := if view.row >= up + visible then view.row - visible + 1 else up;
    view.(rowOffset := Min(Max(0, total - visible), Max(0, down)))
  }

  function MoveRow(g: Grid, delta: int): Grid {
    if Total(g) == 0 then g
    else g.(view := EnsureRowVisible(g.view.(row := Min(Total(g) - 1, Max(0, g.view.row + delta))), Total(g)))
  }

  function MoveColumn(g: Grid, delta: int): Grid {
    if g.edits.relation.None? || g.edits.relation.value.columns == [] then g
    else g.(view := g.view.(column := Min(|g.edits.relation.value.columns| - 1, Max(0, g.view.column + delta))))
  }

  function ToLastRow(g: Grid): Grid {
    if |g.edits.page.rows| > 0 then g.(view := EnsureRowVisible(g.view.(row := |g.edits.page.rows| - 1), Total(g)))
    else g
  }

  function ToTop(g: Grid): Grid { g.(view := g.view.(row := 0, rowOffset := 0)) }

  // ----- staging -----

  /** The row a grid index refers to. */
  function RefAt(e: Edits, index: int): Option<RowRef> {
    if e.relation.None? then None else RowReferenceAt(e.relation.value, e.staged, e.page, index)
  }

  function ClearChanges(g: Grid): Grid {
    Grid(g.edits.(staged := ClearStaged(g.edits.staged), editor := None), g.io,
         g.view.(row := Min(Max(0, |g.edits.page.rows| - 1), Max(0, g.view.row))), NoOverlay,
         g.apply.(snapshot := [], reloadFirst := false))
  }

  function AddDraft(g: Grid): Grid {
    if g.edits.relation.None? || !g.edits.relation.value.canInsert then g
    else g.(edits := g.edits.(staged := StageInsert(g.edits.staged)),
            view := g.view.(row := |g.edits.staged.inserts|, rowOffset := 0))
  }

  function DropDraft(g: Grid, index: nat): Grid
    requires index < |g.edits.staged.inserts|
  {
    var h := g.(edits := g.edits.(staged := RemoveDraft(g.edits.staged, index)));
    h.(view := h.view.(row := Min(Max(0, Total(h) - 1), h.view.row)))
  }

  function ToggleDeleteSelected(g: Grid): Grid {
    var ref := RefAt(g.edits, g.view.row);
    if ref.None? then g
    else if ref.value.insert then
      (if ref.value.insertIdx < |g.edits.staged.inserts| then DropDraft(g, ref.value.insertIdx) else g)
    else if !g.edits.relation.value.canDelete then g
    else g.(edits := g.edits.(staged := ToggleDelete(g.edits.staged, ref.value)))
  }

  function RevertSelected(g: Grid): Grid {
    var ref := RefAt(g.edits, g.view.row);
    if ref.None? then g
    else if ref.value.insert then
      (if ref.value.insertIdx < |g.edits.staged.inserts| then DropDraft(g, ref.value.insertIdx) else g)
    else g.(edits := g.edits.(staged := RevertRow(g.edits.staged, ref.value)))
  }

  predicate EditableAt(e: Edits, ref: RowRef, column: nat) {
    e.relation.Some? && column < |e.relation.value.columns| &&
    (ref.insert || ref.key !in e.staged.deletes) &&
    ColumnWritable(e.relation.value, ref.insert, e.relation.value.columns[column])
  }

  function OpenEditor(e: Edits, row: int, column: nat): Edits {
    var ref := RefAt(e, row);
    if ref.None? || !EditableAt(e, ref.value, column) ||
      (ref.value.insert && ref.value.insertIdx >= |e.staged.inserts|) then e
    else
      var cell := CellAt(e.relation.value, e.staged, ref.value, column);
      var buffer := if cell.isNull || cell.display == "DEFAULT" then "" else cell.edit;
      e.(editor := Some(CellEditor(row, column, buffer, |buffer|)))
  }

  function StageAt(e: Edits, ref: RowRef, column: nat, value: StagedValue): Edits
    requires e.relation.Some? && column < |e.relation.value.columns|
  {
    if ref.insert && ref.insertIdx >= |e.staged.inserts| then e
    else e.(staged := StageValue(e.relation.value, e.staged, ref, e.relation.value.columns[column].name, value))
  }

  function CommitEditor(valid: Validator, e: Edits): Edits
    requires e.editor.Some?
  {
    var editor := e.editor.value;
    var ref := RefAt(e, editor.row);
    if ref.None? || editor.column >= |e.relation.value.columns| then e.(editor := None)
    else if !valid(e.relation.value.columns[editor.column], editor.buffer) then e
    else StageAt(e, ref.value, editor.column, Text(editor.buffer)).(editor := None)
  }

  function StageSpecial(e: Edits, row: int, column: nat, value: StagedValue): Edits {
    var ref := RefAt(e, row);
    if ref.None? || !EditableAt(e, ref.value, column) then e
    else
      var c := e.relation.value.columns[column];
      if value == NullValue && !c.nullable then e
      else if value == DefaultValue && !c.hasDefault && !c.nullable then e
      else StageAt(e, ref.value, column, value)
  }

  // ----- editing a cell -----

  function InsertText(e: CellEditor, text: string): CellEditor {
    var position := Min(|e.buffer|, Max(0, e.cursor));
    e.(buffer := e.buffer[..position] + text + e.buffer[position..], cursor := position + |text|)
  }

  function DeleteBefore(e: CellEditor): CellEditor {
    var position := Min(|e.buffer|, Max(0, e.cursor));
    if position > 0 then e.(buffer := e.buffer[..position - 1] + e.buffer[position..], cursor := e.cursor - 1) else e
  }

  function DeleteAfter(e: CellEditor): CellEditor {
    var position := Min(|e.buffer|, Max(0, e.cursor));
    if position < |e.buffer| then e.(buffer := e.buffer[..position] + e.buffer[position + 1..]) else e
  }

  /** Keys that stay within the buffer. */
  function BufferKey(e: CellEditor, key: Key): CellEditor {
    match key
    case Left => e.(cursor := Max(0, e.cursor - 1))
    case Right => e.(cursor := Min(|e.buffer|, e.cursor + 1))
    case Home => e.(cursor := 0)
    case CtrlA => e.(cursor := 0)
    case End => e.(cursor := |e.buffer|)
    case CtrlE => e.(cursor := |e.buffer|)
    case Backspace => DeleteBefore(e)
    case Delete => DeleteAfter(e)
    case Character(c) => InsertText(e, [c])
    case _ => e
  }

  function EditorKey(valid: Validator, e: Edits, key: Key): Edits
    requires e.editor.Some?
  {
    if key == Esc then e.(editor := None)
    else if key == Enter then CommitEditor(valid, e)
    else e.(editor := Some(BufferKey(e.editor.value, key)))
  }

  // ----- apply -----

  predicate Required(column: Column) {
    !column.nullable && !column.hasDefault && !column.generated && !column.identity
  }

  /** The first required column, from `k` on, for which a draft supplies no value. */
  function MissingColumn(columns: seq<Column>, values: map<string, StagedValue>, k: nat): Option<nat>
    requires k <= |columns|
    decreases |columns| - k
  {
    if k == |columns| then None
    else if Required(columns[k]) && (columns[k].name !in values || !values[columns[k].name].Text?) then Some(k)
    else MissingColumn(columns, values, k + 1)
  }

  /** The first draft, from `i` on, that misses a required value, and its column. */
  function MissingValue(columns: seq<Column>, inserts: seq<Mutation>, i: nat): Option<(nat, nat)>
    requires i <= |inserts|
    decreases |inserts| - i
  {
    if i == |inserts| then None
    else
      var missing := MissingColumn(columns, inserts[i].values, 0);
      if missing.Some? then Some((i, missing.value)) else MissingValue(columns, inserts, i + 1)
  }

  predicate ChangesValid(e: Edits) {
    e.relation.Some? && MissingValue(e.relation.value.columns, e.staged.inserts, 0).None?
  }

  /** Failed validation moves the selection to the missing value. */
  function ValidateChanges(g: Grid): Grid {
    if g.edits.relation.None? then g
    else
      var missing := MissingValue(g.edits.relation.value.columns, g.edits.staged.inserts, 0);
      if missing.None? then g else g.(view := g.view.(row := missing.value.0, column := missing.value.1))
  }

  function RequestApply(g: Grid): Grid {
    if !Dirty(g.edits.staged) then g
    else if !ChangesValid(g.edits) then ValidateChanges(g)
    else g.(overlay := ApplyOverlay, apply := g.apply.(reloadFirst := false))
  }

  ghost function StartApply(g: Grid): (Grid, Command) {
    if g.edits.relation.None? || !Dirty(g.edits.staged) then (g, NoCommand)
    else
      var io := Begin(g.io, Applying).(failedKind := None);
      var snapshot := Snapshot(g.edits.staged);
      (g.(io := io, overlay := NoOverlay, apply := g.apply.(snapshot := snapshot)),
       ApplyCommand(g.edits.relation.value, snapshot, ActiveMeta(io)))
  }

  /** "Apply" on the refresh question. */
  ghost function ApplyBeforeRefresh(g: Grid): (Grid, Command) {
    if !ChangesValid(g.edits) then (ValidateChanges(g).(overlay := NoOverlay), NoCommand)
    else StartApply(g.(apply := g.apply.(reloadFirst := true)))
  }

  function RevertAndRefresh(g: Grid): (Grid, Command) {
    var h := ClearChanges(g);
    StartPage(h, FirstPageRequest(h), 1)
  }

  // ----- focusing the mutation that failed -----

  function DraftIndex(inserts: seq<Mutation>, draftId: nat, i: nat): Option<nat>
    requires i <= |inserts|
    decreases |inserts| - i
  {
    if i == |inserts| then None
    else if inserts[i].draftId == draftId then Some(i)
    else DraftIndex(inserts, draftId, i + 1)
  }

  function PageIndex(identity: seq<string>, rows: seq<Row>, key: string, i: nat): Option<nat>
    requires i <= |rows|
    decreases |rows| - i
  {
    if i == |rows| then None
    else if IdentityKeys.Key(identity, rows[i].identity) == key then Some(i)
    else PageIndex(identity, rows, key, i + 1)
  }

  /** Where the grid shows the row of a mutation, if it does. */
  function RowOfMutation(relation: Relation, e: Edits, m: Mutation): Option<nat> {
    if m.kind == MutationKind.InsertRow then DraftIndex(e.staged.inserts, m.draftId, 0)
    else
      var at := PageIndex(relation.identity, e.page.rows, IdentityKeys.Key(relation.identity, m.original.identity), 0);
      if at.None? then None else Some(|e.staged.inserts| + at.value)
  }

  function FocusFailure(g: Grid, failure: Failure): Grid {
    if g.edits.relation.None? || failure.mutation.None? || failure.mutation.value < 0 ||
       failure.mutation.value >= |g.apply.snapshot| then g
    else
      var row := RowOfMutation(g.edits.relation.value, g.edits, g.apply.snapshot[failure.mutation.value]);
      var column := ColumnIndex(g.edits.relation.value.columns, failure.column);
      g.(view := EnsureRowVisible(
           g.view.(row := if row.None? then g.view.row else row.value,
                   column := if column < 0 then g.view.column else column), Total(g)))
  }

  // ----- keys -----

  function DismissError(g: Grid): Grid {
    g.(overlay := NoOverlay, io := g.io.(failed := false, failedKind := None, lifecycle := Idle))
  }

  function HideOverlay(g: Grid): Grid { g.(overlay := NoOverlay) }

  ghost function OverlayKey(g: Grid, key: Key): (Grid, Command) {
    match g.overlay
    case NoOverlay => (g, NoCommand)
    case ApplyOverlay =>
      if key == Enter || key == Character('a') then StartApply(g)
      else (if key == Esc then HideOverlay(g) else g, NoCommand)
    case RefreshOverlay =>
      if key == Character('a') then ApplyBeforeRefresh(g)
      else if key == Character('r') then RevertAndRefresh(g)
      else (if key == Esc then HideOverlay(g) else g, NoCommand)
    case RevertAllOverlay =>
      (if key == Enter || key == Character('r') then ClearChanges(g) else if key == Esc then HideOverlay(g) else g,
       NoCommand)
    case ChangesOverlay =>
      (if key == Esc || key == Character('v') then HideOverlay(g)
       else if key == Character('a') then RequestApply(g) else g, NoCommand)
    case ErrorOverlay =>
      (if key == Esc || key == Enter || key == Character('e') then DismissError(g)
       else if key == Character('a') then RequestApply(DismissError(g)) else g, NoCommand)
  }

  function NextSort(sort: Sort, column: string): Sort {
    if sort.column != column then Sort(column, true)
    else if sort.ascending then Sort(column, false)
    else Sort("", false)
  }

  function CycleSort(g: Grid): (Grid, Command) {
    if g.edits.relation.None? || g.view.column >= |g.edits.relation.value.columns| then (g, NoCommand)
    else
      var column := g.edits.relation.value.columns[g.view.column];
      if !column.sortable then (g, NoCommand)
      else
        var h := g.(view := g.view.(sort := NextSort(g.view.sort, column.name)));
        StartPage(h, FirstPageRequest(h), 1)
  }

  function NextPage(g: Grid): (Grid, Command) {
    if g.edits.page.next == "" then (g, NoCommand)
    else StartPage(g, PageRequest(g.edits.relationId, g.edits.page.next, Next, g.view.sort, DEFAULT_PAGE_SIZE),
                   g.view.pageNumber + 1)
  }

  function PreviousPage(g: Grid): (Grid, Command) {
    if g.edits.page.prev == "" then (g, NoCommand)
    else StartPage(g, PageRequest(g.edits.relationId, g.edits.page.prev, Previous, g.view.sort, DEFAULT_PAGE_SIZE),
                   Max(1, g.view.pageNumber - 1))
  }

  function Refresh(g: Grid): (Grid, Command) {
    if g.io.failed then Retry(g)
    else if g.edits.relation.None? then Describe(g)
    else if Dirty(g.edits.staged) then (g.(overlay := RefreshOverlay), NoCommand)
    else StartPage(g, FirstPageRequest(g), 1)
  }

  function OpenSelected(g: Grid): Grid { g.(edits := OpenEditor(g.edits, g.view.row, g.view.column)) }

  function SpecialSelected(g: Grid, value: StagedValue): Grid {
    g.(edits := StageSpecial(g.edits, g.view.row, g.view.column, value))
  }

  function AskRevertAll(g: Grid): Grid { if Dirty(g.edits.staged) then g.(overlay := RevertAllOverlay) else g }

  function ShowChanges(g: Grid): Grid { if Dirty(g.edits.staged) then g.(overlay := ChangesOverlay) else g }

  /** Characters that do what the button of the same name does. */
  function ActionOf(c: char): Option<Action> {
    if c == 'i' then Some(InsertAction)
    else if c == 'e' then Some(EditAction)
    else if c == 'z' then Some(NullAction)
    else if c == 'f' then Some(DefaultAction)
    else if c == 'd' then Some(DeleteAction)
    else if c == 'u' then Some(RevertAction)
    else if c == 'U' then Some(RevertAllAction)
    else if c == 'a' then Some(ApplyAction)
    else if c == 'v' then Some(ChangesAction)
    else None
  }

  function ActionClick(g: Grid, action: Action): Grid {
    match action
    case InsertAction => AddDraft(g)
    case EditAction => OpenSelected(g)
    case NullAction => SpecialSelected(g, NullValue)
    case DefaultAction => SpecialSelected(g, DefaultValue)
    case DeleteAction => ToggleDeleteSelected(g)
    case ApplyAction => RequestApply(g)
    case RevertAction => RevertSelected(g)
    case RevertAllAction => AskRevertAll(g)
    case ChangesAction => ShowChanges(g)
  }

  function Navigate(g: Grid, c: char): Grid {
    if c == 'k' then MoveRow(g, -1)
    else if c == 'j' then MoveRow(g, 1)
    else if c == 'h' then MoveColumn(g, -1)
    else if c == 'l' then MoveColumn(g, 1)
    else if c == 'g' then ToTop(g)
    else if c == 'G' then ToLastRow(g)
    else g
  }

  function CharacterKey(g: Grid, c: char): (Grid, Command) {
    if c == 'n' then NextPage(g)
    else if c == 'p' then PreviousPage(g)
    else if c == 'r' then Refresh(g)
    else if c == 's' then CycleSort(g)
    else if ActionOf(c).Some? then (ActionClick(g, ActionOf(c).value), NoCommand)
    else (Navigate(g, c), NoCommand)
  }

  function GridKey(g: Grid, key: Key): (Grid, Command) {
    match key
    case Up => (MoveRow(g, -1), NoCommand)
    case Down => (MoveRow(g, 1), NoCommand)
    case Left => (MoveColumn(g, -1), NoCommand)
    case Right => (MoveColumn(g, 1), NoCommand)
    case Home => (ToTop(g), NoCommand)
    case End => (ToLastRow(g), NoCommand)
    case PageDown => NextPage(g)
    case PageUp => PreviousPage(g)
    case Enter => (OpenSelected(g), NoCommand)
    case Character(c) => CharacterKey(g, c)
    case _ => (g, NoCommand)
  }

  /** Keys are ignored while an operation is in flight, except the one that cancels it. */
  ghost function UpdateKey(valid: Validator, g: Grid, key: Key): (Grid, Command) {
    if Busy(g) then (g, if key == CtrlC then CancelCommand(ActiveMeta(g.io)) else NoCommand)
    else if g.edits.editor.Some? then (g.(edits := EditorKey(valid, g.edits, key)), NoCommand)
    else if g.overlay != NoOverlay then OverlayKey(g, key)
    else GridKey(g, key)
  }

  // ----- mouse -----

  ghost function OverlayClick(g: Grid, target: ClickTarget): (Grid, Command) {
    match g.overlay
    case ApplyOverlay =>
      if target == OnConfirm then StartApply(g)
      else (if target == OnDismiss then HideOverlay(g) else g, NoCommand)
    case RefreshOverlay =>
      if target == OnConfirm then ApplyBeforeRefresh(g)
      else if target == OnAlternative then RevertAndRefresh(g)
      else (if target == OnDismiss then HideOverlay(g) else g, NoCommand)
    case RevertAllOverlay =>
      (if target == OnConfirm then ClearChanges(g) else if target == OnDismiss then HideOverlay(g) else g, NoCommand)
    case _ => (g, NoCommand)
  }

  function CellClick(g: Grid, row: int, column: Option<nat>): Grid {
    if row < 0 || row >= Total(g) || g.edits.relation.None? then g
    else
      var known := column.Some? && column.value < |g.edits.relation.value.columns|;
      g.(view := EnsureRowVisible(g.view.(row := row, column := if known then column.value else g.view.column),
        Total(g)))
  }

  /** Clicks have no gate for operations in flight. */
  ghost function UpdateMouse(g: Grid, target: ClickTarget): (Grid, Command) {
    if g.edits.relation.None? || g.edits.editor.Some? then (g, NoCommand)
    else if g.overlay != NoOverlay then OverlayClick(g, target)
    else
      match target
      case OnAction(action) => (ActionClick(g, action), NoCommand)
      case OnCell(row, column) => (CellClick(g, row, column), NoCommand)
      case _ => (g, NoCommand)
  }

  function UpdateWheel(g: Grid, up: bool, sideways: bool): Grid {
    if g.overlay == ApplyOverlay || g.overlay == ChangesOverlay then g
    else if sideways then MoveColumn(g, if up then -1 else 1)
    else MoveRow(g, if up then -3 else 3)
  }

  // ----- results -----

  function OnDescribed(g: Grid, relation: Relation): (Grid, Command) {
    StartPage(g.(edits := g.edits.(relation := Some(relation)), io := g.io.(active := None, failed := false),
                 view := g.view.(column := 0)),
              PageRequest(relation.id, "", First, Sort("", false), DEFAULT_PAGE_SIZE), 1)
  }

  function OnPage(g: Grid, page: Page): Grid {
    g.(edits := g.edits.(page := page), io := g.io.(active := None, failed := false, lifecycle := Idle),
       view := g.view.(pageNumber := Max(1, g.io.pendingPage), row := 0, rowOffset := 0),
       apply := g.apply.(reloaded := None))
  }

  /** The state between a successful apply and the reload it starts. */
  function AfterApply(g: Grid, result: ApplyResult): Grid {
    var cleared := ClearChanges(g);
    cleared.(io := cleared.io.(active := None, failed := false, failedKind := None, lifecycle := Idle),
             apply := cleared.apply.(reloaded := Some(result)))
  }

  function OnApplied(g: Grid, result: ApplyResult): (Grid, Command) {
    var cleared := AfterApply(g, result);
    var settled := cleared.(apply := cleared.apply.(reloadFirst := false));
    if cleared.io.pending.relation == NO_RELATION || cleared.apply.reloadFirst
    then StartPage(settled, FirstPageRequest(cleared), 1)
    else StartPage(settled, cleared.io.pending, Max(1, cleared.view.pageNumber))
  }

  function OnFailed(g: Grid, kind: OperationKind, failure: Failure): Grid {
    var down := g.(io := g.io.(active := None, failed := true, failedKind := Some(kind), lifecycle := Failed));
    var shown := if kind == Applying then FocusFailure(down.(overlay := ErrorOverlay), failure) else down;
    if failure.cancelled then DismissError(shown) else shown
  }

  ghost function Step(valid: Validator, g: Grid, message: Message): (Grid, Command) {
    match message
    case RelationDescribed(relation, meta) =>
      if !Matches(g, Describing, meta) then (g, NoCommand) else OnDescribed(g, relation)
    case PageLoaded(page, meta) =>
      if !Matches(g, Paging, meta) then (g, NoCommand) else (OnPage(g, page), NoCommand)
    case Applied(result, meta) =>
      if !Matches(g, Applying, meta) then (g, NoCommand) else OnApplied(g, result)
    case OperationFailed(kind, failure, meta) =>
      if !Matches(g, kind, meta) then (g, NoCommand) else (OnFailed(g, kind, failure), NoCommand)
    case Paste(content) =>
      (if g.edits.editor.Some? then g.(edits := g.edits.(editor := Some(InsertText(g.edits.editor.value, content))))
       else g,
       NoCommand)
    case KeyPress(key) => UpdateKey(valid, g, key)
    case Click(target) => UpdateMouse(g, target)
    case Wheel(up, sideways) => (UpdateWheel(g, up, sideways), NoCommand)
    case Resize(height) => (g.(view := EnsureRowVisible(g.view.(height := height), Total(g))), NoCommand)
  }
}
