/** Runs from a new tab on: clicks during an apply, and an editor during the load of a page. */
module GridEditing {
  import opened Relations
  import opened GridData
  import opened IdentityKeys
  import opened Staging
  import opened GridState
  import opened GridInvariant
  import opened GridClicks
  import opened GridRuns

  lemma AfterStep(valid: Validator, g: Grid, message: Message, rest: seq<Message>)
    ensures After(valid, g, [message] + rest) == After(valid, Step(valid, g, message).0, rest)
  {
  }

  // ----- an apply reached from a new tab -----

  /** A tab that knows its relation, with a page, some drafts and no overlay or editor open. */
  predicate Showing(g: Grid, relation: Relation, page: Page, drafts: seq<Mutation>) {
    g.edits.relation == Some(relation) && g.edits.relationId == relation.id && g.edits.page == page &&
    g.edits.staged.inserts == drafts && g.edits.staged.updates == map[] && g.edits.staged.deletes == map[] &&
    g.edits.editor.None? && g.io.workspace == "w" && g.io.tab == "t"
  }

  function MetaOf(kind: OperationKind, request: nat): Meta { Meta("w", "t", kind, request) }

  predicate InProgress(g: Grid, kind: OperationKind, request: nat) {
    g.io.active == Some(Active(kind, MetaOf(kind, request))) && g.io.next == request + 1
  }

  const EMPTY_DRAFT := Mutation(MutationKind.InsertRow, 1, NO_ROW, map[])

  function NewTab(relationId: RelationId): Grid { Describe(NewGrid("w", "t", relationId)).0 }

  lemma DescribedIsLoading(valid: Validator, relation: Relation)
    ensures
      var g := Step(valid, NewTab(relation.id), RelationDescribed(relation, MetaOf(Describing, 1))).0;
      Showing(g, relation, NO_PAGE, []) && InProgress(g, Paging, 2) && g.overlay == NoOverlay &&
      g.edits.staged.nextDraft == 1 && g.view.row == 0 && g.view.column == 0
  {
  }

  lemma PageIsShown(valid: Validator, g: Grid, relation: Relation, page: Page)
    requires Showing(g, relation, NO_PAGE, []) && InProgress(g, Paging, 2) && g.overlay == NoOverlay
    requires g.edits.staged.nextDraft == 1
    ensures
      var h := Step(valid, g, PageLoaded(page, MetaOf(Paging, 2))).0;
      Showing(h, relation, page, []) && h.io.active.None? && h.io.next == 3 && h.overlay == NoOverlay &&
      h.edits.staged.nextDraft == 1 && h.view.row == 0 && h.view.column == g.view.column
  {
  }

  /** Describe the relation and load the first page. */
  function LoadRun(relation: Relation, page: Page): seq<Message> {
    [RelationDescribed(relation, MetaOf(Describing, 1))] + ([PageLoaded(page, MetaOf(Paging, 2))] + [])
  }

  lemma LoadRunShows(valid: Validator, relation: Relation, page: Page)
    requires relation.id != NO_RELATION && DistinctNames(relation.columns) && WellFormedRows(page.rows)
    ensures
      var g := After(valid, NewTab(relation.id), LoadRun(relation, page));
      Good(g) && Showing(g, relation, page, []) && g.io.active.None? && g.io.next == 3 && g.overlay == NoOverlay &&
      g.edits.staged.nextDraft == 1 && g.view.row == 0 && g.view.column == 0
  {
    var load := [PageLoaded(page, MetaOf(Paging, 2))] + [];
    DescribedIsLoading(valid, relation);
    AfterStep(valid, NewTab(relation.id), RelationDescribed(relation, MetaOf(Describing, 1)), load);
    var loading := Step(valid, NewTab(relation.id), RelationDescribed(relation, MetaOf(Describing, 1))).0;
    PageIsShown(valid, loading, relation, page);
    AfterStep(valid, loading, PageLoaded(page, MetaOf(Paging, 2)), []);
    NewGridSound("w", "t", relation.id);
    RunKeepsInvariant(valid, NewTab(relation.id), LoadRun(relation, page));
  }

  lemma InsertKeyAdds(valid: Validator, g: Grid, relation: Relation, page: Page)
    requires Showing(g, relation, page, []) && g.io.active.None? && g.overlay == NoOverlay
    requires g.edits.staged.nextDraft == 1 && relation.canInsert
    ensures
      var h := Step(valid, g, KeyPress(Character('i'))).0;
      Showing(h, relation, page, [EMPTY_DRAFT]) && h.io == g.io && h.overlay == NoOverlay
  {
  }

  predicate NothingRequired(relation: Relation) {
    forall i :: 0 <= i < |relation.columns| ==> !Required(relation.columns[i])
  }

  lemma {:induction false} NoMissingColumn(relation: Relation, k: nat)
    requires NothingRequired(relation) && k <= |relation.columns|
    ensures MissingColumn(relation.columns, map[], k).None?
    decreases |relation.columns| - k
  {
    if k < |relation.columns| { NoMissingColumn(relation, k + 1); }
  }

  lemma DraftIsValid(e: Edits, relation: Relation)
    requires NothingRequired(relation) && e.relation == Some(relation) && e.staged.inserts == [EMPTY_DRAFT]
    ensures ChangesValid(e) && Dirty(e.staged)
  {
    NoMissingColumn(relation, 0);
  }

  lemma ApplyKeyAsks(valid: Validator, g: Grid, relation: Relation, page: Page)
    requires Showing(g, relation, page, [EMPTY_DRAFT]) && g.io.active.None? && g.io.next == 3 && g.overlay == NoOverlay
    requires NothingRequired(relation)
    ensures
      var h := Step(valid, g, KeyPress(Character('a'))).0;
      Showing(h, relation, page, [EMPTY_DRAFT]) && h.io.active.None? && h.io.next == 3 && h.overlay == ApplyOverlay
  {
    DraftIsValid(g.edits, relation);
  }

  lemma EnterSends(valid: Validator, g: Grid, relation: Relation, page: Page)
    requires Showing(g, relation, page, [EMPTY_DRAFT]) && g.io.active.None? && g.io.next == 3 &&
      g.overlay == ApplyOverlay
    requires NothingRequired(relation)
    ensures
      var h := Step(valid, g, KeyPress(Enter)).0;
      Showing(h, relation, page, [EMPTY_DRAFT]) && InProgress(h, Applying, 3) && h.overlay == NoOverlay
  {
    DraftIsValid(g.edits, relation);
  }

  /** Describe, load a page, insert a draft, ask to apply, and confirm. */
  function ApplyRun(relation: Relation, page: Page): seq<Message> {
    [RelationDescribed(relation, MetaOf(Describing, 1))] + ([PageLoaded(page, MetaOf(Paging, 2))] +
    ([KeyPress(Character('i'))] + ([KeyPress(Character('a'))] + ([KeyPress(Enter)] + []))))
  }

  lemma ApplyRunSends(valid: Validator, relation: Relation, page: Page)
    requires relation.canInsert && NothingRequired(relation)
    ensures
      var g := After(valid, NewTab(relation.id), ApplyRun(relation, page));
      Showing(g, relation, page, [EMPTY_DRAFT]) && InProgress(g, Applying, 3) && g.overlay == NoOverlay
  {
    var enter := [KeyPress(Enter)] + [];
    var apply := [KeyPress(Character('a'))] + enter;
    var insert := [KeyPress(Character('i'))] + apply;
    var load := [PageLoaded(page, MetaOf(Paging, 2))] + insert;
    DescribedIsLoading(valid, relation);
    AfterStep(valid, NewTab(relation.id), RelationDescribed(relation, MetaOf(Describing, 1)), load);
    var loading := Step(valid, NewTab(relation.id), RelationDescribed(relation, MetaOf(Describing, 1))).0;
    PageIsShown(valid, loading, relation, page);
    AfterStep(valid, loading, PageLoaded(page, MetaOf(Paging, 2)), insert);
    var shown := Step(valid, loading, PageLoaded(page, MetaOf(Paging, 2))).0;
    InsertKeyAdds(valid, shown, relation, page);
    AfterStep(valid, shown, KeyPress(Character('i')), apply);
    var drafted := Step(valid, shown, KeyPress(Character('i'))).0;
    ApplyKeyAsks(valid, drafted, relation, page);
    AfterStep(valid, drafted, KeyPress(Character('a')), enter);
    var asked := Step(valid, drafted, KeyPress(Character('a'))).0;
    EnterSends(valid, asked, relation, page);
    AfterStep(valid, asked, KeyPress(Enter), []);
  }

  lemma {:induction false} KeysArePatient(valid: Validator, g: Grid, messages: seq<Message>)
    requires forall i :: 0 <= i < |messages| ==> !messages[i].Click?
    ensures PatientClicks(valid, g, messages)
    decreases |messages|
  {
    if messages != [] { KeysArePatient(valid, Step(valid, g, messages[0]).0, messages[1..]); }
  }

  /** A run from a new tab on that leads there, for every relation that admits an empty draft:
      the apply is in flight with one draft, and a click on Insert disturbs it, as does one on
      Apply with the confirmation after it. */
  lemma DisturbingClickIsReached(valid: Validator, relation: Relation, page: Page)
    requires relation.id != NO_RELATION && DistinctNames(relation.columns) && WellFormedRows(page.rows)
    requires relation.canInsert && NothingRequired(relation)
    ensures AllSound(relation.id, ApplyRun(relation, page))
    ensures
      var g := After(valid, NewTab(relation.id), ApplyRun(relation, page));
      var asked := Step(valid, g, Click(OnAction(ApplyAction))).0;
      Good(g) && InFlight(g) && ApplyRuns(g.io) && Snapshot(g.edits.staged) == [EMPTY_DRAFT] &&
      ClickDisturbs(g, OnAction(InsertAction)) && ClickDisturbs(asked, OnConfirm)
  {
    var g := After(valid, NewTab(relation.id), ApplyRun(relation, page));
    ApplyRunSends(valid, relation, page);
    NewGridSound("w", "t", relation.id);
    KeysArePatient(valid, NewTab(relation.id), ApplyRun(relation, page));
    RunInFlight(valid, NewTab(relation.id), ApplyRun(relation, page));
    DraftIsValid(g.edits, relation);
    ApplyClickAsks(valid, g);
  }

  // ----- refresh, then apply, on a later page -----

  lemma NextKeyLoads(valid: Validator, g: Grid, relation: Relation, page: Page)
    requires Showing(g, relation, page, []) && g.io.active.None? && g.io.next == 3 && g.overlay == NoOverlay
    requires page.next != ""
    ensures
      var h := Step(valid, g, KeyPress(Character('n'))).0;
      Showing(h, relation, page, []) && InProgress(h, Paging, 3) && h.overlay == NoOverlay && h.view == g.view &&
      h.edits == g.edits && h.io.pending.direction == Next
  {
  }

  lemma NextPageIsShown(valid: Validator, g: Grid, relation: Relation, page: Page, second: Page)
    requires Showing(g, relation, page, []) && InProgress(g, Paging, 3) && g.overlay == NoOverlay
    ensures
      var h := Step(valid, g, PageLoaded(second, MetaOf(Paging, 3))).0;
      Showing(h, relation, second, []) && h.io.active.None? && h.io.next == 4 && !h.io.failed &&
      h.overlay == NoOverlay && h.io.pending == g.io.pending && h.edits.staged == g.edits.staged
  {
  }

  lemma RefreshKeyAsks(valid: Validator, g: Grid, relation: Relation, page: Page)
    requires Showing(g, relation, page, [EMPTY_DRAFT]) && g.io.active.None? && !g.io.failed && g.overlay == NoOverlay
    requires NothingRequired(relation)
    ensures Step(valid, g, KeyPress(Character('r'))).0 == g.(overlay := RefreshOverlay)
  {
    DraftIsValid(g.edits, relation);
  }

  lemma {:induction false} AfterConcat(valid: Validator, g: Grid, a: seq<Message>, b: seq<Message>)
    ensures After(valid, g, a + b) == After(valid, After(valid, g, a), b)
    decreases |a|
  {
    if a == [] {
      assert a + b == b;
    } else {
      assert a + b == [a[0]] + (a[1..] + b);
      AfterStep(valid, g, a[0], a[1..] + b);
      AfterConcat(valid, Step(valid, g, a[0]).0, a[1..], b);
    }
  }

  /** On the second page: turn to it, insert a draft, and ask to refresh. */
  function SecondPageRun(second: Page): seq<Message> {
    [KeyPress(Character('n'))] + ([PageLoaded(second, MetaOf(Paging, 3))] +
    ([KeyPress(Character('i'))] + ([KeyPress(Character('r'))] + [])))
  }

  lemma SecondPageRunAsks(valid: Validator, g: Grid, relation: Relation, page: Page, second: Page)
    requires Showing(g, relation, page, []) && g.io.active.None? && g.io.next == 3 && g.overlay == NoOverlay
    requires g.edits.staged.nextDraft == 1 && page.next != "" && relation.canInsert && NothingRequired(relation)
    ensures
      var h := After(valid, g, SecondPageRun(second));
      Showing(h, relation, second, [EMPTY_DRAFT]) && h.io.active.None? && h.io.next == 4 &&
      h.overlay == RefreshOverlay && h.io.pending.direction == Next
  {
    var refresh := [KeyPress(Character('r'))] + [];
    var insert := [KeyPress(Character('i'))] + refresh;
    var load := [PageLoaded(second, MetaOf(Paging, 3))] + insert;
    NextKeyLoads(valid, g, relation, page);
    AfterStep(valid, g, KeyPress(Character('n')), load);
    var loading := Step(valid, g, KeyPress(Character('n'))).0;
    NextPageIsShown(valid, loading, relation, page, second);
    AfterStep(valid, loading, PageLoaded(second, MetaOf(Paging, 3)), insert);
    var shown := Step(valid, loading, PageLoaded(second, MetaOf(Paging, 3))).0;
    InsertKeyAdds(valid, shown, relation, second);
    AfterStep(valid, shown, KeyPress(Character('i')), refresh);
    var drafted := Step(valid, shown, KeyPress(Character('i'))).0;
    RefreshKeyAsks(valid, drafted, relation, second);
    AfterStep(valid, drafted, KeyPress(Character('r')), []);
  }

  lemma SecondPageIsReached(valid: Validator, relation: Relation, page: Page, second: Page)
    requires relation.id != NO_RELATION && DistinctNames(relation.columns)
    requires WellFormedRows(page.rows) && WellFormedRows(second.rows)
    requires relation.canInsert && NothingRequired(relation) && page.next != ""
    ensures
      var asked := After(valid, NewTab(relation.id), LoadRun(relation, page) + SecondPageRun(second));
      Good(asked) && Showing(asked, relation, second, [EMPTY_DRAFT]) && asked.io.active.None? &&
      asked.io.next == 4 && asked.overlay == RefreshOverlay && asked.io.pending.direction == Next
  {
    var shown := After(valid, NewTab(relation.id), LoadRun(relation, page));
    LoadRunShows(valid, relation, page);
    AfterConcat(valid, NewTab(relation.id), LoadRun(relation, page), SecondPageRun(second));
    SecondPageRunAsks(valid, shown, relation, page, second);
    SecondPageRunIsSound(relation.id, second);
    RunKeepsInvariant(valid, shown, SecondPageRun(second));
  }

  lemma SecondPageRunIsSound(relationId: RelationId, second: Page)
    requires WellFormedRows(second.rows)
    ensures AllSound(relationId, SecondPageRun(second))
  {
  }

  /** A failing run of refresh-then-apply, from a new tab on: with the second page shown and a
      draft inserted, "apply" on the refresh question sends it, and when it has been applied the
      page reloaded is the second one again, not page one. */
  lemma RefreshThenApplyMissesPageOne(
    valid: Validator, relation: Relation, page: Page, second: Page, result: ApplyResult)
    requires relation.id != NO_RELATION && DistinctNames(relation.columns)
    requires WellFormedRows(page.rows) && WellFormedRows(second.rows)
    requires relation.canInsert && NothingRequired(relation) && page.next != ""
    ensures
      var asked := After(valid, NewTab(relation.id), LoadRun(relation, page) + SecondPageRun(second));
      var applying := Step(valid, asked, KeyPress(Character('a')));
      var reload := Step(valid, applying.0, Applied(result, MetaOf(Applying, 4))).1;
      applying.1.ApplyCommand? && applying.0.apply.reloadFirst &&
      reload.LoadPageCommand? && reload.request.direction == Next
  {
    SecondPageIsReached(valid, relation, page, second);
    var asked := After(valid, NewTab(relation.id), LoadRun(relation, page) + SecondPageRun(second));
    RefreshAnswerReloads(valid, asked, relation, second, result);
  }

  lemma RefreshAnswerReloads(valid: Validator, g: Grid, relation: Relation, page: Page, result: ApplyResult)
    requires Good(g) && Showing(g, relation, page, [EMPTY_DRAFT]) && g.io.active.None? && g.io.next == 4
    requires relation.id != NO_RELATION && NothingRequired(relation) && g.overlay == RefreshOverlay
    requires g.io.pending.direction == Next
    ensures
      var applying := Step(valid, g, KeyPress(Character('a')));
      var reload := Step(valid, applying.0, Applied(result, MetaOf(Applying, 4))).1;
      applying.1.ApplyCommand? && applying.0.apply.reloadFirst &&
      reload.LoadPageCommand? && reload.request.direction == Next
  {
    DraftIsValid(g.edits, relation);
    RefreshThenApplyReloads(valid, g, [], result);
    RefreshKeyApplies(valid, g);
  }

  // ----- the row an editor was opened on -----

  /** The editor stays open in every state of the run. */
  ghost predicate StaysOpen(valid: Validator, g: Grid, messages: seq<Message>)
    decreases |messages|
  {
    g.edits.editor.Some? && (messages == [] || StaysOpen(valid, Step(valid, g, messages[0]).0, messages[1..]))
  }

  /** The page shown after the run: the one that arrives for the page load in flight, if any. */
  function ArrivingPage(active: Option<Active>, page: Page, messages: seq<Message>): Page
    decreases |messages|
  {
    if messages == [] || active.None? then page
    else
      match messages[0]
      case PageLoaded(arrived, meta) =>
        if active == Some(Active(Paging, meta)) then arrived else ArrivingPage(active, page, messages[1..])
      case OperationFailed(kind, _, meta) =>
        if active == Some(Active(kind, meta)) then page else ArrivingPage(active, page, messages[1..])
      case _ => ArrivingPage(active, page, messages[1..])
  }

  /** Nothing but the row shown at its place changes beneath an open editor. */
  ghost predicate SameBeneath(g: Grid, h: Grid) {
    g.edits.editor.Some? && h.edits.editor.Some? &&
    h.edits.editor.value.row == g.edits.editor.value.row &&
    h.edits.editor.value.column == g.edits.editor.value.column &&
    h.edits.staged == g.edits.staged && h.edits.relation == g.edits.relation && h.edits.relationId == g.edits.relationId
  }

  lemma KeyBeneath(valid: Validator, e: Edits, key: Key)
    requires e.editor.Some? && EditorKey(valid, e, key).editor.Some?
    ensures
      var after := EditorKey(valid, e, key);
      after == e.(editor := after.editor) && after.editor.value.row == e.editor.value.row &&
      after.editor.value.column == e.editor.value.column
  {
  }

  lemma StepBeneath(valid: Validator, g: Grid, message: Message)
    requires Good(g) && g.edits.editor.Some? && Step(valid, g, message).0.edits.editor.Some?
    ensures
      var h := Step(valid, g, message).0;
      SameBeneath(g, h) &&
      if message.PageLoaded? && Matches(g, Paging, message.meta) then
        h.edits.page == message.page && h.io.active.None?
      else
        h.edits.page == g.edits.page &&
        if message.OperationFailed? && Matches(g, message.kind, message.meta) then h.io.active.None?
        else h.io.active == g.io.active
  {
    if message.KeyPress? && !Busy(g) { KeyBeneath(valid, g.edits, message.key); }
  }

  lemma {:induction false} RunBeneath(valid: Validator, g: Grid, messages: seq<Message>)
    requires Good(g) && AllSound(g.edits.relationId, messages) && StaysOpen(valid, g, messages)
    ensures
      var h := After(valid, g, messages);
      Good(h) && SameBeneath(g, h) && h.edits.page == ArrivingPage(g.io.active, g.edits.page, messages)
    decreases |messages|
  {
    if messages != [] {
      StepBeneath(valid, g, messages[0]);
      StepKeepsInvariant(valid, g, messages[0]);
      RunBeneath(valid, Step(valid, g, messages[0]).0, messages[1..]);
    }
  }

  /** Two references are to the same draft or to page rows of the same identity. */
  predicate SameTarget(relation: Relation, a: Option<RowRef>, b: Option<RowRef>) {
    a.Some? && b.Some? && a.value.insert == b.value.insert &&
    if a.value.insert then a.value.insertIdx == b.value.insertIdx
    else SameIdentity(relation.identity, a.value.row.identity, b.value.row.identity)
  }

  /** The row is a draft, or the page has a row of its identity at that place. */
  predicate StaysInPlace(g: Grid, row: int, page: Page)
    requires g.edits.relation.Some? && RefAt(g.edits, row).Some?
  {
    var k := row - |g.edits.staged.inserts|;
    k < 0 ||
    (k < |page.rows| &&
     SameIdentity(g.edits.relation.value.identity, page.rows[k].identity, g.edits.page.rows[k].identity))
  }

  lemma TargetStays(g: Grid, h: Grid, row: int)
    requires RefAt(g.edits, row).Some? && h.edits.staged == g.edits.staged && h.edits.relation == g.edits.relation
    ensures SameTarget(g.edits.relation.value, RefAt(h.edits, row), RefAt(g.edits, row)) <==>
              StaysInPlace(g, row, h.edits.page)
  {
  }

  /** What Enter does to an open editor whose text is accepted. */
  lemma EnterCommits(valid: Validator, h: Grid)
    requires Good(h) && !Busy(h) && h.edits.editor.Some?
    requires RefAt(h.edits, h.edits.editor.value.row).Some?
    requires
      var editor := h.edits.editor.value;
      valid(h.edits.relation.value.columns[editor.column], editor.buffer)
    ensures
      var editor := h.edits.editor.value;
      var relation := h.edits.relation.value;
      var ref := RefAt(h.edits, editor.row).value;
      (ref.insert ==> ref.insertIdx < |h.edits.staged.inserts|) &&
      Step(valid, h, KeyPress(Enter)).0.edits.staged ==
        StageValue(relation, h.edits.staged, ref, relation.columns[editor.column].name, Text(editor.buffer))
  {
    ReferenceResolves(h.edits, h.edits.editor.value.row);
  }

  /** Let an editor be open on a row and stay open through a run. The text is then committed to
      the row it was opened on if and only if that is a draft or the page that arrives meanwhile,
      if one does, has a row of the same identity in the same place. No page arrives unless its
      load was in flight before, so an editor opened while nothing is keeps its row. */
  lemma EditorKeepsItsRow(valid: Validator, g: Grid, messages: seq<Message>)
    requires Good(g) && AllSound(g.edits.relationId, messages) && StaysOpen(valid, g, messages)
    requires RefAt(g.edits, g.edits.editor.value.row).Some?
    ensures
      var h := After(valid, g, messages);
      var row := g.edits.editor.value.row;
      h.edits.editor.Some? && h.edits.editor.value.row == row && h.edits.staged == g.edits.staged &&
      (SameTarget(g.edits.relation.value, RefAt(h.edits, row), RefAt(g.edits, row)) <==>
       StaysInPlace(g, row, ArrivingPage(g.io.active, g.edits.page, messages))) &&
      (g.io.active.None? ==> RefAt(h.edits, row) == RefAt(g.edits, row))
  {
    RunBeneath(valid, g, messages);
    TargetStays(g, After(valid, g, messages), g.edits.editor.value.row);
  }

  /** The text an editor opens with. */
  function OpeningText(cell: Cell): string {
    if cell.isNull || cell.display == "DEFAULT" then "" else cell.edit
  }

  lemma EditClickOpens(valid: Validator, g: Grid, relation: Relation, page: Page)
    requires Showing(g, relation, page, []) && g.overlay == NoOverlay && g.view.row == 0 && g.view.column == 0
    requires relation.columns != [] && ColumnWritable(relation, false, relation.columns[0])
    requires page.rows != [] && page.rows[0].cells != []
    ensures
      var h := Step(valid, g, Click(OnAction(EditAction))).0;
      var text := OpeningText(page.rows[0].cells[0]);
      h == g.(edits := g.edits.(editor := Some(CellEditor(0, 0, text, |text|))))
  {
  }

  lemma FreshlyStaged(relation: Relation, s: Staged, ref: RowRef, column: string, value: StagedValue)
    requires !ref.insert && s.updates == map[]
    requires !StagedMatchesOriginal(value, ref.row, ColumnIndex(relation.columns, column))
    ensures StageValue(relation, s, ref, column, value).updates.Keys == {ref.key}
  {
    var values := UpdateFor(s, ref).values[column := value];
    assert column in values;
  }

  lemma ArrivalMovesEditor(valid: Validator, g: Grid, relation: Relation, page: Page, arriving: Page)
    requires Good(g) && g.edits.relation == Some(relation) && g.edits.page == page && InProgress(g, Paging, 3)
    requires g.edits.staged.inserts == [] && g.edits.staged.updates == map[]
    requires g.edits.editor.Some? && g.edits.editor.value.row == 0 && g.edits.editor.value.column == 0
    requires page.rows != [] && arriving.rows != [] && WellFormedRows(arriving.rows)
    requires !SameIdentity(relation.identity, arriving.rows[0].identity, page.rows[0].identity)
    requires
      var text := g.edits.editor.value.buffer;
      valid(relation.columns[0], text) && !StagedMatchesOriginal(Text(text), arriving.rows[0], 0)
    ensures
      var arrived := Step(valid, g, PageLoaded(arriving, MetaOf(Paging, 3))).0;
      var done := Step(valid, arrived, KeyPress(Enter)).0;
      RefAt(g.edits, 0).Some? && RefAt(g.edits, 0).value.row == page.rows[0] &&
      done.edits.staged.updates.Keys == {IdentityKeys.Key(relation.identity, arriving.rows[0].identity)} &&
      IdentityKeys.Key(relation.identity, page.rows[0].identity) !in done.edits.staged.updates
  {
    var arrived := Step(valid, g, PageLoaded(arriving, MetaOf(Paging, 3))).0;
    PageBeneath(valid, g, arriving);
    StepKeepsInvariant(valid, g, PageLoaded(arriving, MetaOf(Paging, 3)));
    EnterCommits(valid, arrived);
    var ref := RefAt(arrived.edits, 0).value;
    KeyIdentifiesRow(relation.identity, arriving.rows[0].identity, page.rows[0].identity);
    FreshlyStaged(relation, arrived.edits.staged, ref, relation.columns[0].name, Text(g.edits.editor.value.buffer));
  }

  lemma PageBeneath(valid: Validator, g: Grid, arriving: Page)
    requires InProgress(g, Paging, 3)
    ensures
      var h := Step(valid, g, PageLoaded(arriving, MetaOf(Paging, 3))).0;
      h.edits == g.edits.(page := arriving) && h.io.active.None?
  {
  }

  lemma LoadMovesEditor(valid: Validator, g: Grid, relation: Relation, page: Page, arriving: Page)
    requires Good(g) && Showing(g, relation, page, []) && g.io.active.None? && g.io.next == 3
    requires g.overlay == NoOverlay && page.next != "" && g.view.row == 0 && g.view.column == 0
    requires relation.columns != [] && ColumnWritable(relation, false, relation.columns[0])
    requires page.rows != [] && page.rows[0].cells != [] && arriving.rows != [] && WellFormedRows(arriving.rows)
    requires !SameIdentity(relation.identity, arriving.rows[0].identity, page.rows[0].identity)
    requires
      var text := OpeningText(page.rows[0].cells[0]);
      valid(relation.columns[0], text) && !StagedMatchesOriginal(Text(text), arriving.rows[0], 0)
    ensures
      var loading := Step(valid, g, KeyPress(Character('n'))).0;
      var editing := Step(valid, loading, Click(OnAction(EditAction))).0;
      var arrived := Step(valid, editing, PageLoaded(arriving, MetaOf(Paging, 3))).0;
      var done := Step(valid, arrived, KeyPress(Enter)).0;
      RefAt(editing.edits, 0).Some? && RefAt(editing.edits, 0).value.row == page.rows[0] &&
      done.edits.staged.updates.Keys == {IdentityKeys.Key(relation.identity, arriving.rows[0].identity)} &&
      IdentityKeys.Key(relation.identity, page.rows[0].identity) !in done.edits.staged.updates
  {
    NextKeyLoads(valid, g, relation, page);
    StepKeepsInvariant(valid, g, KeyPress(Character('n')));
    var loading := Step(valid, g, KeyPress(Character('n'))).0;
    EditClickOpens(valid, loading, relation, page);
    StepKeepsInvariant(valid, loading, Click(OnAction(EditAction)));
    ArrivalMovesEditor(valid, Step(valid, loading, Click(OnAction(EditAction))).0, relation, page, arriving);
  }

  /** A failing run, from a new tab on: with the first page shown the next one is asked for;
      while it loads, a click opens an editor on the first row; the page arrives, and Enter
      stages the text on the first row of that page. */
  lemma EditorDuringLoadMovesOn(valid: Validator, relation: Relation, page: Page, arriving: Page)
    requires relation.id != NO_RELATION && DistinctNames(relation.columns) && WellFormedRows(page.rows)
    requires relation.columns != [] && ColumnWritable(relation, false, relation.columns[0]) && page.next != ""
    requires page.rows != [] && page.rows[0].cells != [] && arriving.rows != [] && WellFormedRows(arriving.rows)
    requires !SameIdentity(relation.identity, arriving.rows[0].identity, page.rows[0].identity)
    requires
      var text := OpeningText(page.rows[0].cells[0]);
      valid(relation.columns[0], text) && !StagedMatchesOriginal(Text(text), arriving.rows[0], 0)
    ensures
      var shown := After(valid, NewTab(relation.id), LoadRun(relation, page));
      var loading := Step(valid, shown, KeyPress(Character('n'))).0;
      var editing := Step(valid, loading, Click(OnAction(EditAction))).0;
      var arrived := Step(valid, editing, PageLoaded(arriving, MetaOf(Paging, 3))).0;
      var done := Step(valid, arrived, KeyPress(Enter)).0;
      RefAt(editing.edits, 0).Some? && RefAt(editing.edits, 0).value.row == page.rows[0] &&
      done.edits.staged.updates.Keys == {IdentityKeys.Key(relation.identity, arriving.rows[0].identity)} &&
      IdentityKeys.Key(relation.identity, page.rows[0].identity) !in done.edits.staged.updates
  {
    LoadRunShows(valid, relation, page);
    LoadMovesEditor(valid, After(valid, NewTab(relation.id), LoadRun(relation, page)), relation, page, arriving);
  }
}
