/** The cursors a tab sends: when they belong to the sort they are sent with. */
module GridPaging {
  import opened Relations
  import opened GridData
  import opened Staging
  import opened GridState
  import opened GridInvariant
  import opened GridRuns
  import opened GridEditing

  /** The sort that a cursor was made for; it is part of the cursor. */
  type SortOf = string -> Sort

  /** The cursor of a page request, if it has one, was made for the sort of the request. */
  predicate Belongs(sortOf: SortOf, request: PageRequest<string>) {
    request.cursor == "" || sortOf(request.cursor) == request.sort
  }

  predicate PageIsOf(sortOf: SortOf, page: Page, sort: Sort) {
    (page.next != "" ==> sortOf(page.next) == sort) && (page.prev != "" ==> sortOf(page.prev) == sort)
  }

  predicate Arrives(g: Grid, message: Message) { message.PageLoaded? && Matches(g, Paging, message.meta) }

  /** A page has the cursors of the request it answers. */
  predicate Truthful(sortOf: SortOf, g: Grid, message: Message) {
    Arrives(g, message) ==> PageIsOf(sortOf, message.page, g.io.pending.sort)
  }

  ghost predicate AllTruthful(sortOf: SortOf, valid: Validator, g: Grid, messages: seq<Message>)
    decreases |messages|
  {
    messages == [] ||
    (Truthful(sortOf, g, messages[0]) && AllTruthful(sortOf, valid, Step(valid, g, messages[0]).0, messages[1..]))
  }

  /** Every page request of the run carries a cursor of its own sort, or none. */
  ghost predicate AllBelong(sortOf: SortOf, valid: Validator, g: Grid, messages: seq<Message>)
    decreases |messages|
  {
    messages == [] ||
    var (h, command) := Step(valid, g, messages[0]);
    (command.LoadPageCommand? ==> Belongs(sortOf, command.request)) && AllBelong(sortOf, valid, h, messages[1..])
  }

  predicate TurnKey(key: Key, forward: bool) {
    if forward then key == PageDown || key == Character('n') else key == PageUp || key == Character('p')
  }

  /** The message asks for the next or previous page of the one shown. */
  predicate Turns(g: Grid, message: Message) {
    message.KeyPress? && !Busy(g) && g.edits.editor.None? && g.overlay == NoOverlay && g.edits.relation.Some? &&
    ((TurnKey(message.key, true) && g.edits.page.next != "") ||
     (TurnKey(message.key, false) && g.edits.page.prev != ""))
  }

  /** The sort that the page shown after the message was requested with. */
  function LoadedFor(g: Grid, loaded: Sort, message: Message): Sort {
    if Arrives(g, message) then g.io.pending.sort else loaded
  }

  /** Pages are only turned while the sort chosen is the one the shown page was loaded for. */
  ghost predicate TurnsOwnPages(valid: Validator, g: Grid, loaded: Sort, messages: seq<Message>)
    decreases |messages|
  {
    messages == [] ||
    ((Turns(g, messages[0]) ==> g.view.sort == loaded) &&
     TurnsOwnPages(valid, Step(valid, g, messages[0]).0, LoadedFor(g, loaded, messages[0]), messages[1..]))
  }

  // ----- what a step sends -----

  /** A page request without a cursor, or the one remembered, once more. */
  predicate Plain(g: Grid, h: Grid, command: Command) {
    (command.LoadPageCommand? ==> command.request.cursor == "" || command.request == g.io.pending) &&
    (h.io.pending == g.io.pending || h.io.pending.cursor == "") && h.edits.page == g.edits.page
  }

  lemma ActionIsPlain(g: Grid, action: Action)
    ensures Plain(g, ActionClick(g, action), NoCommand)
  {
  }

  lemma ApplyIsPlain(g: Grid)
    ensures Plain(g, StartApply(g).0, StartApply(g).1) && Plain(g, ApplyBeforeRefresh(g).0, ApplyBeforeRefresh(g).1)
  {
  }

  lemma RevertIsPlain(g: Grid)
    ensures Plain(g, RevertAndRefresh(g).0, RevertAndRefresh(g).1)
  {
  }

  lemma RefreshIsPlain(g: Grid)
    ensures Plain(g, Refresh(g).0, Refresh(g).1)
  {
  }

  lemma SortIsPlain(g: Grid)
    ensures Plain(g, CycleSort(g).0, CycleSort(g).1)
  {
  }

  lemma SettingsArePlain(g: Grid)
    ensures Plain(g, HideOverlay(g), NoCommand) && Plain(g, ClearChanges(g), NoCommand)
    ensures Plain(g, RequestApply(g), NoCommand) && Plain(g, DismissError(g), NoCommand)
    ensures Plain(g, RequestApply(DismissError(g)), NoCommand)
  {
  }

  lemma OverlayKeyIsPlain(g: Grid, key: Key)
    ensures Plain(g, OverlayKey(g, key).0, OverlayKey(g, key).1)
  {
    SettingsArePlain(g);
    match g.overlay
    case ApplyOverlay => ApplyIsPlain(g);
    case RefreshOverlay =>
      ApplyIsPlain(g);
      RevertIsPlain(g);
    case _ =>
  }

  lemma OverlayClickIsPlain(g: Grid, target: ClickTarget)
    ensures Plain(g, OverlayClick(g, target).0, OverlayClick(g, target).1)
  {
    SettingsArePlain(g);
    match g.overlay
    case ApplyOverlay => ApplyIsPlain(g);
    case RefreshOverlay =>
      ApplyIsPlain(g);
      RevertIsPlain(g);
    case _ =>
  }

  lemma NavigationIsPlain(g: Grid, c: char)
    ensures Plain(g, Navigate(g, c), NoCommand)
  {
  }

  lemma NoTurnIsPlain(g: Grid)
    ensures g.edits.page.next == "" || g.edits.relation.None? ==> Plain(g, NextPage(g).0, NextPage(g).1)
    ensures g.edits.page.prev == "" || g.edits.relation.None? ==> Plain(g, PreviousPage(g).0, PreviousPage(g).1)
  {
  }

  lemma GridKeyIsPlain(g: Grid, key: Key)
    requires g.edits.relation.None? ||
      !((TurnKey(key, true) && g.edits.page.next != "") || (TurnKey(key, false) && g.edits.page.prev != ""))
    ensures Plain(g, GridKey(g, key).0, GridKey(g, key).1)
  {
    NoTurnIsPlain(g);
    match key
    case Character(c) =>
      if c == 'r' { RefreshIsPlain(g); }
      else if c == 's' { SortIsPlain(g); }
      else if c != 'n' && c != 'p' {
        if ActionOf(c).Some? { ActionIsPlain(g, ActionOf(c).value); } else { NavigationIsPlain(g, c); }
      }
    case _ =>
  }

  lemma EditorKeyKeepsPage(valid: Validator, e: Edits, key: Key)
    requires e.editor.Some?
    ensures EditorKey(valid, e, key).page == e.page
  {
  }

  lemma KeyIsPlain(valid: Validator, g: Grid, key: Key)
    requires !Turns(g, KeyPress(key))
    ensures Plain(g, Step(valid, g, KeyPress(key)).0, Step(valid, g, KeyPress(key)).1)
  {
    if !Busy(g) {
      if g.edits.editor.Some? { EditorKeyKeepsPage(valid, g.edits, key); }
      else if g.overlay != NoOverlay { OverlayKeyIsPlain(g, key); }
      else { GridKeyIsPlain(g, key); }
    }
  }

  lemma ClickIsPlain(valid: Validator, g: Grid, target: ClickTarget)
    ensures Plain(g, Step(valid, g, Click(target)).0, Step(valid, g, Click(target)).1)
  {
    if g.overlay != NoOverlay { OverlayClickIsPlain(g, target); }
    else if target.OnAction? { ActionIsPlain(g, target.action); }
  }

  lemma ResultIsPlain(valid: Validator, g: Grid, message: Message)
    requires IsResult(message) && !Arrives(g, message)
    ensures Plain(g, Step(valid, g, message).0, Step(valid, g, message).1)
  {
  }

  lemma StepIsPlain(valid: Validator, g: Grid, message: Message)
    requires !Turns(g, message) && !Arrives(g, message)
    ensures Plain(g, Step(valid, g, message).0, Step(valid, g, message).1)
  {
    match message
    case KeyPress(key) => KeyIsPlain(valid, g, key);
    case Click(target) => ClickIsPlain(valid, g, target);
    case Paste(_) =>
    case Wheel(_, _) =>
    case Resize(_) =>
    case _ => ResultIsPlain(valid, g, message);
  }

  lemma ArrivalShows(valid: Validator, g: Grid, message: Message)
    requires Arrives(g, message)
    ensures
      var (h, command) := Step(valid, g, message);
      command == NoCommand && h.edits.page == message.page && h.io.pending == g.io.pending
  {
  }

  lemma GridKeyTurns(g: Grid, key: Key)
    requires g.edits.relation.Some?
    requires (TurnKey(key, true) && g.edits.page.next != "") || (TurnKey(key, false) && g.edits.page.prev != "")
    ensures
      var (h, command) := GridKey(g, key);
      command.LoadPageCommand? && h.io.pending == command.request && h.edits.page == g.edits.page &&
      command.request.sort == g.view.sort &&
      command.request.cursor == if TurnKey(key, true) then g.edits.page.next else g.edits.page.prev
  {
  }

  lemma TurnSends(valid: Validator, g: Grid, message: Message)
    requires Turns(g, message)
    ensures
      var (h, command) := Step(valid, g, message);
      command.LoadPageCommand? && h.io.pending == command.request && h.edits.page == g.edits.page &&
      command.request.sort == g.view.sort && command.request.cursor != "" &&
      command.request.cursor == if TurnKey(message.key, true) then g.edits.page.next else g.edits.page.prev
  {
    GridKeyTurns(g, message.key);
  }

  /** The shown page is of the sort it was loaded for, and what was sent last belonged. */
  predicate Fits(sortOf: SortOf, g: Grid, loaded: Sort) {
    PageIsOf(sortOf, g.edits.page, loaded) && Belongs(sortOf, g.io.pending)
  }

  lemma StepBelongs(sortOf: SortOf, valid: Validator, g: Grid, loaded: Sort, message: Message)
    requires Fits(sortOf, g, loaded) && Truthful(sortOf, g, message)
    ensures
      var (h, command) := Step(valid, g, message);
      (command.LoadPageCommand? ==> Belongs(sortOf, command.request)) <==>
      (Turns(g, message) ==> g.view.sort == loaded)
    ensures (Turns(g, message) ==> g.view.sort == loaded) ==>
              Fits(sortOf, Step(valid, g, message).0, LoadedFor(g, loaded, message))
  {
    if Turns(g, message) { TurnSends(valid, g, message); }
    else if Arrives(g, message) { ArrivalShows(valid, g, message); }
    else { StepIsPlain(valid, g, message); }
  }

  lemma {:induction false} RunBelongs(
    sortOf: SortOf, valid: Validator, g: Grid, loaded: Sort, messages: seq<Message>)
    requires Fits(sortOf, g, loaded) && AllTruthful(sortOf, valid, g, messages)
    ensures AllBelong(sortOf, valid, g, messages) <==> TurnsOwnPages(valid, g, loaded, messages)
    decreases |messages|
  {
    if messages != [] {
      var message := messages[0];
      StepBelongs(sortOf, valid, g, loaded, message);
      if Turns(g, message) ==> g.view.sort == loaded {
        RunBelongs(sortOf, valid, Step(valid, g, message).0, LoadedFor(g, loaded, message), messages[1..]);
      }
    }
  }

  /** Over every run from a new tab on: all page requests carry cursors of the sort they ask for
      if and only if pages are only turned while the sort chosen is that of the page shown, so
      if every change of the sort was followed by its own page. */
  lemma CursorsBelongToTheirSort(
    sortOf: SortOf, valid: Validator, workspace: string, tab: string, relationId: RelationId, messages: seq<Message>)
    requires AllTruthful(sortOf, valid, Describe(NewGrid(workspace, tab, relationId)).0, messages)
    ensures
      var g := Describe(NewGrid(workspace, tab, relationId)).0;
      AllBelong(sortOf, valid, g, messages) <==> TurnsOwnPages(valid, g, Sort("", false), messages)
  {
    RunBelongs(sortOf, valid, Describe(NewGrid(workspace, tab, relationId)).0, Sort("", false), messages);
  }

  // ----- a run that does not -----

  lemma SortKeyLoads(valid: Validator, g: Grid, relation: Relation, page: Page)
    requires Showing(g, relation, page, []) && g.io.active.None? && g.io.next == 3 && g.overlay == NoOverlay
    requires g.view.column == 0 && relation.columns != [] && relation.columns[0].sortable
    ensures
      var h := Step(valid, g, KeyPress(Character('s'))).0;
      Showing(h, relation, page, []) && InProgress(h, Paging, 3) && h.overlay == NoOverlay &&
      h.view.sort == NextSort(g.view.sort, relation.columns[0].name)
  {
  }

  lemma FailedLoadKeepsPage(valid: Validator, g: Grid, relation: Relation, page: Page, failure: Failure)
    requires Showing(g, relation, page, []) && InProgress(g, Paging, 3) && g.overlay == NoOverlay
    ensures
      var h := Step(valid, g, OperationFailed(Paging, failure, MetaOf(Paging, 3))).0;
      Showing(h, relation, page, []) && h.io.active.None? && h.overlay == NoOverlay && h.view.sort == g.view.sort
  {
  }

  lemma LoadRunSort(valid: Validator, relation: Relation, page: Page)
    requires relation.id != NO_RELATION && DistinctNames(relation.columns) && WellFormedRows(page.rows)
    ensures After(valid, NewTab(relation.id), LoadRun(relation, page)).view.sort == Sort("", false)
  {
    var load := [PageLoaded(page, MetaOf(Paging, 2))] + [];
    DescribedIsLoading(valid, relation);
    AfterStep(valid, NewTab(relation.id), RelationDescribed(relation, MetaOf(Describing, 1)), load);
    var loading := Step(valid, NewTab(relation.id), RelationDescribed(relation, MetaOf(Describing, 1))).0;
    AfterStep(valid, loading, PageLoaded(page, MetaOf(Paging, 2)), []);
  }

  /** A failing run, from a new tab on: the first page is shown and has a next one; the first
      column is chosen as the sort, and the load of its page fails or is cancelled; then Next
      sends the cursor of the page still shown with the sort just chosen. */
  lemma FailedSortMixesCursor(
    sortOf: SortOf, valid: Validator, relation: Relation, page: Page, failure: Failure)
    requires relation.id != NO_RELATION && DistinctNames(relation.columns) && WellFormedRows(page.rows)
    requires relation.columns != [] && relation.columns[0].sortable && relation.columns[0].name != ""
    requires page.next != "" && PageIsOf(sortOf, page, Sort("", false))
    ensures
      var shown := After(valid, NewTab(relation.id), LoadRun(relation, page));
      var sorting := Step(valid, shown, KeyPress(Character('s'))).0;
      var failed := Step(valid, sorting, OperationFailed(Paging, failure, MetaOf(Paging, 3))).0;
      var command := Step(valid, failed, KeyPress(Character('n'))).1;
      command.LoadPageCommand? && command.request.cursor == page.next &&
      command.request.sort == Sort(relation.columns[0].name, true) && !Belongs(sortOf, command.request)
  {
    var shown := After(valid, NewTab(relation.id), LoadRun(relation, page));
    LoadRunShows(valid, relation, page);
    LoadRunSort(valid, relation, page);
    SortKeyLoads(valid, shown, relation, page);
    var sorting := Step(valid, shown, KeyPress(Character('s'))).0;
    FailedLoadKeepsPage(valid, sorting, relation, page, failure);
    var failed := Step(valid, sorting, OperationFailed(Paging, failure, MetaOf(Paging, 3))).0;
    TurnSends(valid, failed, KeyPress(Character('n')));
  }
}
