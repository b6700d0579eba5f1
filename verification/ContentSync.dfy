/** Content models of the open tabs and the shell's view of them. */
module ContentSync {
  import opened Relations
  import opened WorkspaceTabs

  /** The workspace shown, if any, and what its table and SQL contents report. */
  datatype Contents = Contents(
    workspace: nat, ready: bool, shell: Shell, tables: map<TabId, TabState>, sqlTabs: map<TabId, TabState>)

  datatype AppEvent =
    | ShellEvent(event: Event)
    | TableOpened(workspace: nat, tab: TabId, state: TabState)
    | SqlOpened(workspace: nat, tab: TabId, state: TabState)
    | ContentUpdated(tab: TabId, state: TabState, click: bool)
    | ConnectionInstalled
    | WorkspaceLeft

  const LAUNCHER := Contents(0, false, NEW_SHELL, map[], map[])

  predicate IsOpen(s: Shell, id: TabId) { IndexOfTab(s.tabs, id, 0) >= 0 }

  /** Drops the contents whose tab is gone. */
  function Reconciled(s: Shell, contents: map<TabId, TabState>): map<TabId, TabState> {
    map id | id in contents && IsOpen(s, id) :: contents[id]
  }

  /** Visiting a SQL tab clears a failure. */
  function Visited(state: TabState): TabState {
    if state.lifecycle == TabFailed then state.(lifecycle := TabIdle) else state
  }

  /** The contents beside a changed shell. */
  function Beside(c: Contents, shell: Shell): Contents {
    c.(shell := shell, tables := Reconciled(shell, c.tables), sqlTabs := Reconciled(shell, c.sqlTabs))
  }

  /** Contents without a tab go, and a SQL tab that became active is visited. */
  function Applied(c: Contents, shell: Shell): Contents {
    var kept := Beside(c, shell);
    if shell.active != c.shell.active && shell.active.Some? && shell.active.value in kept.sqlTabs then
      var id := shell.active.value;
      var visited := Visited(kept.sqlTabs[id]);
      kept.(sqlTabs := kept.sqlTabs[id := visited], shell := Reported(shell, id, visited))
    else kept
  }

  function ShellUpdated(c: Contents, e: Event): (Contents, ShellCommand) {
    var (shell, command) := WorkspaceTabs.Step(c.shell, e);
    (Applied(c, shell), command)
  }

  function Focused(s: Shell, click: bool): Shell { if click then WorkspaceTabs.Step(s, EnterContent).0 else s }

  /** A content reports its new state; a click on it also moves the shell's focus there. */
  function ContentStepped(c: Contents, tab: TabId, state: TabState, click: bool): Contents {
    var shell := Focused(c.shell, click);
    if tab in c.tables then c.(tables := c.tables[tab := state], shell := Reported(shell, tab, state))
    else if tab in c.sqlTabs then c.(sqlTabs := c.sqlTabs[tab := state], shell := Reported(shell, tab, state))
    else c
  }

  function Step(c: Contents, e: AppEvent): (Contents, ShellCommand) {
    match e
    case ShellEvent(event) => if c.ready then ShellUpdated(c, event) else (c, Nothing)
    case TableOpened(workspace, tab, state) =>
      (if !c.ready || workspace != c.workspace || tab in c.tables then c
       else c.(tables := c.tables[tab := state], shell := Reported(c.shell, tab, state)), Nothing)
    case SqlOpened(workspace, tab, state) =>
      (if !c.ready || workspace != c.workspace || tab in c.sqlTabs then c
       else c.(sqlTabs := c.sqlTabs[tab := state], shell := Reported(c.shell, tab, state)), Nothing)
    case ContentUpdated(tab, state, click) => (if c.ready then ContentStepped(c, tab, state, click) else c, Nothing)
    case ConnectionInstalled => (Contents(c.workspace + 1, true, NEW_SHELL, map[], map[]), Nothing)
    case WorkspaceLeft => (c.(ready := false, tables := map[], sqlTabs := map[]), Nothing)
  }

  // ----- the shell shows what the contents are -----

  /** What the content of a tab reports; a tab whose content is not created yet has none. */
  function StateOf(c: Contents, id: TabId): TabState {
    if id in c.tables then c.tables[id] else if id in c.sqlTabs then c.sqlTabs[id] else CLEAN
  }

  predicate TabShows(c: Contents, tab: Tab) { tab.state == StateOf(c, tab.id) }

  ghost predicate KeysBounded(c: Contents) {
    (forall id :: id in c.tables ==> id.TableTab? && id.n < c.shell.nextTab) &&
    forall id :: id in c.sqlTabs ==> id.SqlTab? && id.n < c.shell.nextTab
  }

  ghost predicate Synced(c: Contents) {
    if c.ready then
      WorkspaceTabs.Inv(c.shell) && KeysBounded(c) &&
      forall i :: 0 <= i < |c.shell.tabs| ==> TabShows(c, c.shell.tabs[i])
    else c.tables == map[] && c.sqlTabs == map[]
  }

  /** Open requests come from this shell; state reports come only from contents. */
  predicate Genuine(c: Contents, e: AppEvent) {
    match e
    case ShellEvent(event) => !event.ContentChanged?
    case TableOpened(workspace, tab, _) => workspace == c.workspace ==> tab.TableTab? && tab.n < c.shell.nextTab
    case SqlOpened(workspace, tab, _) => workspace == c.workspace ==> tab.SqlTab? && tab.n < c.shell.nextTab
    case _ => true
  }

  // ----- where the tabs of a step come from -----

  /** The tab was there in the same state, or is new and clean. */
  predicate ComesFrom(s: Shell, tab: Tab) {
    (exists i :: 0 <= i < |s.tabs| && s.tabs[i].id == tab.id && s.tabs[i].state == tab.state) ||
    (tab.id.n == s.nextTab && tab.state == CLEAN)
  }

  ghost predicate AllFrom(s: Shell, t: Shell) { forall i :: 0 <= i < |t.tabs| ==> ComesFrom(s, t.tabs[i]) }

  lemma SameFrom(s: Shell, t: Shell)
    requires SameStates(s.tabs, t.tabs)
    ensures AllFrom(s, t)
  {
  }

  lemma ClosedFrom(s: Shell, index: nat)
    requires index < |s.tabs|
    ensures AllFrom(s, ClosedAt(s, index))
  {
  }

  lemma CloseRequestedFrom(s: Shell)
    ensures AllFrom(s, CloseRequested(s))
  {
  }

  lemma ModalKeyedFrom(s: Shell, key: ModalKey)
    requires s.modal.Modal?
    ensures AllFrom(s, ModalKeyed(s, key).0) && ModalKeyed(s, key).0.nextTab == s.nextTab
  {
    var t := ModalKeyed(s, key).0;
    if key == EnterKey && s.modal.destructive && s.modal.kind.CloseTab? &&
      IndexOfTab(s.tabs, s.modal.kind.tab, 0) >= 0 {
      ClosedFrom(s.(modal := NoModal), IndexOfTab(s.tabs, s.modal.kind.tab, 0));
      assert AllFrom(s, t) by {
        forall i | 0 <= i < |t.tabs| ensures ComesFrom(s, t.tabs[i]) {
          assert ComesFrom(s.(modal := NoModal), t.tabs[i]);
        }
      }
    } else {
      SameFrom(s, t);
    }
  }

  lemma ModalFrom(s: Shell, e: Event)
    requires s.modal.Modal? && !e.ContentChanged?
    ensures AllFrom(s, ModalStep(s, e).0) && ModalStep(s, e).0.nextTab == s.nextTab
  {
    match e
    case PressModal(key) => ModalKeyedFrom(s, key);
    case ClickModal(apply) =>
      var chosen := Chosen(s, apply);
      ModalKeyedFrom(chosen, EnterKey);
      var t := ModalStep(s, e).0;
      forall i | 0 <= i < |t.tabs| ensures ComesFrom(s, t.tabs[i]) { assert ComesFrom(chosen, t.tabs[i]); }
    case _ => SameFrom(s, s);
  }

  /** Where the tabs after a step come from; identifiers only grow. */
  ghost predicate From(s: Shell, t: Shell) { AllFrom(s, t) && s.nextTab <= t.nextTab }

  lemma OpenTableFrom(s: Shell, relation: RelationId)
    ensures From(s, Opened(s, relation).0)
  {
  }

  lemma OpenSqlFrom(s: Shell)
    ensures From(s, OpenedSql(s).0)
  {
  }

  lemma CloseRequestedNumbers(s: Shell)
    ensures CloseRequested(s).nextTab == s.nextTab
  {
  }

  lemma CloseActiveFrom(s: Shell)
    requires s.modal.NoModal?
    ensures From(s, WorkspaceTabs.Step(s, CloseActive).0)
  {
    CloseRequestedFrom(s);
    CloseRequestedNumbers(s);
  }

  lemma CloseClickFrom(s: Shell, index: int)
    requires s.modal.NoModal?
    ensures From(s, WorkspaceTabs.Step(s, CloseTabAtClick(index)).0)
  {
    if 0 <= index < |s.tabs| {
      var chosen := s.(focus := OnTabs, active := Some(s.tabs[index].id));
      CloseRequestedFrom(chosen);
      CloseRequestedNumbers(chosen);
      FromSame(s, chosen, CloseRequested(chosen));
    } else {
      SameFrom(s, s);
    }
  }

  lemma FromSame(s: Shell, chosen: Shell, t: Shell)
    requires chosen.tabs == s.tabs && chosen.nextTab == s.nextTab && From(chosen, t)
    ensures From(s, t)
  {
    forall i | 0 <= i < |t.tabs| ensures ComesFrom(s, t.tabs[i]) {
      assert ComesFrom(chosen, t.tabs[i]);
    }
  }

  lemma OtherEventNumbers(s: Shell, e: Event)
    requires s.modal.NoModal? && !e.CloseActive? && !e.CloseTabAtClick? && !e.OpenTable? && !e.OpenSql?
    ensures WorkspaceTabs.Step(s, e).0.nextTab == s.nextTab
  {
  }

  lemma OtherEventFrom(s: Shell, e: Event)
    requires WorkspaceTabs.Inv(s) && s.modal.NoModal? && !e.ContentChanged?
    requires !e.CloseActive? && !e.CloseTabAtClick? && !e.OpenTable? && !e.OpenSql?
    ensures From(s, WorkspaceTabs.Step(s, e).0)
  {
    OtherEventsKeepTabs(s, e);
    SameFrom(s, WorkspaceTabs.Step(s, e).0);
    OtherEventNumbers(s, e);
  }

  lemma ShellStepFrom(s: Shell, e: Event)
    requires WorkspaceTabs.Inv(s) && !e.ContentChanged?
    ensures From(s, WorkspaceTabs.Step(s, e).0)
  {
    if s.modal.Modal? {
      ModalFrom(s, e);
    } else {
      match e
      case OpenTable(relation) => OpenTableFrom(s, relation);
      case OpenSql => OpenSqlFrom(s);
      case CloseActive => CloseActiveFrom(s);
      case CloseTabAtClick(index) => CloseClickFrom(s, index);
      case _ => OtherEventFrom(s, e);
    }
  }

  // ----- every event keeps shell and contents in step -----

  lemma ReportShows(c: Contents, shell: Shell, id: TabId, state: TabState, d: Contents)
    requires WorkspaceTabs.Inv(shell) && d.shell == Reported(shell, id, state) && StateOf(d, id) == state
    requires forall i :: 0 <= i < |shell.tabs| ==>
               shell.tabs[i].id == id || shell.tabs[i].state == StateOf(d, shell.tabs[i].id)
    ensures WorkspaceTabs.Inv(d.shell) && forall i :: 0 <= i < |d.shell.tabs| ==> TabShows(d, d.shell.tabs[i])
  {
    UnchangedInv(shell, d.shell);
    forall i | 0 <= i < |d.shell.tabs| ensures TabShows(d, d.shell.tabs[i]) {
      assert d.shell.tabs[i].id == shell.tabs[i].id;
      if shell.tabs[i].id == id { assert IndexOfTab(shell.tabs, id, 0) == i; }
    }
  }

  /** A tab that comes from a synced shell still shows its content. */
  lemma TabStaysShown(c: Contents, shell: Shell, i: nat)
    requires Synced(c) && c.ready && i < |shell.tabs| && ComesFrom(c.shell, shell.tabs[i])
    ensures TabShows(Beside(c, shell), shell.tabs[i])
  {
  }

  lemma BesideSynced(c: Contents, shell: Shell)
    requires Synced(c) && c.ready && WorkspaceTabs.Inv(shell) && AllFrom(c.shell, shell) &&
      c.shell.nextTab <= shell.nextTab
    ensures Synced(Beside(c, shell))
  {
    forall i | 0 <= i < |shell.tabs| ensures TabShows(Beside(c, shell), shell.tabs[i]) {
      assert ComesFrom(c.shell, shell.tabs[i]);
      TabStaysShown(c, shell, i);
    }
  }

  /** Setting the state of one content, and reporting it, keeps all shown. */
  lemma ReportSynced(c: Contents, id: TabId, state: TabState, d: Contents)
    requires Synced(c) && c.ready && d.ready && d.shell == Reported(c.shell, id, state) && id.n < c.shell.nextTab
    requires if id.TableTab? then d.tables == c.tables[id := state] && d.sqlTabs == c.sqlTabs
             else d.sqlTabs == c.sqlTabs[id := state] && d.tables == c.tables
    ensures Synced(d)
  {
    forall i | 0 <= i < |c.shell.tabs|
      ensures c.shell.tabs[i].id == id || c.shell.tabs[i].state == StateOf(d, c.shell.tabs[i].id)
    {
      assert TabShows(c, c.shell.tabs[i]);
    }
    ReportShows(c, c.shell, id, state, d);
  }

  lemma AppliedSynced(c: Contents, shell: Shell)
    requires Synced(c) && c.ready && WorkspaceTabs.Inv(shell) && AllFrom(c.shell, shell) &&
      c.shell.nextTab <= shell.nextTab
    ensures Synced(Applied(c, shell))
  {
    BesideSynced(c, shell);
    var kept := Beside(c, shell);
    if shell.active != c.shell.active && shell.active.Some? && shell.active.value in kept.sqlTabs {
      ReportSynced(kept, shell.active.value, Visited(kept.sqlTabs[shell.active.value]), Applied(c, shell));
    }
  }

  lemma ShellUpdateSynced(c: Contents, e: Event)
    requires Synced(c) && c.ready && !e.ContentChanged?
    ensures Synced(ShellUpdated(c, e).0)
  {
    StepKeepsTabs(c.shell, e);
    ShellStepFrom(c.shell, e);
    AppliedSynced(c, WorkspaceTabs.Step(c.shell, e).0);
  }

  lemma FocusedSynced(c: Contents, click: bool)
    requires Synced(c) && c.ready
    ensures Synced(c.(shell := Focused(c.shell, click))) && Focused(c.shell, click).nextTab == c.shell.nextTab
  {
    var shell := Focused(c.shell, click);
    StepKeepsTabs(c.shell, EnterContent);
    RememberedSame(c.shell.(focus := OnContent));
    forall i | 0 <= i < |shell.tabs| ensures TabShows(c.(shell := shell), shell.tabs[i]) {
      assert TabShows(c, c.shell.tabs[i]);
    }
  }

  lemma ContentStepSynced(c: Contents, tab: TabId, state: TabState, click: bool)
    requires Synced(c) && c.ready
    ensures Synced(ContentStepped(c, tab, state, click))
  {
    FocusedSynced(c, click);
    if tab in c.tables || tab in c.sqlTabs {
      ReportSynced(c.(shell := Focused(c.shell, click)), tab, state, ContentStepped(c, tab, state, click));
    }
  }

  /** After every event the dirty and running state shown for a tab is that of its content. */
  lemma StepKeepsSynced(c: Contents, e: AppEvent)
    requires Synced(c) && Genuine(c, e)
    ensures Synced(Step(c, e).0)
  {
    if c.ready {
      match e
      case ShellEvent(event) => ShellUpdateSynced(c, event);
      case ContentUpdated(tab, state, click) => ContentStepSynced(c, tab, state, click);
      case TableOpened(workspace, tab, state) =>
        if workspace == c.workspace && tab !in c.tables { ReportSynced(c, tab, state, Step(c, e).0); }
      case SqlOpened(workspace, tab, state) =>
        if workspace == c.workspace && tab !in c.sqlTabs { ReportSynced(c, tab, state, Step(c, e).0); }
      case ConnectionInstalled => NewShellInv();
      case WorkspaceLeft =>
    } else if e.ConnectionInstalled? {
      NewShellInv();
    }
  }

  function Run(c: Contents, events: seq<AppEvent>): Contents
    decreases |events|
  {
    if events == [] then c else Run(Step(c, events[0]).0, events[1..])
  }

  ghost predicate AllGenuine(c: Contents, events: seq<AppEvent>)
    decreases |events|
  {
    events == [] || (Genuine(c, events[0]) && AllGenuine(Step(c, events[0]).0, events[1..]))
  }

  lemma {:induction false} RunKeepsSynced(c: Contents, events: seq<AppEvent>)
    requires Synced(c) && AllGenuine(c, events)
    ensures Synced(Run(c, events))
    decreases |events|
  {
    if events != [] {
      StepKeepsSynced(c, events[0]);
      RunKeepsSynced(Step(c, events[0]).0, events[1..]);
    }
  }

  // ----- leaving and closing lose nothing unconfirmed -----

  predicate AtRisk(state: TabState) { state.dirty || state.lifecycle == TabRunning }

  /** In every reachable state: a request to quit or disconnect that was not explicitly confirmed
      is made only when no content of an open tab has unsaved or running work. */
  lemma LeavingLosesNothing(events: seq<AppEvent>, e: Event, id: TabId)
    requires AllGenuine(LAUNCHER, events) && Run(LAUNCHER, events).ready && IsOpen(Run(LAUNCHER, events).shell, id)
    requires
      var command := Step(Run(LAUNCHER, events), ShellEvent(e)).1;
      command == QuitIntent || command == DisconnectIntent
    requires !Confirms(Run(LAUNCHER, events).shell, e, Quit) && !Confirms(Run(LAUNCHER, events).shell, e, Disconnect)
    ensures !AtRisk(StateOf(Run(LAUNCHER, events), id))
  {
    var c := Run(LAUNCHER, events);
    RunKeepsSynced(LAUNCHER, events);
    LeavingIsSafe(c.shell, e);
    var i := IndexOfTab(c.shell.tabs, id, 0);
    assert TabShows(c, c.shell.tabs[i]) && !Hazardous(c.shell.tabs[i]);
  }

  /** In every reachable state: a shell event keeps the content of an open tab with unsaved or
      running work, unless it carries out the confirmed closing of that very tab. */
  lemma WorkIsKept(events: seq<AppEvent>, e: Event, id: TabId)
    requires AllGenuine(LAUNCHER, events) && Run(LAUNCHER, events).ready && IsOpen(Run(LAUNCHER, events).shell, id)
    requires !e.ContentChanged? && AtRisk(StateOf(Run(LAUNCHER, events), id))
    requires !Confirms(Run(LAUNCHER, events).shell, e, CloseTab(id))
    ensures
      var c := Run(LAUNCHER, events);
      var d := Step(c, ShellEvent(e)).0;
      IsOpen(d.shell, id) && AtRisk(StateOf(d, id)) && (id in c.tables ==> id in d.tables) &&
      (id in c.sqlTabs ==> id in d.sqlTabs)
  {
    var c := Run(LAUNCHER, events);
    RunKeepsSynced(LAUNCHER, events);
    var i := IndexOfTab(c.shell.tabs, id, 0);
    assert TabShows(c, c.shell.tabs[i]);
    HazardousTabsAreKept(c.shell, e, i);
    var shell := WorkspaceTabs.Step(c.shell, e).0;
    var k :| 0 <= k < |shell.tabs| && shell.tabs[k].id == id && shell.tabs[k].state == c.shell.tabs[i].state;
    assert IsOpen(shell, id);
    KeepsOpen(shell, id, c, e);
  }

  lemma KeepsOpen(shell: Shell, id: TabId, c: Contents, e: Event)
    requires shell == WorkspaceTabs.Step(c.shell, e).0 && IsOpen(shell, id) && AtRisk(StateOf(c, id))
    ensures
      var d := ShellUpdated(c, e).0;
      IsOpen(d.shell, id) && AtRisk(StateOf(d, id)) && (id in c.tables ==> id in d.tables) &&
      (id in c.sqlTabs ==> id in d.sqlTabs)
  {
    var d := ShellUpdated(c, e).0;
    var i := IndexOfTab(shell.tabs, id, 0);
    assert d.shell.tabs[i].id == id;
  }
}
