/** What happens to tab contents when tabs open, report and close, and when workspaces come and
    go. */
module ContentEffect {
  import opened Relations
  import opened WorkspaceTabs
  import opened ContentSync

  predicate HasTab(s: Shell, id: TabId) { exists k :: 0 <= k < |s.tabs| && s.tabs[k].id == id }

  lemma OpenHasTab(s: Shell, id: TabId)
    ensures IsOpen(s, id) <==> HasTab(s, id)
  {
    if IsOpen(s, id) { assert s.tabs[IndexOfTab(s.tabs, id, 0)].id == id; }
  }

  /** A new connection shows an empty workspace with a number of its own. */
  lemma ConnectingStartsAfresh(c: Contents)
    ensures
      var (d, command) := ContentSync.Step(c, ConnectionInstalled);
      d.ready && d.workspace == c.workspace + 1 && d.tables == map[] && d.sqlTabs == map[] && d.shell.tabs == [] &&
      d.shell.active.None? && d.shell.modal.NoModal? && d.shell.focus == OnNavigator && command == Nothing
  {
  }

  /** Leaving the workspace drops every content. Until the next connection nothing happens. */
  lemma LeavingDropsContents(c: Contents, e: AppEvent)
    requires !e.ConnectionInstalled?
    ensures
      var (d, command) := ContentSync.Step(c, WorkspaceLeft);
      !d.ready && d.tables == map[] && d.sqlTabs == map[] && command == Nothing && d.workspace == c.workspace &&
      ContentSync.Step(d, e) == (d, Nothing)
  {
  }

  /** The shell differs in what it shows for that tab, which is the state. */
  predicate ShownFor(s: Shell, t: Shell, id: TabId, state: TabState) {
    t == s.(tabs := t.tabs) && |t.tabs| == |s.tabs| &&
    forall k :: 0 <= k < |s.tabs| ==> t.tabs[k] == if s.tabs[k].id == id then s.tabs[k].(state := state) else s.tabs[k]
  }

  lemma ReportedShows(s: Shell, id: TabId, state: TabState)
    requires WorkspaceTabs.Inv(s)
    ensures ShownFor(s, Reported(s, id, state), id, state)
  {
    forall k | 0 <= k < |s.tabs|
      ensures Reported(s, id, state).tabs[k] ==
              if s.tabs[k].id == id then s.tabs[k].(state := state) else s.tabs[k]
    {
      ReportingShowsOne(s, id, state, k);
    }
  }

  lemma ReportingShowsOne(s: Shell, id: TabId, state: TabState, k: nat)
    requires WorkspaceTabs.Inv(s) && k < |s.tabs|
    ensures |Reported(s, id, state).tabs| == |s.tabs| &&
            Reported(s, id, state).tabs[k] == if s.tabs[k].id == id then s.tabs[k].(state := state) else s.tabs[k]
  {
    if s.tabs[k].id == id { assert IndexOfTab(s.tabs, id, 0) == k; }
  }

  /** A tab's content is created once, for the workspace that asked for it. */
  lemma TableIsCreatedOnce(c: Contents, workspace: nat, tab: TabId, state: TabState)
    requires WorkspaceTabs.Inv(c.shell)
    ensures
      var (d, command) := ContentSync.Step(c, TableOpened(workspace, tab, state));
      command == Nothing &&
      if c.ready && workspace == c.workspace && tab !in c.tables
      then d == c.(tables := c.tables[tab := state], shell := d.shell) && ShownFor(c.shell, d.shell, tab, state)
      else d == c
  {
    ReportedShows(c.shell, tab, state);
  }

  lemma SqlIsCreatedOnce(c: Contents, workspace: nat, tab: TabId, state: TabState)
    requires WorkspaceTabs.Inv(c.shell)
    ensures
      var (d, command) := ContentSync.Step(c, SqlOpened(workspace, tab, state));
      command == Nothing &&
      if c.ready && workspace == c.workspace && tab !in c.sqlTabs
      then d == c.(sqlTabs := c.sqlTabs[tab := state], shell := d.shell) && ShownFor(c.shell, d.shell, tab, state)
      else d == c
  {
    ReportedShows(c.shell, tab, state);
  }

  /** A content's new state is kept as its own and shown by the shell; no other content changes. */
  lemma ReportIsKeptAndShown(c: Contents, tab: TabId, state: TabState)
    requires Synced(c) && c.ready && (tab in c.tables || tab in c.sqlTabs)
    ensures
      var (d, command) := ContentSync.Step(c, ContentUpdated(tab, state, false));
      command == Nothing && ShownFor(c.shell, d.shell, tab, state) &&
      d == c.(shell := d.shell, tables := if tab in c.tables then c.tables[tab := state] else c.tables,
              sqlTabs := if tab in c.sqlTabs then c.sqlTabs[tab := state] else c.sqlTabs)
  {
    ReportedShows(c.shell, tab, state);
  }

  /** A click into a content also moves the focus there, if a tab is active and no dialog open. */
  lemma ClickMovesFocus(c: Contents, tab: TabId, state: TabState)
    requires Synced(c) && c.ready && (tab in c.tables || tab in c.sqlTabs)
    ensures
      var d := ContentSync.Step(c, ContentUpdated(tab, state, true)).0;
      var other := ContentSync.Step(c, ContentUpdated(tab, state, false)).0;
      d.tables == other.tables && d.sqlTabs == other.sqlTabs && d.shell.active == c.shell.active &&
      d.shell.modal == c.shell.modal &&
      d.shell.focus == if c.shell.active.Some? && c.shell.modal.NoModal? then OnContent else c.shell.focus
  {
    FocusOnContent(c.shell);
  }

  lemma FocusOnContent(s: Shell)
    ensures
      var t := Focused(s, true);
      t.active == s.active && t.modal == s.modal &&
      t.focus == if s.active.Some? && s.modal.NoModal? then OnContent else s.focus
  {
  }

  // ----- opening, closing and switching tabs -----

  /** The contents that are left are those of the tabs still open. A SQL tab that becomes active
      no longer counts as failed; every other content keeps its state. */
  lemma ContentsFollowTabs(c: Contents, e: Event, id: TabId)
    requires c.ready
    ensures
      var shell := WorkspaceTabs.Step(c.shell, e).0;
      var d := ContentSync.Step(c, ShellEvent(e)).0;
      (id in d.tables <==> id in c.tables && HasTab(shell, id)) && (id in d.tables ==> d.tables[id] == c.tables[id]) &&
      (id in d.sqlTabs <==> id in c.sqlTabs && HasTab(shell, id)) &&
      (id in d.sqlTabs ==>
         d.sqlTabs[id] ==
           if c.sqlTabs[id].lifecycle == TabFailed && shell.active == Some(id) && c.shell.active != Some(id)
           then c.sqlTabs[id].(lifecycle := TabIdle) else c.sqlTabs[id]) &&
      d.ready && d.workspace == c.workspace && d.shell.active == shell.active && d.shell.modal == shell.modal &&
      d.shell.focus == shell.focus && |d.shell.tabs| == |shell.tabs|
  {
    var shell := WorkspaceTabs.Step(c.shell, e).0;
    OpenHasTab(shell, id);
    AppliedFollows(c, shell, id);
  }

  lemma AppliedFollows(c: Contents, shell: Shell, id: TabId)
    ensures
      var d := Applied(c, shell);
      (id in d.tables <==> id in c.tables && IsOpen(shell, id)) && (id in d.tables ==> d.tables[id] == c.tables[id]) &&
      (id in d.sqlTabs <==> id in c.sqlTabs && IsOpen(shell, id)) &&
      (id in d.sqlTabs ==>
         d.sqlTabs[id] ==
           if c.sqlTabs[id].lifecycle == TabFailed && shell.active == Some(id) && c.shell.active != Some(id)
           then c.sqlTabs[id].(lifecycle := TabIdle) else c.sqlTabs[id]) &&
      d.ready == c.ready && d.workspace == c.workspace && d.shell.active == shell.active &&
      d.shell.modal == shell.modal && d.shell.focus == shell.focus && |d.shell.tabs| == |shell.tabs|
  {
  }

  /** Without a workspace the shell does nothing. */
  lemma NothingWithoutWorkspace(c: Contents, e: Event)
    requires !c.ready
    ensures ContentSync.Step(c, ShellEvent(e)) == (c, Nothing)
  {
  }

  /** What the shell asks for is passed on. */
  lemma CommandsArePassedOn(c: Contents, e: Event)
    requires c.ready
    ensures ContentSync.Step(c, ShellEvent(e)).1 == WorkspaceTabs.Step(c.shell, e).1
  {
  }
}
