/** The root model as the object it is: session, services, and the contents of the open tabs. */
module AppModel {
  import opened Relations
  import opened WorkspaceTabs
  import ContentSync
  import opened SessionCustody

  class App {
    var session: Option<Session>
    var catalog: Option<Session>
    var browser: Option<Session>
    var applier: Option<Session>
    var executor: Option<Session>
    var nextWorkspace: nat
    var workspaceReady: bool
    var shell: Shell
    var tables: map<TabId, TabState>
    var sqlTabs: map<TabId, TabState>
    ghost var connected: seq<Session>
    ghost var inbox: seq<Delivery>
    ghost var closing: seq<Session>
    ghost var closed: seq<Session>

    ghost function Sessions(): Custody
      reads this
    {
      Custody(connected, inbox, session, closing, closed, catalog, browser, applier, executor)
    }

    function State(): ContentSync.Contents
      reads this
    {
      ContentSync.Contents(nextWorkspace, workspaceReady, shell, tables, sqlTabs)
    }

    /** Each session has one owner, and the shell shows what the contents report. */
    ghost predicate Valid()
      reads this
    {
      SessionCustody.Inv(Sessions()) && ContentSync.Synced(State())
    }

    constructor ()
      ensures Sessions() == NOBODY && State() == ContentSync.LAUNCHER && Valid()
    {
      session, catalog, browser, applier, executor := None, None, None, None, None;
      nextWorkspace, workspaceReady, shell, tables, sqlTabs := 0, false, NEW_SHELL, map[], map[];
      connected, inbox, closing, closed := [], [], [], [];
    }

    // ----- sessions -----

    method CloseSession(s: Session)
      modifies this`closed
      ensures closed == old(closed) + [s]
    {
      closed := closed + [s];
    }

    method InstallSession(s: Session)
      requires s.catalog
      modifies this`session, this`closed, this`catalog, this`browser, this`applier, this`executor
      ensures Sessions() == Install(old(Sessions()), s) && State() == old(State())
    {
      if session.Some? {
        CloseSession(session.value);
      }
      session := Some(s);
      catalog := Some(s);
      browser := if s.browser then Some(s) else None;
      applier := if s.applier then Some(s) else None;
      executor := if s.executor then Some(s) else None;
    }

    method ShowWorkspace()
      modifies this`tables, this`sqlTabs, this`nextWorkspace, this`shell, this`workspaceReady
      ensures State() == ContentSync.Step(old(State()), ContentSync.ConnectionInstalled).0
    {
      tables, sqlTabs := map[], map[];
      nextWorkspace := nextWorkspace + 1;
      shell := NEW_SHELL;
      workspaceReady := true;
    }

    method ReleaseSession()
      modifies this`session, this`catalog, this`browser, this`applier, this`executor, this`closing
      ensures Sessions() == SessionCustody.Step(old(Sessions()), Disconnects)
    {
      closing := closing + Held(session);
      session, catalog, browser, applier, executor := None, None, None, None, None;
    }

    /** A connection arrives: closed if nobody waits for it or it has no catalog, else installed
        under a new workspace without tabs. */
    method ConnectionSucceeded(s: Session, ghost index: nat, request: nat, expected: bool)
      requires index < |inbox| && inbox[index] == Connection(s, request)
      modifies this
      ensures Sessions() == SessionCustody.Step(old(Sessions()), Deliver(index, expected))
      ensures State() == if expected && s.catalog then ContentSync.Step(old(State()), ContentSync.ConnectionInstalled).0
                         else old(State())
    {
      inbox := Dropped(inbox, index);
      if !expected {
        CloseSession(s);
        return;
      }
      if !s.catalog {
        CloseSession(s);
        return;
      }
      InstallSession(s);
      ShowWorkspace();
    }

    /** A reconnection keeps the tabs. */
    method ReconnectionSucceeded(s: Session, ghost index: nat, expected: bool)
      requires index < |inbox| && inbox[index] == Reconnection(s)
      modifies this
      ensures Sessions() == SessionCustody.Step(old(Sessions()), Deliver(index, workspaceReady && expected))
      ensures State() == old(State())
    {
      inbox := Dropped(inbox, index);
      if !workspaceReady || !expected {
        CloseSession(s);
        return;
      }
      if !s.catalog {
        CloseSession(s);
        return;
      }
      InstallSession(s);
    }

    /** Everything of the workspace goes at once; the session is closed by a command that runs later. */
    method DisconnectWorkspace()
      modifies this
      ensures Sessions() == SessionCustody.Step(old(Sessions()), Disconnects)
      ensures State() == ContentSync.Step(old(State()), ContentSync.WorkspaceLeft).0
    {
      ReleaseSession();
      tables, sqlTabs := map[], map[];
      workspaceReady := false;
    }

    /** The connect command: its session is delivered, or closed if the profile cannot be saved. */
    method Connect(s: Session, request: nat, commits: bool)
      modifies this`connected, this`inbox, this`closed
      ensures Sessions() == SessionCustody.Step(old(Sessions()), Connects(s, request, commits))
      ensures State() == old(State())
    {
      connected := connected + [s];
      if !commits {
        CloseSession(s);
        return;
      }
      inbox := inbox + [Connection(s, request)];
    }

    /** The reconnect command: its session is delivered. */
    method ReconnectWorkspace(s: Session)
      modifies this`connected, this`inbox
      ensures Sessions() == SessionCustody.Step(old(Sessions()), Reconnects(s))
      ensures State() == old(State())
    {
      connected := connected + [s];
      inbox := inbox + [Reconnection(s)];
    }

    /** The command that closes a session given up earlier. */
    method RunClose(ghost index: nat)
      requires index < |closing|
      modifies this`closing, this`closed
      ensures Sessions() == SessionCustody.Step(old(Sessions()), RunsClose(index))
      ensures State() == old(State())
    {
      ghost var s := closing[index];
      closing := Dropped(closing, index);
      closed := closed + [s];
    }

    /** A command of the runtime ends: connect, reconnect, or close. Connect returns new sessions. */
    method RunCommand(e: SessionCustody.Event)
      requires e.Connects? || e.Reconnects? || (e.RunsClose? && 0 <= e.index < |closing|)
      modifies this
      ensures Sessions() == SessionCustody.Step(old(Sessions()), e) && State() == old(State())
      ensures old(Valid() && Fresh(Sessions(), e)) ==> Valid()
    {
      ghost var sessions := Sessions();
      match e {
        case Connects(s, request, commits) => Connect(s, request, commits);
        case Reconnects(s) => ReconnectWorkspace(s);
        case RunsClose(index) => RunClose(index);
      }
      if Fresh(sessions, e) { KeepsCustody(sessions, e); }
    }

    /** A session arrives or is given up; each still has one owner. */
    method Receive(d: Delivery, ghost index: nat, expected: bool)
      requires index < |inbox| && inbox[index] == d
      modifies this
      ensures old(Valid()) ==> Valid()
    {
      ghost var sessions, contents := Sessions(), State();
      ghost var wanted := expected && (d.Connection? || workspaceReady);
      match d {
        case Connection(s, request) => ConnectionSucceeded(s, index, request, expected);
        case Reconnection(s) => ReconnectionSucceeded(s, index, expected);
      }
      KeepsCustody(sessions, Deliver(index, wanted));
      KeepsSynced(contents, ContentSync.ConnectionInstalled);
    }

    method Leave()
      modifies this
      ensures old(Valid()) ==> Valid()
    {
      ghost var sessions, contents := Sessions(), State();
      DisconnectWorkspace();
      KeepsCustody(sessions, Disconnects);
      KeepsSynced(contents, ContentSync.WorkspaceLeft);
    }

    // ----- contents -----

    method SyncState(tab: TabId, state: TabState)
      modifies this`shell
      ensures shell == Reported(old(shell), tab, state)
    {
      shell := Reported(shell, tab, state);
    }

    method Reconcile(contents: map<TabId, TabState>) returns (kept: map<TabId, TabState>)
      ensures kept == ContentSync.Reconciled(shell, contents)
    {
      var open: set<TabId> := {};
      for i := 0 to |shell.tabs|
        invariant forall id :: id in open <==> exists j :: 0 <= j < i && shell.tabs[j].id == id
      {
        open := open + {shell.tabs[i].id};
      }
      kept := map id | id in contents && id in open :: contents[id];
      forall id ensures id in open <==> ContentSync.IsOpen(shell, id) {
        if id in open {
          var j :| 0 <= j < |shell.tabs| && shell.tabs[j].id == id;
        }
      }
    }

    /** A message for the shell; contents without a tab go and a SQL tab that became active is visited. */
    method UpdateWorkspace(event: WorkspaceTabs.Event) returns (command: ShellCommand)
      requires workspaceReady
      modifies this`shell, this`tables, this`sqlTabs
      ensures (State(), command) == ContentSync.Step(old(State()), ContentSync.ShellEvent(event))
    {
      var previous := shell.active;
      var step := WorkspaceTabs.Step(shell, event);
      shell, command := step.0, step.1;
      tables := Reconcile(tables);
      sqlTabs := Reconcile(sqlTabs);
      if shell.active != previous && shell.active.Some? && shell.active.value in sqlTabs {
        var id := shell.active.value;
        var visited := ContentSync.Visited(sqlTabs[id]);
        sqlTabs := sqlTabs[id := visited];
        SyncState(id, visited);
      }
    }

    method OpenTable(workspace: nat, tab: TabId, state: TabState)
      modifies this`tables, this`shell
      ensures State() == ContentSync.Step(old(State()), ContentSync.TableOpened(workspace, tab, state)).0
    {
      if !workspaceReady || workspace != nextWorkspace {
        return;
      }
      if tab in tables {
        return;
      }
      tables := tables[tab := state];
      SyncState(tab, state);
    }

    method OpenSQL(workspace: nat, tab: TabId, state: TabState)
      modifies this`sqlTabs, this`shell
      ensures State() == ContentSync.Step(old(State()), ContentSync.SqlOpened(workspace, tab, state)).0
    {
      if !workspaceReady || workspace != nextWorkspace {
        return;
      }
      if tab in sqlTabs {
        return;
      }
      sqlTabs := sqlTabs[tab := state];
      SyncState(tab, state);
    }

    /** A content updated itself: stored and reported, if its tab still has one. */
    method UpdateContent(tab: TabId, state: TabState, click: bool)
      requires workspaceReady
      modifies this`tables, this`sqlTabs, this`shell
      ensures State() == ContentSync.Step(old(State()), ContentSync.ContentUpdated(tab, state, click)).0
    {
      if tab in tables {
        shell := ContentSync.Focused(shell, click);
        tables := tables[tab := state];
        SyncState(tab, state);
      } else if tab in sqlTabs {
        shell := ContentSync.Focused(shell, click);
        sqlTabs := sqlTabs[tab := state];
        SyncState(tab, state);
      }
    }

    method HandleEvent(event: ContentSync.AppEvent) returns (command: ShellCommand)
      requires !event.ConnectionInstalled? && !event.WorkspaceLeft?
      modifies this`shell, this`tables, this`sqlTabs
      ensures (State(), command) == ContentSync.Step(old(State()), event)
    {
      command := Nothing;
      match event {
        case ShellEvent(e) => if workspaceReady { command := UpdateWorkspace(e); }
        case TableOpened(workspace, tab, state) => OpenTable(workspace, tab, state);
        case SqlOpened(workspace, tab, state) => OpenSQL(workspace, tab, state);
        case ContentUpdated(tab, state, click) => if workspaceReady { UpdateContent(tab, state, click); }
      }
    }

    /** Messages of the workspace and of its contents; what the shell shows stays what they report. */
    method Update(event: ContentSync.AppEvent) returns (command: ShellCommand)
      requires !event.ConnectionInstalled? && !event.WorkspaceLeft?
      modifies this`shell, this`tables, this`sqlTabs
      ensures (State(), command) == ContentSync.Step(old(State()), event)
      ensures old(Valid() && ContentSync.Genuine(State(), event)) ==> Valid()
    {
      ghost var contents := State();
      command := HandleEvent(event);
      KeepsSynced(contents, event);
    }
  }

  lemma KeepsSynced(c: ContentSync.Contents, e: ContentSync.AppEvent)
    ensures ContentSync.Synced(c) && ContentSync.Genuine(c, e) ==> ContentSync.Synced(ContentSync.Step(c, e).0)
  {
    if ContentSync.Synced(c) && ContentSync.Genuine(c, e) { ContentSync.StepKeepsSynced(c, e); }
  }

  lemma KeepsCustody(c: Custody, e: SessionCustody.Event)
    requires Fresh(c, e)
    ensures SessionCustody.Inv(c) ==> SessionCustody.Inv(SessionCustody.Step(c, e))
  {
    if SessionCustody.Inv(c) { StepKeepsCustody(c, e); }
  }
}
