/** The workspace as the object it is, refining the tab and request functions. */
module WorkspaceModel {
  import opened Relations
  import opened WorkspaceTabs
  import R = WorkspaceRequests

  class Model {
    const id: nat
    var tabs: seq<Tab>
    var activeTab: Option<TabId>
    var nextTab: nat
    var focus: Focus
    var previousFocus: Focus
    var modal: Modal
    var schemas: seq<R.Node>
    var nextRequest: nat
    var schemasRequest: nat
    var healthRequest: nat
    var reconnectRequest: nat
    var healthGeneration: nat
    var connection: R.Connection

    function TabsState(): Shell
      reads this
    {
      Shell(tabs, activeTab, nextTab, focus, previousFocus, modal)
    }

    function LinksState(): R.Links
      reads this
    {
      R.Links(id, nextRequest, schemasRequest, healthRequest, reconnectRequest, healthGeneration, connection, schemas)
    }

    /** Tab identity, and pending requests that were issued under distinct numbers. */
    ghost predicate Valid()
      reads this
    {
      Inv(TabsState()) && R.Inv(LinksState()) && R.DistinctPending(LinksState())
    }

    constructor (id: nat)
      ensures TabsState() == NEW_SHELL && LinksState() == R.NewLinks(id) && Valid()
    {
      this.id := id;
      tabs, activeTab, nextTab, focus, previousFocus, modal := [], None, 1, OnNavigator, OnNavigator, NoModal;
      schemas, nextRequest, schemasRequest, healthRequest, reconnectRequest := [], 1, 0, 0, 0;
      healthGeneration, connection := 1, R.Connected;
      R.NewLinksInv(id);
    }

    // ----- tabs -----

    method FindTab(tab: TabId) returns (index: int)
      ensures index == IndexOfTab(tabs, tab, 0)
    {
      for i := 0 to |tabs|
        invariant IndexOfTab(tabs, tab, 0) == IndexOfTab(tabs, tab, i)
      {
        if tabs[i].id == tab {
          return i;
        }
      }
      return -1;
    }

    method FindActive() returns (index: int)
      ensures index == ActiveIndex(TabsState())
    {
      if activeTab.None? {
        return -1;
      }
      index := FindTab(activeTab.value);
    }

    method AnyHazardous() returns (found: bool)
      ensures found == HasHazardousTabs(TabsState())
    {
      for i := 0 to |tabs|
        invariant forall j :: 0 <= j < i ==> !Hazardous(tabs[j])
      {
        if Hazardous(tabs[i]) {
          return true;
        }
      }
      return false;
    }

    method OpenTableTab(relation: RelationId) returns (command: ShellCommand)
      modifies this`tabs, this`activeTab, this`nextTab, this`focus
      ensures (TabsState(), command) == Opened(old(TabsState()), relation)
    {
      for i := 0 to |tabs|
        invariant TabsState() == old(TabsState())
        invariant IndexOfRelation(tabs, relation, 0) == IndexOfRelation(tabs, relation, i)
      {
        if tabs[i].relation == Some(relation) {
          activeTab := Some(tabs[i].id);
          focus := tabs[i].lastFocus;
          return Nothing;
        }
      }
      var tab := TableTab(nextTab);
      nextTab := nextTab + 1;
      tabs := tabs + [Tab(tab, Some(relation), CLEAN, OnContent)];
      activeTab := Some(tab);
      focus := OnContent;
      return OpenTableIntent(tab, relation);
    }

    method OpenSQLTab() returns (command: ShellCommand)
      modifies this`tabs, this`activeTab, this`nextTab, this`focus
      ensures (TabsState(), command) == OpenedSql(old(TabsState()))
    {
      var tab := SqlTab(nextTab);
      nextTab := nextTab + 1;
      tabs := tabs + [Tab(tab, None, CLEAN, OnContent)];
      activeTab := Some(tab);
      focus := OnContent;
      return OpenSqlIntent(tab);
    }

    method CloseTabAt(index: nat)
      requires index < |tabs|
      modifies this`tabs, this`activeTab, this`focus
      ensures TabsState() == ClosedAt(old(TabsState()), index)
    {
      tabs := tabs[..index] + tabs[index + 1..];
      if |tabs| == 0 {
        activeTab := None;
        focus := OnTabs;
      } else {
        var next := index;
        if next >= |tabs| {
          next := |tabs| - 1;
        }
        activeTab := Some(tabs[next].id);
      }
    }

    method CloseActiveTab()
      modifies this
      ensures TabsState() == CloseRequested(old(TabsState())) && LinksState() == old(LinksState())
    {
      var index := FindActive();
      if index < 0 {
        return;
      }
      if Hazardous(tabs[index]) {
        previousFocus := focus;
        modal := Modal(CloseTab(tabs[index].id), false);
        return;
      }
      CloseTabAt(index);
    }

    method RequestLeave(kind: ModalKind) returns (command: ShellCommand)
      modifies this`previousFocus, this`modal
      ensures (TabsState(), command) == LeaveRequested(old(TabsState()), kind)
    {
      var hazardous := AnyHazardous();
      if !hazardous {
        return if kind == Quit then QuitIntent else DisconnectIntent;
      }
      previousFocus := focus;
      modal := Modal(kind, false);
      return Nothing;
    }

    method UpdateModalKey(key: ModalKey) returns (command: ShellCommand)
      requires modal.Modal?
      modifies this`modal, this`focus, this`tabs, this`activeTab
      ensures (TabsState(), command) == ModalKeyed(old(TabsState()), key)
    {
      command := Nothing;
      match key {
        case EscapeKey =>
          modal := NoModal;
          focus := previousFocus;
        case ToggleKey => modal := modal.(destructive := !modal.destructive);
        case EnterKey =>
          if !modal.destructive {
            modal := NoModal;
            focus := previousFocus;
            return;
          }
          var chosen := modal;
          modal := NoModal;
          match chosen.kind {
            case CloseTab(tab) =>
              var index := FindTab(tab);
              if index >= 0 {
                var operation := tabs[index].state.operation;
                CloseTabAt(index);
                if operation != "" {
                  command := CancelIntent(operation);
                }
              }
            case Disconnect => command := DisconnectIntent;
            case Quit => command := QuitIntent;
          }
        case OtherModalKey =>
      }
    }

    method RememberFocus()
      modifies this`tabs
      ensures TabsState() == Remembered(old(TabsState()))
    {
      var index := FindActive();
      if index >= 0 && focus == OnContent {
        tabs := tabs[index := tabs[index].(lastFocus := focus)];
      }
    }

    method MoveTab(delta: int)
      requires delta == 1 || delta == -1
      modifies this`activeTab, this`focus, this`tabs
      ensures TabsState() == TabMoved(old(TabsState()), delta)
    {
      if |tabs| == 0 {
        return;
      }
      var index := FindActive();
      if index < 0 {
        index := 0;
      } else {
        index := Wrapped(index, delta, |tabs|);
      }
      activeTab := Some(tabs[index].id);
      if focus == OnContent {
        focus := tabs[index].lastFocus;
      }
      RememberFocus();
    }

    method MoveFocus(delta: int)
      requires delta == 1 || delta == -1
      modifies this`focus, this`tabs
      ensures TabsState() == FocusMoved(old(TabsState()), delta)
    {
      var focuses := [OnNavigator, OnTabs];
      if activeTab.Some? {
        focuses := focuses + [OnContent];
      }
      var index := 0;
      for candidate := 0 to |focuses|
        invariant index == 0 && forall j :: 0 <= j < candidate ==> focuses[j] != focus
      {
        if focuses[candidate] == focus {
          index := candidate;
          break;
        }
      }
      assert focuses[0] == OnNavigator && focuses[1] == OnTabs && (|focuses| == 3 ==> focuses[2] == OnContent);
      assert index == FocusIndex(focus, |focuses|);
      RememberFocus();
      ghost var remembered := TabsState();
      focus := focuses[Wrapped(index, delta, |focuses|)];
      assert TabsState() == remembered.(focus := focus);
    }

    /** A content reports its state; the first tab of that identifier takes it. */
    method TabStateChanged(tab: TabId, state: TabState)
      modifies this`tabs
      ensures TabsState() == Reported(old(TabsState()), tab, state)
    {
      var index := FindTab(tab);
      if index >= 0 {
        tabs := tabs[index := tabs[index].(state := state)];
      }
    }

    /** Keys and clicks on the tabs while no confirmation is open. */
    method UpdateTabs(event: Event) returns (command: ShellCommand)
      requires modal.NoModal?
      modifies this
      ensures (TabsState(), command) == Step(old(TabsState()), event) && LinksState() == old(LinksState())
    {
      command := Nothing;
      match event {
        case OpenTable(relation) => command := OpenTableTab(relation);
        case OpenSql => command := OpenSQLTab();
        case CloseActive => CloseActiveTab();
        case MoveTab(delta) => if delta == 1 || delta == -1 { MoveTab(delta); }
        case MoveFocus(delta) => if delta == 1 || delta == -1 { MoveFocus(delta); }
        case SelectTab(index) =>
          if 0 <= index < |tabs| {
            focus, activeTab := OnTabs, Some(tabs[index].id);
          }
        case CloseTabAtClick(index) =>
          if 0 <= index < |tabs| {
            focus, activeTab := OnTabs, Some(tabs[index].id);
            CloseActiveTab();
          }
        case EnterContent =>
          if activeTab.Some? {
            focus := OnContent;
            RememberFocus();
          }
        case EscapeFocus(wide) =>
          if focus == OnContent || (focus == OnNavigator && !wide) {
            focus := OnTabs;
          }
        case Leave(kind) => if !kind.CloseTab? { command := RequestLeave(kind); }
        case ContentChanged(tab, state) => TabStateChanged(tab, state);
        case PressModal(_) =>
        case ClickModal(_) =>
      }
    }

    method UpdateModal(event: Event) returns (command: ShellCommand)
      requires modal.Modal?
      modifies this
      ensures (TabsState(), command) == Step(old(TabsState()), event) && LinksState() == old(LinksState())
    {
      command := Nothing;
      match event {
        case PressModal(key) => command := UpdateModalKey(key);
        case ClickModal(apply) =>
          modal := modal.(destructive := apply);
          command := UpdateModalKey(EnterKey);
        case ContentChanged(tab, state) => TabStateChanged(tab, state);
        case _ =>
      }
    }

    /** Whatever happens to the tabs, their identity is kept. */
    method Update(event: Event) returns (command: ShellCommand)
      modifies this
      ensures (TabsState(), command) == Step(old(TabsState()), event) && LinksState() == old(LinksState())
      ensures old(Valid()) ==> Valid()
    {
      ghost var before := TabsState();
      if modal.Modal? {
        command := UpdateModal(event);
      } else {
        command := UpdateTabs(event);
      }
      if Inv(before) { StepKeepsTabs(before, event); }
    }

    // ----- requests -----

    method FindSchema(name: string) returns (index: int)
      ensures index == R.NodeIndex(schemas, name, 0)
    {
      for i := 0 to |schemas|
        invariant R.NodeIndex(schemas, name, 0) == R.NodeIndex(schemas, name, i)
      {
        if schemas[i].name == name {
          return i;
        }
      }
      return -1;
    }

    method NewRequest() returns (request: nat)
      modifies this`nextRequest
      ensures request == old(nextRequest) && nextRequest == request + 1
    {
      request := nextRequest;
      nextRequest := nextRequest + 1;
    }

    method RefreshSchemas() returns (command: R.Command)
      modifies this`nextRequest, this`schemasRequest
      ensures (LinksState(), command) == R.Refreshed(old(LinksState()))
    {
      if schemasRequest != 0 {
        return R.NoRequest;
      }
      schemasRequest := NewRequest();
      return R.Issue(R.Meta(id, R.SchemasRequest, schemasRequest));
    }

    method ToggleSchema(index: nat) returns (command: R.Command)
      requires index < |schemas|
      modifies this`schemas, this`nextRequest
      ensures (LinksState(), command) == R.Toggled(old(LinksState()), index)
    {
      var node := schemas[index].(expanded := !schemas[index].expanded);
      if !node.expanded || node.loaded || node.loading {
        schemas := schemas[index := node];
        return R.NoRequest;
      }
      var request := NewRequest();
      schemas := schemas[index := node.(loading := true, request := request)];
      return R.Issue(R.Meta(id, R.RelationsRequest(node.name), request));
    }

    /** Keys ask for it only while the connection is lost; a button drawn then may be clicked later. */
    method StartReconnect() returns (command: R.Command)
      modifies this`nextRequest, this`reconnectRequest, this`connection
      ensures (LinksState(), command) == R.Step(old(LinksState()), R.Reconnect(true))
    {
      if reconnectRequest != 0 {
        return R.NoRequest;
      }
      reconnectRequest := NewRequest();
      connection := R.Reconnecting;
      return R.Issue(R.Meta(id, R.ReconnectRequest, reconnectRequest));
    }

    method QuietSchemas()
      modifies this`schemas
      ensures schemas == R.Quieted(old(schemas))
    {
      var nodes := schemas;
      for i := 0 to |nodes|
        invariant |schemas| == |nodes|
        invariant forall j :: 0 <= j < i ==> schemas[j] == nodes[j].(loading := false, request := 0)
        invariant forall j :: i <= j < |nodes| ==> schemas[j] == nodes[j]
      {
        schemas := schemas[i := schemas[i].(loading := false, request := 0)];
      }
    }

    method Reconnected(meta: R.Meta) returns (command: R.Command)
      modifies this
      ensures (LinksState(), command) == R.Step(old(LinksState()), R.Event.Reconnected(meta))
      ensures TabsState() == old(TabsState())
    {
      if reconnectRequest == 0 || meta != R.Meta(id, R.ReconnectRequest, reconnectRequest) {
        return R.NoRequest;
      }
      reconnectRequest, schemasRequest, healthRequest := 0, 0, 0;
      QuietSchemas();
      connection := R.Connected;
      healthGeneration := healthGeneration + 1;
      command := RefreshSchemas();
    }

    method HandleFailure(kind: R.RequestKind, cancelled: bool, network: bool, meta: R.Meta)
      modifies this`schemasRequest, this`healthRequest, this`reconnectRequest, this`schemas, this`connection
      ensures LinksState() == R.HandleFailure(old(LinksState()), kind, cancelled, network, meta)
    {
      if meta.workspace != id {
        return;
      }
      match kind {
        case SchemasRequest =>
          if !R.Matches(LinksState(), kind, meta, schemasRequest) { return; }
          schemasRequest := 0;
        case RelationsRequest(schema) =>
          var index := FindSchema(schema);
          if index < 0 || !R.Matches(LinksState(), kind, meta, schemas[index].request) { return; }
          schemas := schemas[index := schemas[index].(loading := false, request := 0)];
        case HealthRequest =>
          if !R.Matches(LinksState(), kind, meta, healthRequest) { return; }
          healthRequest := 0;
          if !cancelled {
            connection := R.Lost;
          }
        case ReconnectRequest =>
          if !R.Matches(LinksState(), kind, meta, reconnectRequest) { return; }
          reconnectRequest := 0;
          connection := R.Lost;
      }
      if !cancelled && network {
        connection := R.Lost;
      }
    }

    method SetSchemas(names: seq<string>, meta: R.Meta)
      modifies this`schemas, this`schemasRequest
      ensures LinksState() == R.Step(old(LinksState()), R.SchemasLoaded(names, meta)).0
    {
      if !R.Matches(LinksState(), R.SchemasRequest, meta, schemasRequest) {
        return;
      }
      schemasRequest := 0;
      var nodes: seq<R.Node> := [];
      for i := 0 to |names|
        invariant nodes == R.FreshNodes(names[..i])
      {
        nodes := nodes + [R.Node(names[i], false, false, false, 0)];
      }
      assert names[..|names|] == names;
      schemas := nodes;
    }

    method RelationsLoaded(schema: string, meta: R.Meta)
      modifies this`schemas
      ensures LinksState() == R.Step(old(LinksState()), R.RelationsLoaded(schema, meta)).0
    {
      var index := FindSchema(schema);
      if index < 0 || !R.Matches(LinksState(), R.RelationsRequest(schema), meta, schemas[index].request) {
        return;
      }
      schemas := schemas[index := schemas[index].(loading := false, loaded := true, request := 0)];
    }

    /** The health check that is due, unless one runs or the connection is gone. */
    method CheckHealth(workspace: nat, generation: nat) returns (command: R.Command)
      modifies this`nextRequest, this`healthRequest
      ensures (LinksState(), command) == R.Step(old(LinksState()), R.HealthCheckDue(workspace, generation))
    {
      if workspace != id || generation != healthGeneration || connection != R.Connected || healthRequest != 0 {
        return R.NoRequest;
      }
      healthRequest := NewRequest();
      return R.Issue(R.Meta(id, R.HealthRequest, healthRequest));
    }

    method DispatchRequests(event: R.Event) returns (command: R.Command)
      modifies this
      ensures (LinksState(), command) == R.Step(old(LinksState()), event) && TabsState() == old(TabsState())
    {
      command := R.NoRequest;
      match event {
        case SchemasLoaded(names, meta) => SetSchemas(names, meta);
        case RelationsLoaded(schema, meta) => RelationsLoaded(schema, meta);
        case ConnectionChecked(meta) =>
          if R.Matches(LinksState(), R.HealthRequest, meta, healthRequest) {
            healthRequest := 0;
          }
        case Reconnected(meta) => command := Reconnected(meta);
        case Failed(kind, cancelled, network, meta) => HandleFailure(kind, cancelled, network, meta);
        case HealthCheckDue(workspace, generation) => command := CheckHealth(workspace, generation);
        case ToggleSchema(index) => if 0 <= index < |schemas| { command := ToggleSchema(index); }
        case CollapseSchema(index) =>
          if 0 <= index < |schemas| {
            schemas := schemas[index := schemas[index].(expanded := false)];
          }
        case RefreshSchemas => command := RefreshSchemas();
        case Reconnect(clicked) => if connection == R.Lost || clicked { command := StartReconnect(); }
      }
    }

    /** Whatever happens to the requests, pending ones keep distinct numbers that were issued. */
    method UpdateRequests(event: R.Event) returns (command: R.Command)
      modifies this
      ensures (LinksState(), command) == R.Step(old(LinksState()), event) && TabsState() == old(TabsState())
      ensures old(Valid()) ==> Valid()
    {
      ghost var before := LinksState();
      command := DispatchRequests(event);
      if R.Inv(before) && R.DistinctPending(before) { R.StepKeepsLinks(before, event); }
    }
  }
}
