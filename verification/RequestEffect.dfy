/** Which requests a workspace sends when, and what their results do. */
module RequestEffect {
  import opened Relations
  import opened WorkspaceRequests

  /** The request the workspace waits for, as the command that sent it named it. */
  function Awaited(l: Links, kind: RequestKind, request: nat): Meta { Meta(l.workspace, kind, request) }

  /** The first schema of that name. */
  predicate FirstNamed(l: Links, name: string, i: int) {
    0 <= i < |l.tree| && l.tree[i].name == name && forall j :: 0 <= j < i ==> l.tree[j].name != name
  }

  lemma {:induction false} NodeIndexIsFirst(tree: seq<Node>, name: string, k: nat, i: nat)
    requires k <= i < |tree| && tree[i].name == name && forall j :: k <= j < i ==> tree[j].name != name
    ensures NodeIndex(tree, name, k) == i
    decreases i - k
  {
    if k < i { NodeIndexIsFirst(tree, name, k + 1, i); }
  }

  /** A new workspace is connected, shows no schemas and waits for nothing. */
  lemma NewWorkspaceIsConnected(workspace: nat, n: nat)
    ensures
      var l := NewLinks(workspace);
      l.workspace == workspace && l.connection == Connected && l.tree == [] && !Pending(l, n) && l.next > 0
  {
  }

  // ----- requests -----

  /** Refreshing asks for the schemas, unless they are asked for already. */
  lemma RefreshingAsks(l: Links)
    ensures
      var (m, command) := Step(l, RefreshSchemas);
      if l.schemas != 0 then m == l && command == NoRequest
      else m == l.(schemas := l.next, next := l.next + 1) && command == Issue(Awaited(l, SchemasRequest, l.next))
  {
  }

  /** Toggling a schema expands or collapses it. Its relations are asked for when it is expanded
      without having them or having asked. */
  lemma TogglingAsksOnce(l: Links, i: nat)
    requires i < |l.tree|
    ensures
      var (m, command) := Step(l, ToggleSchema(i));
      |m.tree| == |l.tree| && m.tree[i].expanded == !l.tree[i].expanded &&
      (forall j :: 0 <= j < |l.tree| && j != i ==> m.tree[j] == l.tree[j]) &&
      if !l.tree[i].expanded && !l.tree[i].loaded && !l.tree[i].loading then
        command == Issue(Awaited(l, RelationsRequest(l.tree[i].name), l.next)) && m.next == l.next + 1 &&
        m.tree[i].request == l.next && m.tree[i].loading
      else
        command == NoRequest && m.next == l.next && m.tree[i] == l.tree[i].(expanded := !l.tree[i].expanded)
  {
  }

  lemma CollapsingHides(l: Links, i: nat)
    requires i < |l.tree|
    ensures
      var (m, command) := Step(l, CollapseSchema(i));
      command == NoRequest && m == l.(tree := m.tree) && |m.tree| == |l.tree| &&
      m.tree[i] == l.tree[i].(expanded := false) && forall j :: 0 <= j < |l.tree| && j != i ==> m.tree[j] == l.tree[j]
  {
  }

  /** A health check that is due is sent while the connection is up and none runs. */
  lemma HealthIsChecked(l: Links)
    ensures
      var (m, command) := Step(l, HealthCheckDue(l.workspace, l.generation));
      if l.connection == Connected && l.health == 0
      then m == l.(health := l.next, next := l.next + 1) && command == Issue(Awaited(l, HealthRequest, l.next))
      else m == l && command == NoRequest
    ensures forall workspace, generation :: workspace != l.workspace || generation != l.generation ==>
      Step(l, HealthCheckDue(workspace, generation)) == (l, NoRequest)
  {
  }

  /** Reconnecting is possible when the connection is lost, once at a time. */
  lemma ReconnectingStarts(l: Links, clicked: bool)
    ensures
      var (m, command) := Step(l, Reconnect(clicked));
      if (l.connection == Lost || clicked) && l.reconnect == 0
      then m == l.(reconnect := l.next, next := l.next + 1, connection := Reconnecting) &&
           command == Issue(Awaited(l, ReconnectRequest, l.next))
      else m == l && command == NoRequest
  {
  }

  // ----- results that are awaited -----

  /** The schemas that were asked for are shown, collapsed, with nothing loaded. */
  lemma SchemasArrive(l: Links, names: seq<string>)
    requires l.schemas != 0
    ensures
      var (m, command) := Step(l, SchemasLoaded(names, Awaited(l, SchemasRequest, l.schemas)));
      m == l.(schemas := 0, tree := m.tree) && command == NoRequest && |m.tree| == |names| &&
      forall i :: 0 <= i < |names| ==> m.tree[i] == Node(names[i], false, false, false, 0)
  {
  }

  /** Relations that were asked for arrive at their schema. */
  lemma RelationsArrive(l: Links, name: string, i: nat)
    requires FirstNamed(l, name, i) && l.tree[i].request != 0
    ensures
      var (m, command) := Step(l, RelationsLoaded(name, Awaited(l, RelationsRequest(name), l.tree[i].request)));
      m == l.(tree := m.tree) && command == NoRequest && |m.tree| == |l.tree| &&
      m.tree[i] == l.tree[i].(loaded := true, loading := false, request := 0) &&
      forall j :: 0 <= j < |l.tree| && j != i ==> m.tree[j] == l.tree[j]
  {
    NodeIndexIsFirst(l.tree, name, 0, i);
  }

  lemma HealthIsFine(l: Links)
    requires l.health != 0
    ensures Step(l, ConnectionChecked(Awaited(l, HealthRequest, l.health))) == (l.(health := 0), NoRequest)
  {
  }

  /** A reconnection that was asked for brings the connection up, settles every other request,
      and asks for the schemas anew. */
  lemma ReconnectionArrives(l: Links)
    requires l.reconnect != 0
    ensures
      var (m, command) := Step(l, Reconnected(Awaited(l, ReconnectRequest, l.reconnect)));
      m.connection == Connected && m.reconnect == 0 && m.health == 0 && m.generation == l.generation + 1 &&
      m.schemas == l.next && m.next == l.next + 1 && command == Issue(Awaited(l, SchemasRequest, l.next)) &&
      |m.tree| == |l.tree| &&
      forall i :: 0 <= i < |l.tree| ==> m.tree[i] == l.tree[i].(loading := false, request := 0)
  {
  }

  /** A failure settles the request it is for. The connection is lost if it was the health check
      or the reconnection that failed, or if the network did, unless the request was cancelled;
      a cancelled reconnection leaves it lost. */
  lemma FailureArrives(l: Links, kind: RequestKind, request: nat, cancelled: bool, network: bool)
    requires request != 0
    requires match kind
             case SchemasRequest => l.schemas == request
             case HealthRequest => l.health == request
             case ReconnectRequest => l.reconnect == request
             case RelationsRequest(name) => exists i :: FirstNamed(l, name, i) && l.tree[i].request == request
    ensures
      var (m, command) := Step(l, Failed(kind, cancelled, network, Awaited(l, kind, request)));
      command == NoRequest && m.next == l.next && |m.tree| == |l.tree| &&
      m.connection == (if kind == ReconnectRequest || (!cancelled && (kind == HealthRequest || network)) then Lost
                       else l.connection) &&
      m.schemas == (if kind == SchemasRequest then 0 else l.schemas) &&
      m.health == (if kind == HealthRequest then 0 else l.health) &&
      m.reconnect == (if kind == ReconnectRequest then 0 else l.reconnect) &&
      forall i :: 0 <= i < |l.tree| ==>
        m.tree[i] == if kind.RelationsRequest? && FirstNamed(l, kind.schema, i)
                     then l.tree[i].(loading := false, request := 0) else l.tree[i]
  {
    if kind.RelationsRequest? {
      var i :| FirstNamed(l, kind.schema, i) && l.tree[i].request == request;
      NodeIndexIsFirst(l.tree, kind.schema, 0, i);
      forall j | FirstNamed(l, kind.schema, j) ensures j == i {
      }
    }
  }
}
