/** The catalog, health and reconnect requests of a workspace, and which results count. */
module WorkspaceRequests {
  import opened Relations

  datatype Connection = Connected | Lost | Reconnecting

  datatype RequestKind = SchemasRequest | RelationsRequest(schema: string) | HealthRequest | ReconnectRequest

  datatype Meta = Meta(workspace: nat, kind: RequestKind, request: nat)

  /** A schema in the tree; request 0 means none is pending. */
  datatype Node = Node(name: string, expanded: bool, loaded: bool, loading: bool, request: nat)

  datatype Links = Links(
    workspace: nat, next: nat, schemas: nat, health: nat, reconnect: nat, generation: nat, connection: Connection,
    tree: seq<Node>)

  datatype Event =
    | SchemasLoaded(names: seq<string>, meta: Meta)
    | RelationsLoaded(schema: string, meta: Meta)
    | ConnectionChecked(meta: Meta)
    | Reconnected(meta: Meta)
    | Failed(kind: RequestKind, cancelled: bool, network: bool, meta: Meta)
    | HealthCheckDue(workspace: nat, generation: nat)
    | ToggleSchema(index: int)
    | CollapseSchema(index: int)
    | RefreshSchemas
    | Reconnect(clicked: bool)

  datatype Command = NoRequest | Issue(meta: Meta)

  function NewLinks(workspace: nat): Links { Links(workspace, 1, 0, 0, 0, 1, Connected, []) }

  predicate Matches(l: Links, kind: RequestKind, actual: Meta, request: nat) {
    request != 0 && actual == Meta(l.workspace, kind, request)
  }

  function NodeIndex(tree: seq<Node>, name: string, k: nat): (i: int)
    requires k <= |tree|
    ensures i == -1 || (k <= i < |tree| && tree[i].name == name)
    decreases |tree| - k
  {
    if k == |tree| then -1 else if tree[k].name == name then k else NodeIndex(tree, name, k + 1)
  }

  function FreshNodes(names: seq<string>): (r: seq<Node>)
    ensures |r| == |names|
  {
    seq(|names|, i requires 0 <= i < |names| => Node(names[i], false, false, false, 0))
  }

  function Quieted(tree: seq<Node>): (r: seq<Node>)
    ensures |r| == |tree| && forall i :: 0 <= i < |r| ==> r[i].request == 0
  {
    seq(|tree|, i requires 0 <= i < |tree| => tree[i].(loading := false, request := 0))
  }

  function Refreshed(l: Links): (Links, Command) {
    if l.schemas != 0 then (l, NoRequest)
    else (l.(schemas := l.next, next := l.next + 1), Issue(Meta(l.workspace, SchemasRequest, l.next)))
  }

  function Toggled(l: Links, index: int): (Links, Command) {
    if !(0 <= index < |l.tree|) then (l, NoRequest)
    else
      var node := l.tree[index].(expanded := !l.tree[index].expanded);
      if !node.expanded || node.loaded || node.loading then (l.(tree := l.tree[index := node]), NoRequest)
      else
        (l.(tree := l.tree[index := node.(loading := true, request := l.next)], next := l.next + 1),
         Issue(Meta(l.workspace, RelationsRequest(node.name), l.next)))
  }

  /** Collapsing leaves a request for the schema's relations waiting. */
  function Collapsed(l: Links, index: int): Links {
    if !(0 <= index < |l.tree|) then l else l.(tree := l.tree[index := l.tree[index].(expanded := false)])
  }

  /** The pending request that a failure of some kind is for, if its meta says so. */
  function FailedRequest(l: Links, kind: RequestKind, meta: Meta): bool {
    match kind
    case SchemasRequest => Matches(l, kind, meta, l.schemas)
    case HealthRequest => Matches(l, kind, meta, l.health)
    case ReconnectRequest => Matches(l, kind, meta, l.reconnect)
    case RelationsRequest(schema) =>
      var i := NodeIndex(l.tree, schema, 0);
      i >= 0 && Matches(l, kind, meta, l.tree[i].request)
  }

  function Settle(l: Links, kind: RequestKind, cancelled: bool): Links {
    match kind
    case SchemasRequest => l.(schemas := 0)
    case HealthRequest => l.(health := 0, connection := if cancelled then l.connection else Lost)
    case ReconnectRequest => l.(reconnect := 0, connection := Lost)
    case RelationsRequest(schema) =>
      var i := NodeIndex(l.tree, schema, 0);
      if i < 0 then l else l.(tree := l.tree[i := l.tree[i].(loading := false, request := 0)])
  }

  function HandleFailure(l: Links, kind: RequestKind, cancelled: bool, network: bool, meta: Meta): Links {
    if meta.workspace != l.workspace || !FailedRequest(l, kind, meta) then l
    else
      var settled := Settle(l, kind, cancelled);
      if !cancelled && network then settled.(connection := Lost) else settled
  }

  function Step(l: Links, e: Event): (Links, Command) {
    match e
    case SchemasLoaded(names, meta) =>
      (if Matches(l, SchemasRequest, meta, l.schemas) then l.(schemas := 0, tree := FreshNodes(names)) else l,
       NoRequest)
    case RelationsLoaded(schema, meta) =>
      var i := NodeIndex(l.tree, schema, 0);
      (if i >= 0 && Matches(l, RelationsRequest(schema), meta, l.tree[i].request)
       then l.(tree := l.tree[i := l.tree[i].(loading := false, loaded := true, request := 0)]) else l, NoRequest)
    case ConnectionChecked(meta) =>
      (if Matches(l, HealthRequest, meta, l.health) then l.(health := 0) else l, NoRequest)
    case Reconnected(meta) =>
      if !Matches(l, ReconnectRequest, meta, l.reconnect) then (l, NoRequest)
      else Refreshed(l.(reconnect := 0, schemas := 0, health := 0, tree := Quieted(l.tree), connection := Connected,
                        generation := l.generation + 1))
    case Failed(kind, cancelled, network, meta) => (HandleFailure(l, kind, cancelled, network, meta), NoRequest)
    case HealthCheckDue(workspace, generation) =>
      if workspace != l.workspace || generation != l.generation || l.connection != Connected || l.health != 0
      then (l, NoRequest)
      else (l.(health := l.next, next := l.next + 1), Issue(Meta(l.workspace, HealthRequest, l.next)))
    case ToggleSchema(index) => Toggled(l, index)
    case CollapseSchema(index) => (Collapsed(l, index), NoRequest)
    case RefreshSchemas => Refreshed(l)
    case Reconnect(clicked) =>
      if (l.connection != Lost && !clicked) || l.reconnect != 0 then (l, NoRequest)
      else (l.(reconnect := l.next, next := l.next + 1, connection := Reconnecting),
            Issue(Meta(l.workspace, ReconnectRequest, l.next)))
  }

  // ----- what is pending -----

  /** Some request of that number is waited for. */
  predicate Pending(l: Links, n: nat) {
    n != 0 && (l.schemas == n || l.health == n || l.reconnect == n || PendingInTree(l.tree, n))
  }

  predicate PendingInTree(tree: seq<Node>, n: nat) { exists i :: 0 <= i < |tree| && tree[i].request == n }

  /** Numbers in use are below the counter; a reconnect shows as reconnecting only while it runs. */
  ghost predicate Inv(l: Links) {
    l.next > 0 && (forall n: nat :: Pending(l, n) ==> n < l.next) && (l.connection == Reconnecting ==> l.reconnect != 0)
  }

  lemma UpdatedNode(tree: seq<Node>, i: nat, node: Node, n: nat)
    requires i < |tree| && PendingInTree(tree[i := node], n) && node.request != n
    ensures PendingInTree(tree, n)
  {
  }

  /** Only the number a step issues becomes pending. */
  lemma StepPending(l: Links, e: Event, n: nat)
    requires Inv(l) && Pending(Step(l, e).0, n)
    ensures Pending(l, n) || (n == l.next && Step(l, e).1.Issue?)
    ensures Step(l, e).0.next == if Step(l, e).1.Issue? then l.next + 1 else l.next
  {
  }

  lemma NewLinksInv(workspace: nat)
    ensures Inv(NewLinks(workspace)) && DistinctPending(NewLinks(workspace))
  {
  }

  lemma StepKeepsInv(l: Links, e: Event)
    requires Inv(l)
    ensures Inv(Step(l, e).0)
  {
    forall n: nat | Pending(Step(l, e).0, n) ensures n < Step(l, e).0.next {
      StepPending(l, e, n);
    }
    assert Step(l, e).0.next > 0 by { NextOnlyGrows(l, e); }
  }

  lemma NextOnlyGrows(l: Links, e: Event)
    ensures Step(l, e).0.next == if Step(l, e).1.Issue? then l.next + 1 else l.next
    ensures Step(l, e).1.Issue? ==> Step(l, e).1.meta.request == l.next && Step(l, e).0.workspace == l.workspace
  {
  }

  // ----- late results -----

  predicate IsResult(e: Event) {
    e.SchemasLoaded? || e.RelationsLoaded? || e.ConnectionChecked? || e.Reconnected? || e.Failed?
  }

  /** A request that was issued and is not waited for. */
  predicate Settled(l: Links, n: nat) { 0 < n < l.next && !Pending(l, n) }

  lemma SettledResultIgnored(l: Links, e: Event)
    requires IsResult(e) && Settled(l, e.meta.request)
    ensures Step(l, e) == (l, NoRequest)
  {
  }

  function Run(l: Links, events: seq<Event>): Links
    decreases |events|
  {
    if events == [] then l else Run(Step(l, events[0]).0, events[1..])
  }

  lemma {:induction false} RunKeepsSettled(l: Links, events: seq<Event>, n: nat)
    requires Inv(l) && Settled(l, n)
    ensures Inv(Run(l, events)) && Settled(Run(l, events), n)
    decreases |events|
  {
    if events != [] {
      var t := Step(l, events[0]).0;
      StepKeepsInv(l, events[0]);
      NextOnlyGrows(l, events[0]);
      if Pending(t, n) { StepPending(l, events[0], n); }
      RunKeepsSettled(t, events[1..], n);
    }
  }

  /** Once a request has been answered, failed or given up, a late result for it changes
      nothing, whatever happens in between; in particular a reconnect that was superseded can
      never be completed. */
  lemma LateResultsAreIgnored(l: Links, events: seq<Event>, late: Event)
    requires Inv(l) && IsResult(late) && Settled(l, late.meta.request)
    ensures Step(Run(l, events), late) == (Run(l, events), NoRequest)
  {
    RunKeepsSettled(l, events, late.meta.request);
    SettledResultIgnored(Run(l, events), late);
  }

  /** No two roles wait for the same number. */
  ghost predicate DistinctPending(l: Links) {
    (l.schemas != 0 ==> l.schemas != l.health && l.schemas != l.reconnect && !PendingInTree(l.tree, l.schemas)) &&
    (l.health != 0 ==> l.health != l.reconnect && !PendingInTree(l.tree, l.health)) &&
    (l.reconnect != 0 ==> !PendingInTree(l.tree, l.reconnect)) && DistinctInTree(l.tree)
  }

  ghost predicate DistinctInTree(tree: seq<Node>) {
    forall i, j :: 0 <= i < j < |tree| && tree[i].request != 0 ==> tree[i].request != tree[j].request
  }

  lemma InvBounds(l: Links, n: nat)
    requires Inv(l) && Pending(l, n)
    ensures n < l.next
  {
  }

  lemma NodeIssues(tree: seq<Node>, i: nat, node: Node)
    requires i < |tree| && DistinctInTree(tree) && node.request != 0 && !PendingInTree(tree, node.request)
    ensures DistinctInTree(tree[i := node])
  {
  }

  lemma NodeStays(tree: seq<Node>, i: nat, node: Node)
    requires i < |tree| && DistinctInTree(tree) && node.request == tree[i].request
    ensures DistinctInTree(tree[i := node])
    ensures forall n: nat :: PendingInTree(tree[i := node], n) <==> PendingInTree(tree, n)
  {
    forall n: nat ensures PendingInTree(tree[i := node], n) <==> PendingInTree(tree, n) {
      if PendingInTree(tree, n) {
        var k :| 0 <= k < |tree| && tree[k].request == n;
        assert tree[i := node][k].request == n;
      }
      if PendingInTree(tree[i := node], n) {
        var k :| 0 <= k < |tree| && tree[i := node][k].request == n;
        assert tree[k].request == n;
      }
    }
  }

  lemma ToggleKeepsDistinct(l: Links, index: nat)
    requires Inv(l) && DistinctPending(l) && index < |l.tree|
    ensures DistinctPending(Toggled(l, index).0)
  {
    var node := Toggled(l, index).0.tree[index];
    if node.request == l.tree[index].request {
      NodeStays(l.tree, index, node);
    } else {
      if PendingInTree(l.tree, l.next) { InvBounds(l, l.next); }
      NodeIssues(l.tree, index, node);
      forall n: nat | n != l.next && PendingInTree(l.tree[index := node], n) ensures PendingInTree(l.tree, n) {
        UpdatedNode(l.tree, index, node, n);
      }
      if l.schemas == l.next || l.health == l.next || l.reconnect == l.next { InvBounds(l, l.next); }
    }
  }

  lemma NodeSettledKeepsDistinct(l: Links, i: nat, node: Node)
    requires DistinctPending(l) && i < |l.tree| && l.tree[i].request != 0 && node.request == 0
    ensures DistinctPending(l.(tree := l.tree[i := node])) && !PendingInTree(l.tree[i := node], l.tree[i].request)
  {
  }

  lemma FailureKeepsDistinct(l: Links, kind: RequestKind, cancelled: bool, network: bool, meta: Meta)
    requires DistinctPending(l)
    ensures DistinctPending(HandleFailure(l, kind, cancelled, network, meta))
    ensures HandleFailure(l, kind, cancelled, network, meta) != l ==>
      Pending(l, meta.request) && !Pending(HandleFailure(l, kind, cancelled, network, meta), meta.request)
  {
  }

  lemma RefreshKeepsDistinct(l: Links)
    requires Inv(l) && DistinctPending(l)
    ensures DistinctPending(Refreshed(l).0)
    ensures forall n: nat :: n != l.next && Pending(Refreshed(l).0, n) ==> Pending(l, n)
  {
    if Pending(l, l.next) { InvBounds(l, l.next); }
  }

  lemma ReconnectedKeepsDistinct(l: Links, meta: Meta)
    requires Inv(l) && DistinctPending(l) && Matches(l, ReconnectRequest, meta, l.reconnect)
    ensures
      var t := Step(l, Reconnected(meta)).0;
      DistinctPending(t) && Pending(l, meta.request) && !Pending(t, meta.request)
  {
    InvBounds(l, l.reconnect);
    var quiet := l.(reconnect := 0, schemas := 0, health := 0, tree := Quieted(l.tree), connection := Connected,
                    generation := l.generation + 1);
    assert DistinctPending(quiet) && forall n: nat :: !Pending(quiet, n);
    RefreshKeepsDistinct(quiet);
  }

  /** Numbers of pending requests stay distinct, and an accepted result settles its request. */
  lemma StepKeepsDistinct(l: Links, e: Event)
    requires Inv(l) && DistinctPending(l)
    ensures DistinctPending(Step(l, e).0)
    ensures IsResult(e) && Step(l, e) != (l, NoRequest) ==>
      Pending(l, e.meta.request) && !Pending(Step(l, e).0, e.meta.request)
  {
    match e
    case SchemasLoaded(names, meta) =>
      if Matches(l, SchemasRequest, meta, l.schemas) {
        forall n: nat | n != 0 ensures !PendingInTree(FreshNodes(names), n) { }
      }
    case RelationsLoaded(schema, meta) =>
      var i := NodeIndex(l.tree, schema, 0);
      if i >= 0 && l.tree[i].request != 0 {
        NodeSettledKeepsDistinct(l, i, l.tree[i].(loading := false, loaded := true, request := 0));
      }
    case ConnectionChecked(_) =>
    case Reconnected(meta) => if Matches(l, ReconnectRequest, meta, l.reconnect) { ReconnectedKeepsDistinct(l, meta); }
    case Failed(kind, cancelled, network, meta) => FailureKeepsDistinct(l, kind, cancelled, network, meta);
    case HealthCheckDue(_, _) => if Pending(l, l.next) { InvBounds(l, l.next); }
    case ToggleSchema(index) => if 0 <= index < |l.tree| { ToggleKeepsDistinct(l, index); }
    case CollapseSchema(index) =>
      if 0 <= index < |l.tree| { NodeStays(l.tree, index, l.tree[index].(expanded := false)); }
    case RefreshSchemas => RefreshKeepsDistinct(l);
    case Reconnect(_) => if Pending(l, l.next) { InvBounds(l, l.next); }
  }

  lemma StepKeepsLinks(l: Links, e: Event)
    requires Inv(l) && DistinctPending(l)
    ensures Inv(Step(l, e).0) && DistinctPending(Step(l, e).0)
  {
    StepKeepsInv(l, e);
    StepKeepsDistinct(l, e);
  }

  /** From a new workspace on: pending numbers were issued and are distinct, always. */
  lemma {:induction false} RunKeepsDistinct(l: Links, events: seq<Event>)
    requires Inv(l) && DistinctPending(l)
    ensures Inv(Run(l, events)) && DistinctPending(Run(l, events))
    decreases |events|
  {
    if events != [] {
      StepKeepsLinks(l, events[0]);
      RunKeepsDistinct(Step(l, events[0]).0, events[1..]);
    }
  }

  lemma NewWorkspaceKeepsDistinct(workspace: nat, events: seq<Event>)
    ensures
      var l := Run(NewLinks(workspace), events);
      Inv(l) && DistinctPending(l)
  {
    NewLinksInv(workspace);
    RunKeepsDistinct(NewLinks(workspace), events);
  }
}
