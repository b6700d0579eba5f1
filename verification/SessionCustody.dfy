/** Who owns each database session: a message not yet delivered, the application, a pending
    close command, or nobody any more because it was closed. */
module SessionCustody {
  import opened Relations

  /** A session and what it offers. */
  datatype Session = Session(id: nat, catalog: bool, browser: bool, applier: bool, executor: bool)

  datatype Delivery = Connection(session: Session, request: nat) | Reconnection(session: Session)

  /** `connected` lists every session a connect attempt returned. */
  datatype Custody = Custody(
    connected: seq<Session>, inbox: seq<Delivery>, installed: Option<Session>, closing: seq<Session>,
    closed: seq<Session>,
    catalog: Option<Session>, browser: Option<Session>, applier: Option<Session>, executor: Option<Session>)

  const NOBODY := Custody([], [], None, [], [], None, None, None, None)

  /** What happens around sessions; `expected` is whether the launcher or the workspace still
      waits for the delivered result. */
  datatype Event =
    | Connects(session: Session, request: nat, commits: bool)
    | Reconnects(session: Session)
    | Deliver(index: int, expected: bool)
    | Disconnects
    | RunsClose(index: int)

  function Dropped<T>(s: seq<T>, i: nat): (r: seq<T>)
    requires i < |s|
  {
    s[..i] + s[i + 1..]
  }

  function Offered(session: Session, offers: bool): Option<Session> { if offers then Some(session) else None }

  /** Installs a session with everything it offers; the one before is closed. */
  function Install(c: Custody, session: Session): Custody {
    c.(installed := Some(session), closed := c.closed + if c.installed.Some? then [c.installed.value] else [],
       catalog := Some(session), browser := Offered(session, session.browser),
       applier := Offered(session, session.applier),
       executor := Offered(session, session.executor))
  }

  function Step(c: Custody, e: Event): Custody {
    match e
    case Connects(session, request, commits) =>
      var known := c.(connected := c.connected + [session]);
      if commits then known.(inbox := c.inbox + [Connection(session, request)])
      else known.(closed := c.closed + [session])
    case Reconnects(session) => c.(connected := c.connected + [session], inbox := c.inbox + [Reconnection(session)])
    case Deliver(index, expected) =>
      if !(0 <= index < |c.inbox|) then c
      else
        var session := c.inbox[index].session;
        var received := c.(inbox := Dropped(c.inbox, index));
        if !expected || !session.catalog then received.(closed := c.closed + [session]) else Install(received, session)
    case Disconnects =>
      c.(installed := None, closing := c.closing + if c.installed.Some? then [c.installed.value] else [],
         catalog := None, browser := None, applier := None, executor := None)
    case RunsClose(index) =>
      if !(0 <= index < |c.closing|) then c
      else c.(closing := Dropped(c.closing, index), closed := c.closed + [c.closing[index]])
  }

  function SessionsOf(inbox: seq<Delivery>): (r: seq<Session>)
    ensures |r| == |inbox|
  {
    seq(|inbox|, i requires 0 <= i < |inbox| => inbox[i].session)
  }

  function Held(installed: Option<Session>): seq<Session> { if installed.Some? then [installed.value] else [] }

  /** Every place a session can be, with its multiplicity. */
  function Places(c: Custody): multiset<Session> {
    multiset(SessionsOf(c.inbox)) + multiset(Held(c.installed)) + multiset(c.closing) + multiset(c.closed)
  }

  /** Catalog, browser, applier and executor come from the installed session, or all are absent. */
  predicate FromInstalled(c: Custody) {
    if c.installed.None? then c.catalog.None? && c.browser.None? && c.applier.None? && c.executor.None?
    else
      c.installed.value.catalog && c.catalog == c.installed &&
      c.browser == Offered(c.installed.value, c.installed.value.browser) &&
      c.applier == Offered(c.installed.value, c.installed.value.applier) &&
      c.executor == Offered(c.installed.value, c.installed.value.executor)
  }

  /** Every session that was connected is in exactly one place. */
  ghost predicate Inv(c: Custody) {
    Places(c) == multiset(c.connected) && FromInstalled(c) && Distinct(c.connected)
  }

  /** Connect returns sessions never seen before. */
  predicate Fresh(c: Custody, e: Event) { e.Connects? || e.Reconnects? ==> e.session !in c.connected }

  lemma DroppedCount<T>(s: seq<T>, i: nat)
    requires i < |s|
    ensures multiset(s) == multiset(Dropped(s, i)) + multiset{s[i]}
  {
    assert s == s[..i] + [s[i]] + s[i + 1..];
  }

  lemma DroppedSessions(inbox: seq<Delivery>, i: nat)
    requires i < |inbox|
    ensures SessionsOf(Dropped(inbox, i)) == Dropped(SessionsOf(inbox), i)
  {
  }

  lemma DeliveryKeepsPlaces(c: Custody, index: nat, expected: bool)
    requires index < |c.inbox|
    ensures Places(Step(c, Deliver(index, expected))) == Places(c)
  {
    DroppedSessions(c.inbox, index);
    DroppedCount(SessionsOf(c.inbox), index);
  }

  lemma AppendedSessions(inbox: seq<Delivery>, d: Delivery)
    ensures SessionsOf(inbox + [d]) == SessionsOf(inbox) + [d.session]
  {
  }

  lemma ArrivalAddsPlace(c: Custody, d: Delivery)
    ensures Places(c.(inbox := c.inbox + [d])) == Places(c) + multiset{d.session}
  {
    AppendedSessions(c.inbox, d);
    assert multiset(SessionsOf(c.inbox + [d])) == multiset(SessionsOf(c.inbox)) + multiset{d.session};
  }

  lemma ConnectAddsPlace(c: Custody, session: Session, request: nat, commits: bool)
    ensures Places(Step(c, Connects(session, request, commits))) == Places(c) + multiset{session}
  {
    if commits {
      ArrivalAddsPlace(c, Connection(session, request));
    } else {
      assert multiset(c.closed + [session]) == multiset(c.closed) + multiset{session};
    }
  }

  lemma ReconnectAddsPlace(c: Custody, session: Session)
    ensures Places(Step(c, Reconnects(session))) == Places(c) + multiset{session}
  {
    ArrivalAddsPlace(c, Reconnection(session));
  }

  lemma CloseKeepsPlaces(c: Custody, index: nat)
    requires index < |c.closing|
    ensures Places(Step(c, RunsClose(index))) == Places(c)
  {
    DroppedCount(c.closing, index);
  }

  lemma DisconnectKeepsPlaces(c: Custody)
    ensures Places(Step(c, Disconnects)) == Places(c)
  {
  }

  function Arriving(e: Event): multiset<Session> {
    if e.Connects? || e.Reconnects? then multiset{e.session} else multiset{}
  }

  lemma StepMovesSessions(c: Custody, e: Event)
    ensures Places(Step(c, e)) == Places(c) + Arriving(e)
  {
    assert Places(c) + multiset{} == Places(c);
    match e
    case Connects(session, request, commits) => ConnectAddsPlace(c, session, request, commits);
    case Reconnects(session) => ReconnectAddsPlace(c, session);
    case Deliver(index, expected) => if 0 <= index < |c.inbox| { DeliveryKeepsPlaces(c, index, expected); }
    case Disconnects => DisconnectKeepsPlaces(c);
    case RunsClose(index) => if 0 <= index < |c.closing| { CloseKeepsPlaces(c, index); }
  }

  lemma StepConnects(c: Custody, e: Event)
    ensures multiset(Step(c, e).connected) == multiset(c.connected) + Arriving(e)
  {
  }

  lemma StepKeepsOffers(c: Custody, e: Event)
    requires FromInstalled(c)
    ensures FromInstalled(Step(c, e))
  {
  }

  ghost predicate Distinct(s: seq<Session>) { forall i, j :: 0 <= i < j < |s| ==> s[i] != s[j] }

  lemma StepKeepsDistinct(c: Custody, e: Event)
    requires Distinct(c.connected) && Fresh(c, e)
    ensures Distinct(Step(c, e).connected)
  {
  }

  lemma StepKeepsCustody(c: Custody, e: Event)
    requires Inv(c) && Fresh(c, e)
    ensures Inv(Step(c, e))
  {
    StepMovesSessions(c, e);
    StepConnects(c, e);
    StepKeepsOffers(c, e);
    StepKeepsDistinct(c, e);
  }

  function Run(c: Custody, events: seq<Event>): Custody
    decreases |events|
  {
    if events == [] then c else Run(Step(c, events[0]), events[1..])
  }

  ghost predicate AllFresh(c: Custody, events: seq<Event>)
    decreases |events|
  {
    events == [] || (Fresh(c, events[0]) && AllFresh(Step(c, events[0]), events[1..]))
  }

  lemma {:induction false} RunKeepsCustody(c: Custody, events: seq<Event>)
    requires Inv(c) && AllFresh(c, events)
    ensures Inv(Run(c, events))
    decreases |events|
  {
    if events != [] {
      StepKeepsCustody(c, events[0]);
      RunKeepsCustody(Step(c, events[0]), events[1..]);
    }
  }

  /** Whatever happens until shutdown, a session that was ever connected is in exactly one place:
      undelivered, installed, awaiting close, or closed, and then closed once. */
  lemma EverySessionHasOneOwner(events: seq<Event>, session: Session)
    requires AllFresh(NOBODY, events) && session in Run(NOBODY, events).connected
    ensures
      var c := Run(NOBODY, events);
      multiset(SessionsOf(c.inbox))[session] + multiset(Held(c.installed))[session] + multiset(c.closing)[session] +
        multiset(c.closed)[session] == 1
  {
    RunKeepsCustody(NOBODY, events);
    var c := Run(NOBODY, events);
    OnceInDistinct(c.connected, session);
    assert Places(c)[session] == multiset(c.connected)[session];
  }

  lemma {:induction false} OnceInDistinct(s: seq<Session>, x: Session)
    requires x in s && Distinct(s)
    ensures multiset(s)[x] == 1
  {
    var k :| 0 <= k < |s| && s[k] == x;
    DroppedCount(s, k);
    assert x !in Dropped(s, k);
  }

  // ----- where each event puts a session -----

  predicate NoServices(c: Custody) {
    c.installed.None? && c.catalog.None? && c.browser.None? && c.applier.None? && c.executor.None?
  }

  predicate SameServices(c: Custody, d: Custody) {
    d.installed == c.installed && d.catalog == c.catalog && d.browser == c.browser && d.applier == c.applier &&
    d.executor == c.executor
  }

  /** A session with what it offers, and nothing it does not. */
  predicate Serves(c: Custody, s: Session) {
    c.installed == Some(s) && c.catalog == Some(s) && c.browser == (if s.browser then Some(s) else None) &&
    c.applier == (if s.applier then Some(s) else None) && c.executor == (if s.executor then Some(s) else None)
  }

  /** Disconnecting leaves no session and no service, and the session is about to be closed. */
  lemma DisconnectingGivesUp(c: Custody)
    ensures
      var d := Step(c, Disconnects);
      NoServices(d) && d.inbox == c.inbox && d.closed == c.closed && d.connected == c.connected &&
      multiset(d.closing) == multiset(c.closing) + if c.installed.Some? then multiset{c.installed.value} else multiset{}
  {
  }

  /** A delivered session that is expected and has a catalog serves the application, and the one
      before it is closed; any other is closed, and nothing else changes. */
  lemma DeliveringInstallsOrCloses(c: Custody, index: nat, expected: bool)
    requires index < |c.inbox|
    ensures
      var d, s := Step(c, Deliver(index, expected)), c.inbox[index].session;
      d.closing == c.closing && d.connected == c.connected && |d.inbox| == |c.inbox| - 1 &&
      multiset(c.inbox) == multiset(d.inbox) + multiset{c.inbox[index]}
    ensures
      var d, s := Step(c, Deliver(index, expected)), c.inbox[index].session;
      if expected && s.catalog then
        Serves(d, s) &&
        multiset(d.closed) ==
          multiset(c.closed) + if c.installed.Some? then multiset{c.installed.value} else multiset{}
      else SameServices(c, d) && multiset(d.closed) == multiset(c.closed) + multiset{s}
  {
    DroppedCount(c.inbox, index);
  }

  /** The close command closes the session it was made for. */
  lemma ClosingCloses(c: Custody, index: nat)
    requires index < |c.closing|
    ensures
      var d, s := Step(c, RunsClose(index)), c.closing[index];
      SameServices(c, d) && d.inbox == c.inbox && d.connected == c.connected &&
      multiset(c.closing) == multiset(d.closing) + multiset{s} && multiset(d.closed) == multiset(c.closed) + multiset{s}
  {
    DroppedCount(c.closing, index);
  }

  /** A session just connected is on its way, unless its profile could not be saved: then it is
      closed. */
  lemma ConnectingDeliversOrCloses(c: Custody, s: Session, request: nat, commits: bool)
    ensures
      var d := Step(c, Connects(s, request, commits));
      SameServices(c, d) && d.closing == c.closing && multiset(d.connected) == multiset(c.connected) + multiset{s} &&
      if commits then d.inbox == c.inbox + [Connection(s, request)] && d.closed == c.closed
      else d.inbox == c.inbox && multiset(d.closed) == multiset(c.closed) + multiset{s}
    ensures
      var d := Step(c, Reconnects(s));
      SameServices(c, d) && d.closing == c.closing && multiset(d.connected) == multiset(c.connected) + multiset{s} &&
      d.inbox == c.inbox + [Reconnection(s)] && d.closed == c.closed
  {
  }

  /** After a disconnect, once every delivery has arrived and every close command has run, every
      session that was ever connected is closed. */
  lemma NothingLeaks(events: seq<Event>, session: Session)
    requires AllFresh(NOBODY, events) && session in Run(NOBODY, events).connected
    requires
      var c := Run(NOBODY, events);
      c.inbox == [] && c.closing == [] && c.installed.None?
    ensures multiset(Run(NOBODY, events).closed)[session] == 1
  {
    EverySessionHasOneOwner(events, session);
  }
}
