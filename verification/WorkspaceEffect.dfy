/** What each event does to the tabs of a workspace, and what it asks the application to do. */
module WorkspaceEffect {
  import opened Relations
  import opened WorkspaceTabs

  predicate Idle(s: Shell) { s.modal.NoModal? }

  /** The tab at a position is the active one. */
  predicate ActiveAt(s: Shell, k: int) { 0 <= k < |s.tabs| && s.active == Some(s.tabs[k].id) }

  lemma ActiveAtIs(s: Shell, k: nat)
    requires Inv(s) && k < |s.tabs|
    ensures ActiveAt(s, k) <==> ActiveIndex(s) == k
  {
  }

  // ----- opening -----

  /** Opening a relation activates its tab. If it has one, no tab changes; otherwise a new one
      is added at the end, without work, under an identifier no tab has, and its content is
      asked for. */
  lemma OpeningShowsRelation(s: Shell, relation: RelationId) returns (k: nat)
    requires Inv(s) && Idle(s)
    ensures
      var (t, command) := Step(s, OpenTable(relation));
      ActiveAt(t, k) && t.tabs[k].relation == Some(relation) && Idle(t)
    ensures
      var (t, command) := Step(s, OpenTable(relation));
      if exists i :: 0 <= i < |s.tabs| && s.tabs[i].relation == Some(relation)
      then t.tabs == s.tabs && command == Nothing && t.focus == t.tabs[k].lastFocus
      else k == |s.tabs| && t.tabs == s.tabs + [t.tabs[k]] && t.tabs[k].state == CLEAN && t.tabs[k].id.TableTab? &&
           command == OpenTableIntent(t.tabs[k].id, relation) && t.focus == OnContent &&
           forall i :: 0 <= i < |s.tabs| ==> s.tabs[i].id.n != t.tabs[k].id.n
  {
    var at := IndexOfRelation(s.tabs, relation, 0);
    k := if at >= 0 then at else |s.tabs|;
  }

  lemma OpeningSqlAddsTab(s: Shell)
    requires Inv(s) && Idle(s)
    ensures
      var (t, command) := Step(s, OpenSql);
      var k := |s.tabs|;
      ActiveAt(t, k) && t.tabs == s.tabs + [t.tabs[k]] && t.tabs[k].state == CLEAN && t.tabs[k].id.SqlTab? &&
      t.tabs[k].relation.None? && command == OpenSqlIntent(t.tabs[k].id) && t.focus == OnContent && Idle(t) &&
      forall i :: 0 <= i < |s.tabs| ==> s.tabs[i].id.n != t.tabs[k].id.n
  {
  }

  // ----- closing -----

  /** The tabs without the one at a position; the next one is active, or the last. */
  predicate Closes(s: Shell, t: Shell, k: nat) {
    k < |s.tabs| && |t.tabs| == |s.tabs| - 1 &&
    (forall i :: 0 <= i < |t.tabs| ==> t.tabs[i] == s.tabs[if i < k then i else i + 1]) &&
    if t.tabs == [] then t.active.None? && t.focus == OnTabs
    else t.active == Some(t.tabs[if k < |t.tabs| then k else |t.tabs| - 1].id)
  }

  lemma ClosedCloses(s: Shell, k: nat)
    requires k < |s.tabs|
    ensures Closes(s, ClosedAt(s, k), k) && ClosedAt(s, k).modal == s.modal
    ensures ClosedAt(s, k).tabs != [] ==> ClosedAt(s, k).focus == s.focus
  {
    forall i | 0 <= i < |ClosedAt(s, k).tabs|
      ensures ClosedAt(s, k).tabs[i] == s.tabs[if i < k then i else i + 1]
    {
    }
  }

  /** Closing the active tab closes it at once if it has no work, and asks first otherwise. */
  lemma ClosingActive(s: Shell, k: nat)
    requires Inv(s) && Idle(s) && ActiveAt(s, k)
    ensures
      var (t, command) := Step(s, CloseActive);
      command == Nothing &&
      if s.tabs[k].state.dirty || s.tabs[k].state.lifecycle == TabRunning
      then t == s.(previousFocus := s.focus, modal := Modal(CloseTab(s.tabs[k].id), false))
      else Closes(s, t, k) && Idle(t) && (t.tabs != [] ==> t.focus == s.focus)
  {
    ActiveAtIs(s, k);
    ClosedCloses(s, k);
  }

  /** Clicking the close button of a tab activates and then closes that tab. */
  lemma ClosingByClick(s: Shell, k: nat)
    requires Inv(s) && Idle(s) && k < |s.tabs|
    ensures
      var (t, command) := Step(s, CloseTabAtClick(k));
      command == Nothing &&
      if s.tabs[k].state.dirty || s.tabs[k].state.lifecycle == TabRunning
      then t.tabs == s.tabs && ActiveAt(t, k) && t.modal == Modal(CloseTab(s.tabs[k].id), false)
      else Closes(s, t, k) && Idle(t) && t.focus == OnTabs
  {
    var chosen := s.(focus := OnTabs, active := Some(s.tabs[k].id));
    ActivatedInv(s, chosen, k);
    ClosingActive(chosen, k);
    assert Step(s, CloseTabAtClick(k)).0 == Step(chosen, CloseActive).0;
  }

  /** The tab goes, if there is one, and what runs in it is cancelled. */
  predicate TabGoes(s: Shell, t: Shell, command: ShellCommand, tab: TabId) {
    (forall k :: 0 <= k < |s.tabs| && s.tabs[k].id == tab ==>
       Closes(s, t, k) && (t.tabs != [] ==> t.focus == s.focus) &&
       command == if s.tabs[k].state.operation != "" then CancelIntent(s.tabs[k].state.operation) else Nothing) &&
    ((forall k :: 0 <= k < |s.tabs| ==> s.tabs[k].id != tab) ==> t.tabs == s.tabs && command == Nothing)
  }

  /** Carrying out a confirmation: the dialog goes, and closing removes the tab and cancels what
      runs in it; disconnecting and quitting ask for exactly that and leave the tabs. */
  lemma ConfirmingDoesIt(s: Shell, e: Event, kind: ModalKind)
    requires Inv(s) && Confirms(s, e, kind)
    ensures
      var (t, command) := Step(s, e);
      Idle(t) &&
      match kind
      case Quit => command == QuitIntent && t.tabs == s.tabs && t.active == s.active
      case Disconnect => command == DisconnectIntent && t.tabs == s.tabs && t.active == s.active
      case CloseTab(tab) => TabGoes(s, t, command, tab)
  {
    match kind
    case CloseTab(tab) =>
      var at := IndexOfTab(s.tabs, tab, 0);
      if at >= 0 {
        ConfirmedCloses(s, e, tab, at);
        ClosedGoes(s, tab, at, Step(s, e).0, Step(s, e).1);
      }
    case _ =>
  }

  lemma ClosedGoes(s: Shell, tab: TabId, at: nat, t: Shell, command: ShellCommand)
    requires Inv(s) && at < |s.tabs| && s.tabs[at].id == tab
    requires
      t.tabs == ClosedAt(s.(modal := NoModal), at).tabs && t.active == ClosedAt(s.(modal := NoModal), at).active &&
      t.focus == (if t.tabs == [] then OnTabs else s.focus) &&
      command == if s.tabs[at].state.operation != "" then CancelIntent(s.tabs[at].state.operation) else Nothing
    ensures TabGoes(s, t, command, tab)
  {
    ClosedCloses(s.(modal := NoModal), at);
    forall k | 0 <= k < |s.tabs| && s.tabs[k].id == tab ensures k == at {
      assert s.tabs[k].id.n == s.tabs[at].id.n;
    }
  }

  lemma ConfirmedCloses(s: Shell, e: Event, tab: TabId, at: nat)
    requires Confirms(s, e, CloseTab(tab)) && at == IndexOfTab(s.tabs, tab, 0)
    ensures
      var (t, command) := Step(s, e);
      t.tabs == ClosedAt(s.(modal := NoModal), at).tabs && t.active == ClosedAt(s.(modal := NoModal), at).active &&
      t.modal.NoModal? && t.focus == (if t.tabs == [] then OnTabs else s.focus) &&
      command == if s.tabs[at].state.operation != "" then CancelIntent(s.tabs[at].state.operation) else Nothing
  {
  }

  /** Declining: the dialog goes, the focus is where it was, and no tab changes. */
  lemma DecliningDoesNothing(s: Shell, e: Event)
    requires s.modal.Modal?
    requires e == PressModal(EscapeKey) || (e == PressModal(EnterKey) && !s.modal.destructive) || e == ClickModal(false)
    ensures Step(s, e).0.tabs == s.tabs && Step(s, e).0.active == s.active && Idle(Step(s, e).0)
    ensures Step(s, e).0.focus == s.previousFocus && Step(s, e).1 == Nothing
  {
  }

  lemma TogglingChoosesOther(s: Shell)
    requires s.modal.Modal?
    ensures Step(s, PressModal(ToggleKey)) == (s.(modal := Modal(s.modal.kind, !s.modal.destructive)), Nothing)
  {
  }

  /** While a dialog is open nothing else is done, except that contents report. */
  lemma DialogHoldsBack(s: Shell, e: Event)
    requires s.modal.Modal? && !e.PressModal? && !e.ClickModal? && !e.ContentChanged?
    ensures Step(s, e) == (s, Nothing)
  {
  }

  // ----- leaving -----

  /** Asking to quit or to disconnect does just that at once if no tab has work, and asks first
      otherwise, with the safe side chosen. */
  lemma LeavingAsksOrGoes(s: Shell, kind: ModalKind)
    requires Idle(s) && !kind.CloseTab?
    ensures
      var (t, command) := Step(s, Leave(kind));
      if exists i :: 0 <= i < |s.tabs| && (s.tabs[i].state.dirty || s.tabs[i].state.lifecycle == TabRunning)
      then t == s.(previousFocus := s.focus, modal := Modal(kind, false)) && command == Nothing
      else t == s && command == if kind.Quit? then QuitIntent else DisconnectIntent
  {
    assert forall i :: 0 <= i < |s.tabs| ==>
      (Hazardous(s.tabs[i]) <==> s.tabs[i].state.dirty || s.tabs[i].state.lifecycle == TabRunning);
  }

  // ----- moving about -----

  predicate OnlyFocusMoved(s: Shell, t: Shell) {
    SameTabs(s.tabs, t.tabs) && (forall i :: 0 <= i < |s.tabs| ==> t.tabs[i].state == s.tabs[i].state) && Idle(t)
  }

  /** Moving along the tabs activates the neighbour; the first and the last are neighbours. */
  lemma MovingActivatesNeighbour(s: Shell, k: nat, delta: int)
    requires Inv(s) && Idle(s) && ActiveAt(s, k) && (delta == 1 || delta == -1)
    ensures
      var (t, command) := Step(s, MoveTab(delta));
      var next := if k + delta < 0 then |s.tabs| - 1 else if k + delta == |s.tabs| then 0 else k + delta;
      OnlyFocusMoved(s, t) && ActiveAt(t, next) && command == Nothing &&
      t.focus == if s.focus == OnContent then s.tabs[next].lastFocus else s.focus
  {
    ActiveAtIs(s, k);
    TabMovedSame(s, delta);
    WrapsAround(k, delta, |s.tabs|);
    TabMovedActive(s, delta);
  }

  lemma WrapsAround(k: nat, delta: int, count: nat)
    requires k < count && (delta == 1 || delta == -1)
    ensures Wrapped(k, delta, count) == if k + delta < 0 then count - 1 else if k + delta == count then 0 else k + delta
  {
  }

  lemma TabMovedActive(s: Shell, delta: int)
    requires s.tabs != [] && ActiveIndex(s) >= 0
    ensures
      var tab := s.tabs[Wrapped(ActiveIndex(s), delta, |s.tabs|)];
      TabMoved(s, delta).active == Some(tab.id) &&
      TabMoved(s, delta).focus == if s.focus == OnContent then tab.lastFocus else s.focus
  {
  }

  lemma SelectingActivates(s: Shell, k: nat)
    requires Idle(s) && k < |s.tabs|
    ensures
      var (t, command) := Step(s, SelectTab(k));
      t.tabs == s.tabs && ActiveAt(t, k) && t.focus == OnTabs && command == Nothing
  {
  }

  /** The focus goes round navigator, tabs and, while a tab is active, content. */
  lemma FocusGoesRound(s: Shell, delta: int)
    requires Inv(s) && Idle(s) && (delta == 1 || delta == -1) && (s.focus == OnContent ==> s.active.Some?)
    ensures
      var (t, command) := Step(s, MoveFocus(delta));
      OnlyFocusMoved(s, t) && t.active == s.active && command == Nothing &&
      t.focus ==
        match s.focus
        case OnNavigator => if delta == 1 then OnTabs else if s.active.Some? then OnContent else OnTabs
        case OnTabs => if delta == -1 then OnNavigator else if s.active.Some? then OnContent else OnNavigator
        case OnContent => if delta == 1 then OnNavigator else OnTabs
  {
    RememberedSame(s);
  }

  lemma EnteringFocusesContent(s: Shell)
    requires Inv(s) && Idle(s)
    ensures
      var (t, command) := Step(s, EnterContent);
      OnlyFocusMoved(s, t) && t.active == s.active && command == Nothing &&
      t.focus == if s.active.Some? then OnContent else s.focus
  {
    RememberedSame(s.(focus := OnContent));
  }

  lemma EscapingGoesToTabs(s: Shell, wide: bool)
    requires Idle(s)
    ensures
      var (t, command) := Step(s, EscapeFocus(wide));
      t == s.(focus := t.focus) && command == Nothing &&
      t.focus == if s.focus == OnContent || (s.focus == OnNavigator && !wide) then OnTabs else s.focus
  {
  }

  /** A content's report changes the state of its tab, and nothing else. */
  lemma ReportingChangesOneTab(s: Shell, tab: TabId, state: TabState, k: nat)
    requires Inv(s) && k < |s.tabs|
    ensures
      var (t, command) := Step(s, ContentChanged(tab, state));
      command == Nothing && t == s.(tabs := t.tabs) && |t.tabs| == |s.tabs| &&
      t.tabs[k] == if s.tabs[k].id == tab then s.tabs[k].(state := state) else s.tabs[k]
  {
    if s.tabs[k].id == tab { assert IndexOfTab(s.tabs, tab, 0) == k; }
  }

  // ----- what tabs remember -----

  /** Every tab has its content as the place last worked in. */
  predicate RememberContent(tabs: seq<Tab>) { forall i :: 0 <= i < |tabs| ==> tabs[i].lastFocus == OnContent }

  lemma ClosedRemember(s: Shell, k: nat)
    requires RememberContent(s.tabs) && k < |s.tabs|
    ensures RememberContent(ClosedAt(s, k).tabs)
  {
  }

  lemma CloseRequestedRemember(s: Shell)
    requires RememberContent(s.tabs)
    ensures RememberContent(CloseRequested(s).tabs)
  {
    if ActiveIndex(s) >= 0 { ClosedRemember(s, ActiveIndex(s)); }
  }

  lemma ModalKeyRemembers(s: Shell, key: ModalKey)
    requires RememberContent(s.tabs) && s.modal.Modal?
    ensures RememberContent(ModalKeyed(s, key).0.tabs)
  {
    if s.modal.kind.CloseTab? && IndexOfTab(s.tabs, s.modal.kind.tab, 0) >= 0 {
      ClosedRemember(s.(modal := NoModal), IndexOfTab(s.tabs, s.modal.kind.tab, 0));
    }
  }

  lemma StepRemembers(s: Shell, e: Event)
    requires RememberContent(s.tabs)
    ensures RememberContent(Step(s, e).0.tabs)
  {
    if s.modal.Modal? {
      match e
      case PressModal(key) => ModalKeyRemembers(s, key);
      case ClickModal(apply) => ModalKeyRemembers(Chosen(s, apply), EnterKey);
      case _ =>
    } else {
      match e
      case CloseActive => CloseRequestedRemember(s);
      case CloseTabAtClick(index) =>
        if 0 <= index < |s.tabs| {
          CloseRequestedRemember(s.(focus := OnTabs, active := Some(s.tabs[index].id)));
        }
      case _ =>
    }
  }

  lemma {:induction false} RunRemembers(s: Shell, events: seq<Event>)
    requires RememberContent(s.tabs)
    ensures RememberContent(Run(s, events).tabs)
    decreases |events|
  {
    if events != [] {
      StepRemembers(s, events[0]);
      RunRemembers(Step(s, events[0]).0, events[1..]);
    }
  }

  /** Whatever was done before, opening a relation puts the focus on its content, and so does
      moving along the tabs from content to content. */
  lemma OpeningFocusesContent(events: seq<Event>, relation: RelationId, delta: int)
    requires Idle(Run(NEW_SHELL, events)) && (delta == 1 || delta == -1)
    ensures Step(Run(NEW_SHELL, events), OpenTable(relation)).0.focus == OnContent
    ensures Step(Run(NEW_SHELL, events), MoveTab(delta)).0.focus == Run(NEW_SHELL, events).focus
  {
    RunRemembers(NEW_SHELL, events);
  }
}
