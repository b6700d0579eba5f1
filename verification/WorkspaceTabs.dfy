/** The tabs of a workspace: identity, focus, and the confirmations that guard local work. */
module WorkspaceTabs {
  import opened Relations

  /** "table-n" or "sql-n", numbered together. */
  datatype TabId = TableTab(n: nat) | SqlTab(n: nat)

  datatype TabLifecycle = TabIdle | TabRunning | TabFailed

  datatype Focus = OnNavigator | OnTabs | OnContent

  /** The state of a tab's content as the shell knows it; `operation` is empty when none runs. */
  datatype TabState = TabState(dirty: bool, lifecycle: TabLifecycle, operation: string)

  const CLEAN := TabState(false, TabIdle, "")

  datatype Tab = Tab(id: TabId, relation: Option<RelationId>, state: TabState, lastFocus: Focus)

  datatype ModalKind = CloseTab(tab: TabId) | Disconnect | Quit

  datatype Modal = NoModal | Modal(kind: ModalKind, destructive: bool)

  datatype Shell = Shell(
    tabs: seq<Tab>, active: Option<TabId>, nextTab: nat, focus: Focus, previousFocus: Focus, modal: Modal)

  datatype ShellCommand =
    | Nothing
    | OpenTableIntent(tab: TabId, relation: RelationId)
    | OpenSqlIntent(tab: TabId)
    | CancelIntent(operation: string)
    | DisconnectIntent
    | QuitIntent

  datatype ModalKey = EscapeKey | ToggleKey | EnterKey | OtherModalKey

  /** What reaches the shell: requests by key or click, and reports of content state. */
  datatype Event =
    | OpenTable(relation: RelationId)
    | OpenSql
    | CloseActive
    | MoveTab(delta: int)
    | MoveFocus(delta: int)
    | SelectTab(index: int)
    | CloseTabAtClick(index: int)
    | EnterContent
    | EscapeFocus(wide: bool)
    | Leave(kind: ModalKind)
    | PressModal(key: ModalKey)
    | ClickModal(apply: bool)
    | ContentChanged(tab: TabId, state: TabState)

  const NEW_SHELL := Shell([], None, 1, OnNavigator, OnNavigator, NoModal)

  predicate Hazardous(tab: Tab) { tab.state.dirty || tab.state.lifecycle == TabRunning }

  predicate HasHazardousTabs(s: Shell) { exists i :: 0 <= i < |s.tabs| && Hazardous(s.tabs[i]) }

  // ----- looking up tabs -----

  function IndexOfTab(tabs: seq<Tab>, id: TabId, k: nat): (i: int)
    requires k <= |tabs|
    ensures i == -1 || (k <= i < |tabs| && tabs[i].id == id)
    ensures i == -1 <==> forall j :: k <= j < |tabs| ==> tabs[j].id != id
    decreases |tabs| - k
  {
    if k == |tabs| then -1 else if tabs[k].id == id then k else IndexOfTab(tabs, id, k + 1)
  }

  function ActiveIndex(s: Shell): (i: int)
    ensures -1 <= i < |s.tabs|
  {
    if s.active.None? then -1 else IndexOfTab(s.tabs, s.active.value, 0)
  }

  function IndexOfRelation(tabs: seq<Tab>, relation: RelationId, k: nat): (i: int)
    requires k <= |tabs|
    ensures i == -1 || (k <= i < |tabs| && tabs[i].relation == Some(relation))
    ensures i == -1 <==> forall j :: k <= j < |tabs| ==> tabs[j].relation != Some(relation)
    decreases |tabs| - k
  {
    if k == |tabs| then -1 else if tabs[k].relation == Some(relation) then k else IndexOfRelation(tabs, relation, k + 1)
  }

  // ----- operations -----

  function Opened(s: Shell, relation: RelationId): (Shell, ShellCommand) {
    var at := IndexOfRelation(s.tabs, relation, 0);
    if at >= 0 then (s.(active := Some(s.tabs[at].id), focus := s.tabs[at].lastFocus), Nothing)
    else
      var id := TableTab(s.nextTab);
      (s.(tabs := s.tabs + [Tab(id, Some(relation), CLEAN, OnContent)], active := Some(id), nextTab := s.nextTab + 1,
          focus := OnContent),
       OpenTableIntent(id, relation))
  }

  function OpenedSql(s: Shell): (Shell, ShellCommand) {
    var id := SqlTab(s.nextTab);
    (s.(tabs := s.tabs + [Tab(id, None, CLEAN, OnContent)], active := Some(id), nextTab := s.nextTab + 1,
      focus := OnContent),
     OpenSqlIntent(id))
  }

  /** Drops a tab; the one that takes its place, or the last, becomes active. */
  function ClosedAt(s: Shell, index: nat): Shell
    requires index < |s.tabs|
  {
    var tabs := s.tabs[..index] + s.tabs[index + 1..];
    if tabs == [] then s.(tabs := tabs, active := None, focus := OnTabs)
    else s.(tabs := tabs, active := Some(tabs[if index >= |tabs| then |tabs| - 1 else index].id))
  }

  function CloseRequested(s: Shell): Shell {
    var index := ActiveIndex(s);
    if index < 0 then s
    else if Hazardous(s.tabs[index]) then
      s.(previousFocus := s.focus, modal := Modal(CloseTab(s.tabs[index].id), false))
    else ClosedAt(s, index)
  }

  function LeaveCommand(kind: ModalKind): ShellCommand { if kind == Quit then QuitIntent else DisconnectIntent }

  function LeaveRequested(s: Shell, kind: ModalKind): (Shell, ShellCommand) {
    if !HasHazardousTabs(s) then (s, LeaveCommand(kind))
    else (s.(previousFocus := s.focus, modal := Modal(kind, false)), Nothing)
  }

  function Confirmed(s: Shell, kind: ModalKind): (Shell, ShellCommand) {
    match kind
    case CloseTab(tab) =>
      var index := IndexOfTab(s.tabs, tab, 0);
      if index < 0 then (s, Nothing)
      else
        var operation := s.tabs[index].state.operation;
        (ClosedAt(s, index), if operation != "" then CancelIntent(operation) else Nothing)
    case Disconnect => (s, DisconnectIntent)
    case Quit => (s, QuitIntent)
  }

  function ModalKeyed(s: Shell, key: ModalKey): (Shell, ShellCommand)
    requires s.modal.Modal?
  {
    match key
    case EscapeKey => (s.(modal := NoModal, focus := s.previousFocus), Nothing)
    case ToggleKey => (s.(modal := s.modal.(destructive := !s.modal.destructive)), Nothing)
    case EnterKey =>
      if !s.modal.destructive then (s.(modal := NoModal, focus := s.previousFocus), Nothing)
      else Confirmed(s.(modal := NoModal), s.modal.kind)
    case OtherModalKey => (s, Nothing)
  }

  /** The focus is remembered by the active tab when it is on the content. */
  function Remembered(s: Shell): Shell {
    var index := ActiveIndex(s);
    if index >= 0 && s.focus == OnContent then s.(tabs := s.tabs[index := s.tabs[index].(lastFocus := OnContent)])
    else s
  }

  function Wrapped(index: int, delta: int, count: nat): (r: nat)
    requires count > 0
    ensures r < count
  {
    (index + delta + count) % count
  }

  function TabMoved(s: Shell, delta: int): Shell {
    if s.tabs == [] then s
    else
      var current := ActiveIndex(s);
      var index := if current < 0 then 0 else Wrapped(current, delta, |s.tabs|);
      var tab := s.tabs[index];
      Remembered(s.(active := Some(tab.id), focus := if s.focus == OnContent then tab.lastFocus else s.focus))
  }

  function FocusIndex(f: Focus, count: nat): nat {
    if f == OnTabs then 1 else if f == OnContent && count == 3 then 2 else 0
  }

  function FocusMoved(s: Shell, delta: int): Shell {
    var count := if s.active.Some? then 3 else 2;
    var index := Wrapped(FocusIndex(s.focus, count), delta, count);
    Remembered(s).(focus := if index == 0 then OnNavigator else if index == 1 then OnTabs else OnContent)
  }

  /** Escape goes up to the tabs, from the navigator only in a layout that hides it. */
  function Escaped(s: Shell, wide: bool): Shell {
    if s.focus == OnContent || (s.focus == OnNavigator && !wide) then s.(focus := OnTabs) else s
  }

  function Reported(s: Shell, id: TabId, state: TabState): Shell {
    var index := IndexOfTab(s.tabs, id, 0);
    if index < 0 then s else s.(tabs := s.tabs[index := s.tabs[index].(state := state)])
  }

  /** The dialog with one of its sides chosen. */
  function Chosen(s: Shell, apply: bool): Shell
    requires s.modal.Modal?
  {
    s.(modal := s.modal.(destructive := apply))
  }

  /** While a confirmation is open, only it and content reports are handled. */
  function ModalStep(s: Shell, e: Event): (Shell, ShellCommand)
    requires s.modal.Modal?
  {
    match e
    case PressModal(key) => ModalKeyed(s, key)
    case ClickModal(apply) => ModalKeyed(Chosen(s, apply), EnterKey)
    case ContentChanged(tab, state) => (Reported(s, tab, state), Nothing)
    case _ => (s, Nothing)
  }

  function Step(s: Shell, e: Event): (Shell, ShellCommand) {
    if s.modal.Modal? then ModalStep(s, e)
    else
      match e
      case OpenTable(relation) => Opened(s, relation)
      case OpenSql => OpenedSql(s)
      case CloseActive => (CloseRequested(s), Nothing)
      case MoveTab(delta) => (if delta == 1 || delta == -1 then TabMoved(s, delta) else s, Nothing)
      case MoveFocus(delta) => (if delta == 1 || delta == -1 then FocusMoved(s, delta) else s, Nothing)
      case SelectTab(index) =>
        (if 0 <= index < |s.tabs| then s.(focus := OnTabs, active := Some(s.tabs[index].id)) else s, Nothing)
      case CloseTabAtClick(index) =>
        (if 0 <= index < |s.tabs| then CloseRequested(s.(focus := OnTabs, active := Some(s.tabs[index].id))) else s,
         Nothing)
      case EnterContent => (if s.active.Some? then Remembered(s.(focus := OnContent)) else s, Nothing)
      case EscapeFocus(wide) => (Escaped(s, wide), Nothing)
      case Leave(kind) => if kind.CloseTab? then (s, Nothing) else LeaveRequested(s, kind)
      case ContentChanged(tab, state) => (Reported(s, tab, state), Nothing)
      case PressModal(_) => (s, Nothing)
      case ClickModal(_) => (s, Nothing)
  }

  // ----- tab identity -----

  predicate Kinded(tab: Tab) { tab.id.TableTab? <==> tab.relation.Some? }

  ghost predicate TabsDistinct(tabs: seq<Tab>, next: nat) {
    (forall i :: 0 <= i < |tabs| ==> tabs[i].id.n < next && Kinded(tabs[i])) &&
    (forall i, j :: 0 <= i < j < |tabs| ==> tabs[i].id.n != tabs[j].id.n) &&
    (forall i, j :: 0 <= i < j < |tabs| && tabs[i].relation.Some? ==> tabs[i].relation != tabs[j].relation)
  }

  /** Identifiers are unique and below the counter, each relation has at most one table tab,
      and a tab is active exactly when there is one. */
  ghost predicate Inv(s: Shell) {
    TabsDistinct(s.tabs, s.nextTab) &&
    (s.active.None? <==> s.tabs == []) && (s.active.Some? ==> ActiveIndex(s) >= 0)
  }

  lemma NewShellInv()
    ensures Inv(NEW_SHELL)
  {
  }

  /** The tabs keep their identity when only their state or focus changes. */
  predicate SameTabs(a: seq<Tab>, b: seq<Tab>) {
    |a| == |b| && forall i :: 0 <= i < |a| ==> a[i].id == b[i].id && a[i].relation == b[i].relation
  }

  lemma ActivatedInv(s: Shell, t: Shell, index: nat)
    requires Inv(s) && SameTabs(s.tabs, t.tabs) && t.nextTab == s.nextTab && index < |t.tabs| &&
      t.active == Some(t.tabs[index].id)
    ensures Inv(t)
  {
  }

  lemma UnchangedInv(s: Shell, t: Shell)
    requires Inv(s) && SameTabs(s.tabs, t.tabs) && t.nextTab == s.nextTab && t.active == s.active
    ensures Inv(t)
  {
  }

  lemma AppendedInv(s: Shell, t: Shell, tab: Tab)
    requires Inv(s) && t.tabs == s.tabs + [tab] && t.active == Some(tab.id) && t.nextTab == s.nextTab + 1
    requires tab.id.n == s.nextTab && Kinded(tab)
    requires forall i :: 0 <= i < |s.tabs| && s.tabs[i].relation.Some? ==> s.tabs[i].relation != tab.relation
    ensures Inv(t)
  {
    assert t.tabs[|s.tabs|] == tab;
  }

  lemma ClosedIdentity(s: Shell, index: nat)
    requires TabsDistinct(s.tabs, s.nextTab) && index < |s.tabs|
    ensures TabsDistinct(ClosedAt(s, index).tabs, s.nextTab)
  {
    var t := ClosedAt(s, index);
    forall i | 0 <= i < |t.tabs| ensures t.tabs[i] == s.tabs[if i < index then i else i + 1] {
    }
  }

  lemma ClosedInv(s: Shell, index: nat)
    requires Inv(s) && index < |s.tabs|
    ensures Inv(ClosedAt(s, index))
  {
    var t := ClosedAt(s, index);
    ClosedIdentity(s, index);
    if t.tabs != [] {
      var at := if index >= |t.tabs| then |t.tabs| - 1 else index;
      assert t.tabs[at].id == t.active.value;
    }
  }

  lemma CloseRequestedInv(s: Shell)
    requires Inv(s)
    ensures Inv(CloseRequested(s))
  {
    var index := ActiveIndex(s);
    if index >= 0 {
      if Hazardous(s.tabs[index]) { UnchangedInv(s, CloseRequested(s)); } else { ClosedInv(s, index); }
    }
  }

  lemma RememberedInv(s: Shell)
    requires Inv(s)
    ensures Inv(Remembered(s)) && SameTabs(s.tabs, Remembered(s).tabs)
  {
    UnchangedInv(s, Remembered(s));
  }

  lemma TabMovedInv(s: Shell, delta: int)
    requires Inv(s) && (delta == 1 || delta == -1)
    ensures Inv(TabMoved(s, delta))
  {
    if s.tabs != [] {
      var current := ActiveIndex(s);
      var index := if current < 0 then 0 else Wrapped(current, delta, |s.tabs|);
      var t := s.(active := Some(s.tabs[index].id),
                  focus := if s.focus == OnContent then s.tabs[index].lastFocus else s.focus);
      ActivatedInv(s, t, index);
      RememberedInv(t);
    }
  }

  lemma ModalKeyedInv(s: Shell, key: ModalKey)
    requires Inv(s) && s.modal.Modal?
    ensures Inv(ModalKeyed(s, key).0)
  {
    if key == EnterKey && s.modal.destructive {
      UnchangedInv(s, s.(modal := NoModal));
      if s.modal.kind.CloseTab? {
        var index := IndexOfTab(s.tabs, s.modal.kind.tab, 0);
        if index >= 0 { ClosedInv(s.(modal := NoModal), index); }
      }
    } else {
      UnchangedInv(s, ModalKeyed(s, key).0);
    }
  }

  lemma OpenedInv(s: Shell, relation: RelationId)
    requires Inv(s)
    ensures Inv(Opened(s, relation).0)
  {
    var at := IndexOfRelation(s.tabs, relation, 0);
    if at >= 0 { ActivatedInv(s, Opened(s, relation).0, at); }
    else { AppendedInv(s, Opened(s, relation).0, Tab(TableTab(s.nextTab), Some(relation), CLEAN, OnContent)); }
  }

  lemma OpenedSqlInv(s: Shell)
    requires Inv(s)
    ensures Inv(OpenedSql(s).0)
  {
    AppendedInv(s, OpenedSql(s).0, Tab(SqlTab(s.nextTab), None, CLEAN, OnContent));
  }

  lemma ModalStepInv(s: Shell, e: Event)
    requires Inv(s) && s.modal.Modal?
    ensures Inv(ModalStep(s, e).0)
  {
    match e
    case PressModal(key) => ModalKeyedInv(s, key);
    case ClickModal(apply) =>
      ChosenInv(s, apply);
      ModalKeyedInv(Chosen(s, apply), EnterKey);
    case ContentChanged(tab, state) => ReportedInv(s, tab, state);
    case _ =>
  }

  lemma ReportedInv(s: Shell, tab: TabId, state: TabState)
    requires Inv(s)
    ensures Inv(Reported(s, tab, state))
  {
    UnchangedInv(s, Reported(s, tab, state));
  }

  lemma ChosenInv(s: Shell, apply: bool)
    requires Inv(s) && s.modal.Modal?
    ensures Inv(Chosen(s, apply))
  {
    UnchangedInv(s, Chosen(s, apply));
  }

  lemma EscapedInv(s: Shell, wide: bool)
    requires Inv(s)
    ensures Inv(Escaped(s, wide))
  {
    UnchangedInv(s, Escaped(s, wide));
  }

  lemma LeaveInv(s: Shell, kind: ModalKind)
    requires Inv(s)
    ensures Inv(LeaveRequested(s, kind).0)
  {
    UnchangedInv(s, LeaveRequested(s, kind).0);
  }

  lemma FocusMovedInv(s: Shell, delta: int)
    requires Inv(s)
    ensures Inv(FocusMoved(s, delta))
  {
    RememberedInv(s);
    UnchangedInv(Remembered(s), FocusMoved(s, delta));
  }

  lemma SelectedInv(s: Shell, index: nat)
    requires Inv(s) && index < |s.tabs|
    ensures Inv(s.(focus := OnTabs, active := Some(s.tabs[index].id)))
    ensures Inv(CloseRequested(s.(focus := OnTabs, active := Some(s.tabs[index].id))))
  {
    var chosen := s.(focus := OnTabs, active := Some(s.tabs[index].id));
    ActivatedInv(s, chosen, index);
    CloseRequestedInv(chosen);
  }

  lemma EnteredInv(s: Shell)
    requires Inv(s)
    ensures Inv(Remembered(s.(focus := OnContent)))
  {
    UnchangedInv(s, s.(focus := OnContent));
    RememberedInv(s.(focus := OnContent));
  }

  /** Requests and movements while no confirmation is open. */
  lemma IdleStepInv(s: Shell, e: Event)
    requires Inv(s) && s.modal.NoModal?
    ensures Inv(Step(s, e).0)
  {
    match e
    case ContentChanged(tab, state) => ReportedInv(s, tab, state);
    case OpenTable(relation) => OpenedInv(s, relation);
    case OpenSql => OpenedSqlInv(s);
    case CloseActive => CloseRequestedInv(s);
    case _ => MovementInv(s, e);
  }

  lemma MovementInv(s: Shell, e: Event)
    requires Inv(s) && s.modal.NoModal?
    requires !e.ContentChanged? && !e.OpenTable? && !e.OpenSql? && !e.CloseActive?
    ensures Inv(Step(s, e).0)
  {
    match e
    case MoveTab(delta) => if delta == 1 || delta == -1 { TabMovedInv(s, delta); }
    case MoveFocus(delta) => FocusMovedInv(s, delta);
    case SelectTab(index) => if 0 <= index < |s.tabs| { SelectedInv(s, index); }
    case CloseTabAtClick(index) => if 0 <= index < |s.tabs| { SelectedInv(s, index); }
    case EnterContent => EnteredInv(s);
    case EscapeFocus(wide) => EscapedInv(s, wide);
    case Leave(kind) => if !kind.CloseTab? { LeaveInv(s, kind); }
    case _ =>
  }

  /** Every event keeps tab identity, the one table tab per relation, and the active tab. */
  lemma StepKeepsTabs(s: Shell, e: Event)
    requires Inv(s)
    ensures Inv(Step(s, e).0)
  {
    if s.modal.Modal? { ModalStepInv(s, e); } else { IdleStepInv(s, e); }
  }

  // ----- no local work is lost unconfirmed -----

  /** The confirmation a step carries out: the destructive choice of an open dialog, entered by
      key or clicked. */
  predicate Confirms(s: Shell, e: Event, kind: ModalKind) {
    s.modal.Modal? && s.modal.kind == kind &&
    ((e == PressModal(EnterKey) && s.modal.destructive) || e == ClickModal(true))
  }

  /** There is a tab of that identifier in that state. */
  predicate Kept(s: Shell, id: TabId, state: TabState) {
    exists i :: 0 <= i < |s.tabs| && s.tabs[i].id == id && s.tabs[i].state == state
  }

  predicate SameStates(a: seq<Tab>, b: seq<Tab>) {
    SameTabs(a, b) && forall i :: 0 <= i < |a| ==> a[i].state == b[i].state
  }

  lemma KeptWhenSame(s: Shell, t: Shell, id: TabId, state: TabState)
    requires SameStates(s.tabs, t.tabs) && Kept(s, id, state)
    ensures Kept(t, id, state)
  {
  }

  lemma KeptWhenAppended(s: Shell, t: Shell, tab: Tab, id: TabId, state: TabState)
    requires t.tabs == s.tabs + [tab] && Kept(s, id, state)
    ensures Kept(t, id, state)
  {
    var i :| 0 <= i < |s.tabs| && s.tabs[i].id == id && s.tabs[i].state == state;
    assert t.tabs[i].id == id;
  }

  lemma KeptWhenOtherClosed(s: Shell, index: nat, id: TabId, state: TabState)
    requires index < |s.tabs| && Kept(s, id, state) && s.tabs[index].id != id
    ensures Kept(ClosedAt(s, index), id, state)
  {
    var i :| 0 <= i < |s.tabs| && s.tabs[i].id == id && s.tabs[i].state == state;
    var t := ClosedAt(s, index);
    assert t.tabs[if i < index then i else i - 1] == s.tabs[i];
  }

  lemma CloseRequestedKeeps(s: Shell, k: nat)
    requires Inv(s) && k < |s.tabs| && Hazardous(s.tabs[k])
    ensures Kept(CloseRequested(s), s.tabs[k].id, s.tabs[k].state)
  {
    var state := s.tabs[k].state;
    assert Kept(s, s.tabs[k].id, state);
    var index := ActiveIndex(s);
    if index >= 0 && !Hazardous(s.tabs[index]) { KeptWhenOtherClosed(s, index, s.tabs[k].id, state); }
  }

  lemma ModalKeyedKeeps(s: Shell, key: ModalKey, id: TabId, state: TabState)
    requires Inv(s) && s.modal.Modal? && Kept(s, id, state)
    requires !(key == EnterKey && s.modal.destructive && s.modal.kind == CloseTab(id))
    ensures Kept(ModalKeyed(s, key).0, id, state)
  {
    if key == EnterKey && s.modal.destructive && s.modal.kind.CloseTab? {
      var index := IndexOfTab(s.tabs, s.modal.kind.tab, 0);
      if index >= 0 {
        KeptWhenSame(s, s.(modal := NoModal), id, state);
        KeptWhenOtherClosed(s.(modal := NoModal), index, id, state);
      }
    } else {
      KeptWhenSame(s, ModalKeyed(s, key).0, id, state);
    }
  }

  /** A tab with unsaved or running work is only removed by a step that carries out the
      destructive choice of the confirmation for that very tab, and only its content changes its state. */
  lemma HazardousTabsAreKept(s: Shell, e: Event, k: nat)
    requires Inv(s) && k < |s.tabs| && Hazardous(s.tabs[k]) && !Confirms(s, e, CloseTab(s.tabs[k].id))
    ensures Kept(Step(s, e).0, s.tabs[k].id,
                 if e.ContentChanged? && e.tab == s.tabs[k].id then e.state else s.tabs[k].state)
  {
    var id, state := s.tabs[k].id, s.tabs[k].state;
    assert Kept(s, id, state);
    match e
    case ContentChanged(tab, reported) => ReportKeeps(s, tab, reported, k);
    case PressModal(key) => if s.modal.Modal? { ModalKeyedKeeps(s, key, id, state); }
    case ClickModal(apply) => if s.modal.Modal? { ModalClickKeeps(s, apply, id, state); }
    case _ => if s.modal.NoModal? { OrdinaryEventKeeps(s, e, k); }
  }

  lemma ModalClickKeeps(s: Shell, apply: bool, id: TabId, state: TabState)
    requires Inv(s) && s.modal.Modal? && Kept(s, id, state) && !(apply && s.modal.kind == CloseTab(id))
    ensures Kept(ModalStep(s, ClickModal(apply)).0, id, state)
  {
    ChosenKeeps(s, apply, id, state);
    ModalKeyedKeeps(Chosen(s, apply), EnterKey, id, state);
  }

  lemma ChosenKeeps(s: Shell, apply: bool, id: TabId, state: TabState)
    requires Inv(s) && s.modal.Modal? && Kept(s, id, state)
    ensures Inv(Chosen(s, apply)) && Kept(Chosen(s, apply), id, state)
  {
    UnchangedInv(s, Chosen(s, apply));
    KeptWhenSame(s, Chosen(s, apply), id, state);
  }

  lemma ReportKeeps(s: Shell, tab: TabId, reported: TabState, k: nat)
    requires Inv(s) && k < |s.tabs|
    ensures Kept(Reported(s, tab, reported), s.tabs[k].id, if tab == s.tabs[k].id then reported else s.tabs[k].state)
  {
    var t := Reported(s, tab, reported);
    var index := IndexOfTab(s.tabs, tab, 0);
    if tab == s.tabs[k].id { assert index == k; }
    assert t.tabs[k].id == s.tabs[k].id;
  }

  lemma OrdinaryEventKeeps(s: Shell, e: Event, k: nat)
    requires Inv(s) && s.modal.NoModal? && k < |s.tabs| && Hazardous(s.tabs[k])
    requires !e.ContentChanged? && !e.PressModal? && !e.ClickModal?
    ensures Kept(Step(s, e).0, s.tabs[k].id, s.tabs[k].state)
  {
    var id, state := s.tabs[k].id, s.tabs[k].state;
    assert Kept(s, id, state);
    match e
    case CloseActive => CloseRequestedKeeps(s, k);
    case CloseTabAtClick(index) =>
      if 0 <= index < |s.tabs| {
        var chosen := s.(focus := OnTabs, active := Some(s.tabs[index].id));
        ActivatedInv(s, chosen, index);
        CloseRequestedKeeps(chosen, k);
      }
    case OpenTable(relation) => OpeningKeeps(s, relation, id, state);
    case OpenSql => KeptWhenAppended(s, OpenedSql(s).0, Tab(SqlTab(s.nextTab), None, CLEAN, OnContent), id, state);
    case _ =>
      OtherEventsKeepTabs(s, e);
      KeptWhenSame(s, Step(s, e).0, id, state);
  }

  lemma OpeningKeeps(s: Shell, relation: RelationId, id: TabId, state: TabState)
    requires Kept(s, id, state)
    ensures Kept(Opened(s, relation).0, id, state)
  {
    if IndexOfRelation(s.tabs, relation, 0) >= 0 { KeptWhenSame(s, Opened(s, relation).0, id, state); }
    else {
      var tab := Tab(TableTab(s.nextTab), Some(relation), CLEAN, OnContent);
      KeptWhenAppended(s, Opened(s, relation).0, tab, id, state);
    }
  }

  lemma TabMovedSame(s: Shell, delta: int)
    ensures SameStates(s.tabs, TabMoved(s, delta).tabs) && TabMoved(s, delta).modal == s.modal
  {
  }

  lemma OtherEventsKeepTabs(s: Shell, e: Event)
    requires Inv(s) && s.modal.NoModal? && !e.CloseActive? && !e.CloseTabAtClick? && !e.OpenTable? && !e.OpenSql? &&
      !e.ContentChanged?
    ensures SameStates(s.tabs, Step(s, e).0.tabs)
  {
    match e
    case MoveTab(delta) => TabMovedSame(s, delta);
    case MoveFocus(_) => RememberedSame(s);
    case EnterContent => RememberedSame(s.(focus := OnContent));
    case _ =>
  }

  lemma RememberedSame(s: Shell)
    ensures SameStates(s.tabs, Remembered(s).tabs) && Remembered(s).modal == s.modal
  {
  }

  /** The shell asks to quit or disconnect only when no tab has unsaved or running work, or on
      the destructive choice of the confirmation for exactly that. */
  lemma LeavingIsSafe(s: Shell, e: Event)
    requires Inv(s)
    ensures Step(s, e).1 == QuitIntent ==> !HasHazardousTabs(s) || Confirms(s, e, Quit)
    ensures Step(s, e).1 == DisconnectIntent ==> !HasHazardousTabs(s) || Confirms(s, e, Disconnect)
  {
  }

  // ----- runs -----

  function Run(s: Shell, events: seq<Event>): Shell
    decreases |events|
  {
    if events == [] then s else Run(Step(s, events[0]).0, events[1..])
  }

  lemma {:induction false} RunKeepsTabs(s: Shell, events: seq<Event>)
    requires Inv(s)
    ensures Inv(Run(s, events))
    decreases |events|
  {
    if events != [] {
      StepKeepsTabs(s, events[0]);
      RunKeepsTabs(Step(s, events[0]).0, events[1..]);
    }
  }

  /** Events that can choose the destructive side of a confirmation. */
  predicate Chooses(e: Event) { e == PressModal(ToggleKey) || e == ClickModal(true) }

  predicate Safe(s: Shell) { s.modal.Modal? ==> !s.modal.destructive }

  lemma StaysSafe(s: Shell, e: Event)
    requires Safe(s) && !Chooses(e)
    ensures Safe(Step(s, e).0) && forall kind :: !Confirms(s, e, kind)
  {
  }

  /** A confirmation opens on its safe side: over any run in which nobody toggles it or clicks
      its destructive button, a tab whose content keeps reporting unsaved or running work stays,
      however often closing, quitting and pressing Enter are tried. */
  lemma {:induction false} NoChoiceNoLoss(s: Shell, events: seq<Event>, id: TabId)
    requires Inv(s) && Safe(s) && Busy(s, id)
    requires forall i :: 0 <= i < |events| ==> !Chooses(events[i]) && !Settles(events[i], id)
    ensures Busy(Run(s, events), id)
    decreases |events|
  {
    if events != [] {
      var t := Step(s, events[0]).0;
      StepKeepsTabs(s, events[0]);
      StaysSafe(s, events[0]);
      BusyStays(s, events[0], id);
      NoChoiceNoLoss(t, events[1..], id);
    }
  }

  lemma BusyStays(s: Shell, e: Event, id: TabId)
    requires Inv(s) && Busy(s, id) && !Settles(e, id) && forall kind :: !Confirms(s, e, kind)
    ensures Busy(Step(s, e).0, id)
  {
    var k :| 0 <= k < |s.tabs| && s.tabs[k].id == id && Hazardous(s.tabs[k]);
    HazardousTabsAreKept(s, e, k);
  }

  /** There is a tab of that identifier with unsaved or running work. */
  predicate Busy(s: Shell, id: TabId) { exists i :: 0 <= i < |s.tabs| && s.tabs[i].id == id && Hazardous(s.tabs[i]) }

  /** The content reports that its work is saved and done. */
  predicate Settles(e: Event, id: TabId) {
    e.ContentChanged? && e.tab == id && !e.state.dirty && e.state.lifecycle != TabRunning
  }
}
