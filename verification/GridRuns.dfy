/** Runs of a table tab: requests and their results, and what an apply in flight sees. */
module GridRuns {
  import opened Relations
  import opened GridData
  import opened IdentityKeys
  import opened Staging
  import opened GridState
  import opened GridInvariant
  import opened GridClicks

  ghost function After(valid: Validator, g: Grid, messages: seq<Message>): Grid
    decreases |messages|
  {
    if messages == [] then g else After(valid, Step(valid, g, messages[0]).0, messages[1..])
  }

  ghost predicate AllSound(relationId: RelationId, messages: seq<Message>) {
    forall i :: 0 <= i < |messages| ==> Sound(relationId, messages[i])
  }

  // ----- request numbers -----

  predicate Issues(command: Command) {
    command.DescribeCommand? || command.LoadPageCommand? || command.ApplyCommand?
  }

  function KindOf(command: Command): OperationKind {
    if command.DescribeCommand? then Describing else if command.LoadPageCommand? then Paging else Applying
  }

  /** A step either issues one request, numbered next, which becomes the active operation,
      or leaves the counter alone and the active operation as it was or finished. */
  predicate RequestStep(io: Requests, after: Requests, command: Command) {
    if Issues(command) then
      command.meta.request == io.next && after.next == io.next + 1 &&
      after.active == Some(Active(KindOf(command), command.meta))
    else after.next == io.next && (after.active == io.active || after.active.None?)
  }

  /** An apply sends the snapshot of what is staged. */
  ghost predicate Follows(g: Grid, h: Grid, command: Command) {
    RequestStep(g.io, h.io, command) && h.edits.relationId == g.edits.relationId &&
    (command.ApplyCommand? ==>
       command.mutations == h.apply.snapshot == Snapshot(h.edits.staged) && h.edits == g.edits &&
       h.edits.relation == Some(command.relation))
  }

  /** A step that touches neither the requests nor the relation. */
  predicate Quiet(g: Grid, h: Grid) { h.io == g.io && h.edits.relationId == g.edits.relationId }

  lemma ActionIsQuiet(g: Grid, action: Action)
    ensures Quiet(g, ActionClick(g, action))
  {
  }

  lemma ApplyFollows(g: Grid)
    ensures Follows(g, StartApply(g).0, StartApply(g).1)
    ensures Follows(g, ApplyBeforeRefresh(g).0, ApplyBeforeRefresh(g).1)
  {
  }

  lemma TurningFollows(g: Grid)
    ensures Follows(g, NextPage(g).0, NextPage(g).1) && Follows(g, PreviousPage(g).0, PreviousPage(g).1)
  {
  }

  lemma RefreshFollows(g: Grid)
    ensures Follows(g, Refresh(g).0, Refresh(g).1)
  {
  }

  lemma SortFollows(g: Grid)
    ensures Follows(g, CycleSort(g).0, CycleSort(g).1)
  {
  }

  lemma RevertFollows(g: Grid)
    ensures Follows(g, RevertAndRefresh(g).0, RevertAndRefresh(g).1)
  {
  }

  lemma PagingFollows(g: Grid)
    ensures Follows(g, NextPage(g).0, NextPage(g).1) && Follows(g, PreviousPage(g).0, PreviousPage(g).1)
    ensures Follows(g, Refresh(g).0, Refresh(g).1) && Follows(g, CycleSort(g).0, CycleSort(g).1)
    ensures Follows(g, RevertAndRefresh(g).0, RevertAndRefresh(g).1)
  {
    TurningFollows(g);
    RefreshFollows(g);
    SortFollows(g);
    RevertFollows(g);
  }

  lemma DismissFollows(g: Grid)
    requires !Busy(g)
    ensures Follows(g, DismissError(g), NoCommand) && Follows(g, RequestApply(DismissError(g)), NoCommand)
  {
  }

  lemma SettingsAreQuiet(g: Grid)
    ensures Quiet(g, HideOverlay(g)) && Quiet(g, ClearChanges(g)) && Quiet(g, RequestApply(g))
  {
  }

  lemma RefreshKeyFollows(g: Grid, key: Key)
    requires g.overlay == RefreshOverlay
    ensures Follows(g, OverlayKey(g, key).0, OverlayKey(g, key).1)
  {
    SettingsAreQuiet(g);
    ApplyFollows(g);
    RevertFollows(g);
  }

  lemma ApplyKeyFollows(g: Grid, key: Key)
    requires g.overlay == ApplyOverlay
    ensures Follows(g, OverlayKey(g, key).0, OverlayKey(g, key).1)
  {
    SettingsAreQuiet(g);
    ApplyFollows(g);
  }

  lemma ErrorKeyFollows(g: Grid, key: Key)
    requires !Busy(g) && g.overlay == ErrorOverlay
    ensures Follows(g, OverlayKey(g, key).0, OverlayKey(g, key).1)
  {
    DismissFollows(g);
  }

  lemma OverlayKeyFollows(g: Grid, key: Key)
    requires !Busy(g)
    ensures Follows(g, OverlayKey(g, key).0, OverlayKey(g, key).1)
  {
    match g.overlay
    case ApplyOverlay => ApplyKeyFollows(g, key);
    case RefreshOverlay => RefreshKeyFollows(g, key);
    case ErrorOverlay => ErrorKeyFollows(g, key);
    case _ => SettingsAreQuiet(g);
  }

  lemma OverlayClickFollows(g: Grid, target: ClickTarget)
    ensures Follows(g, OverlayClick(g, target).0, OverlayClick(g, target).1)
  {
    SettingsAreQuiet(g);
    match g.overlay
    case ApplyOverlay => ApplyFollows(g);
    case RefreshOverlay =>
      ApplyFollows(g);
      PagingFollows(g);
    case _ =>
  }

  lemma NavigationIsQuiet(g: Grid, c: char)
    ensures Quiet(g, Navigate(g, c))
  {
  }

  lemma GridKeyFollows(g: Grid, key: Key)
    ensures Follows(g, GridKey(g, key).0, GridKey(g, key).1)
  {
    match key
    case Character(c) =>
      if c == 'n' || c == 'p' || c == 'r' || c == 's' { PagingFollows(g); }
      else if ActionOf(c).Some? { ActionIsQuiet(g, ActionOf(c).value); }
      else { NavigationIsQuiet(g, c); }
    case PageUp => PagingFollows(g);
    case PageDown => PagingFollows(g);
    case _ =>
  }

  lemma EditorKeyIsQuiet(valid: Validator, e: Edits, key: Key)
    requires e.editor.Some?
    ensures EditorKey(valid, e, key).relationId == e.relationId
  {
  }

  /** A result changes nothing unless it is for the active operation. */
  lemma ResultFollows(valid: Validator, g: Grid, message: Message)
    requires message.RelationDescribed? || message.PageLoaded? || message.Applied? || message.OperationFailed?
    ensures Follows(g, Step(valid, g, message).0, Step(valid, g, message).1)
    ensures g.io.active.None? || ActiveMeta(g.io) != message.meta ==> Step(valid, g, message) == (g, NoCommand)
    ensures Step(valid, g, message).0.io.active.Some? ==>
              Step(valid, g, message) == (g, NoCommand) || ActiveMeta(Step(valid, g, message).0.io).request == g.io.next
  {
  }

  lemma StepFollows(valid: Validator, g: Grid, message: Message)
    ensures Follows(g, Step(valid, g, message).0, Step(valid, g, message).1)
  {
    match message
    case KeyPress(key) =>
      if !Busy(g) {
        if g.edits.editor.Some? { EditorKeyIsQuiet(valid, g.edits, key); }
        else if g.overlay != NoOverlay { OverlayKeyFollows(g, key); }
        else { GridKeyFollows(g, key); }
      }
    case Click(target) =>
      if g.overlay != NoOverlay { OverlayClickFollows(g, target); }
      else if target.OnAction? { ActionIsQuiet(g, target.action); }
    case Paste(_) =>
    case Wheel(_, _) =>
    case Resize(_) =>
    case _ => ResultFollows(valid, g, message);
  }

  // ----- runs -----

  /** Whatever the messages: every state of a run satisfies the staging and request invariants. */
  lemma {:induction false} RunKeepsInvariant(valid: Validator, g: Grid, messages: seq<Message>)
    requires Good(g) && AllSound(g.edits.relationId, messages)
    ensures Good(After(valid, g, messages)) && After(valid, g, messages).edits.relationId == g.edits.relationId
    decreases |messages|
  {
    if messages != [] {
      var h := Step(valid, g, messages[0]).0;
      StepKeepsInvariant(valid, g, messages[0]);
      StepFollows(valid, g, messages[0]);
      assert AllSound(h.edits.relationId, messages[1..]);
      RunKeepsInvariant(valid, h, messages[1..]);
    }
  }

  /** In every state of every run the change counter is the length of the snapshot an apply
      would send, and no row and no draft occurs in that snapshot twice. */
  lemma RunSnapshotIsClean(valid: Validator, g: Grid, messages: seq<Message>, i: nat, j: nat)
    requires Good(g) && AllSound(g.edits.relationId, messages)
    ensures
      var s := After(valid, g, messages).edits.staged;
      ChangeCount(s) == |Snapshot(s)| && (Dirty(s) <==> Snapshot(s) != []) &&
      (i < j < |Snapshot(s)| ==>
         After(valid, g, messages).edits.relation.Some? &&
         DifferentTargets(After(valid, g, messages).edits.relation.value, Snapshot(s)[i], Snapshot(s)[j]))
  {
    RunKeepsInvariant(valid, g, messages);
    var h := After(valid, g, messages);
    ChangeCountIsSnapshotLength(h.edits.staged);
    if i < j < |Snapshot(h.edits.staged)| {
      if h.edits.relation.None? { EmptySnapshot(); }
      SnapshotHasNoRepeats(h.edits.relation.value, h.edits.staged, i, j);
    }
  }

  lemma EmptySnapshot()
    ensures Snapshot(NOTHING_STAGED) == []
  {
  }


  // ----- results reach only the request they are for -----

  ghost function Issued(valid: Validator, g: Grid, messages: seq<Message>): seq<nat>
    decreases |messages|
  {
    if messages == [] then []
    else
      var step := Step(valid, g, messages[0]);
      (if Issues(step.1) then [step.1.meta.request] else []) + Issued(valid, step.0, messages[1..])
  }

  /** Over any run, clicks included, no request number is used twice: they strictly increase. */
  lemma {:induction false} RequestNumbersIncrease(valid: Validator, g: Grid, messages: seq<Message>)
    ensures forall i :: 0 <= i < |Issued(valid, g, messages)| ==> Issued(valid, g, messages)[i] >= g.io.next
    ensures forall i, j :: 0 <= i < j < |Issued(valid, g, messages)| ==>
              Issued(valid, g, messages)[i] < Issued(valid, g, messages)[j]
    decreases |messages|
  {
    if messages != [] {
      StepFollows(valid, g, messages[0]);
      RequestNumbersIncrease(valid, Step(valid, g, messages[0]).0, messages[1..]);
    }
  }

  /** A request that was issued and is no longer the active one. */
  predicate Settled(io: Requests, meta: Meta) {
    meta.request < io.next && (io.active.Some? ==> ActiveMeta(io) != meta)
  }

  predicate IsResult(message: Message) {
    message.RelationDescribed? || message.PageLoaded? || message.Applied? || message.OperationFailed?
  }

  /** The one result that is accepted for a request settles it. */
  lemma AcceptedResultSettles(valid: Validator, g: Grid, message: Message)
    requires Good(g) && IsResult(message) && Step(valid, g, message) != (g, NoCommand)
    ensures g.io.active.Some? && ActiveMeta(g.io) == message.meta && Settled(Step(valid, g, message).0.io, message.meta)
  {
  }

  lemma {:induction false} SettledStaysSettled(valid: Validator, g: Grid, messages: seq<Message>, meta: Meta)
    requires Settled(g.io, meta)
    ensures Settled(After(valid, g, messages).io, meta)
    decreases |messages|
  {
    if messages != [] {
      StepFollows(valid, g, messages[0]);
      SettledStaysSettled(valid, Step(valid, g, messages[0]).0, messages[1..], meta);
    }
  }

  /** A finished or superseded request stays so: after any further run, clicks included,
      a late result for it changes nothing and starts nothing. */
  lemma LateResultsChangeNothing(valid: Validator, g: Grid, messages: seq<Message>, late: Message)
    requires IsResult(late) && Settled(g.io, late.meta)
    ensures
      var h := After(valid, g, messages);
      Step(valid, h, late) == (h, NoCommand)
  {
    SettledStaysSettled(valid, g, messages, late.meta);
    ResultFollows(valid, After(valid, g, messages), late);
  }

  lemma ClickIssues(valid: Validator, g: Grid, target: ClickTarget)
    requires Good(g)
    ensures Issues(Step(valid, g, Click(target)).1) <==> ClickStarts(g, target)
  {
    StepFollows(valid, g, Click(target));
    ClickChanges(valid, g, target);
  }

  lemma BusyIssues(valid: Validator, g: Grid, message: Message)
    requires !message.Click? && Busy(g) && Issues(Step(valid, g, message).1)
    ensures IsResult(message) && message.meta == ActiveMeta(g.io)
  {
  }

  /** While an operation is in flight another starts only by the result that ends it, or by a
      click that confirms an apply or a refresh. */
  lemma OneOperationAtATime(valid: Validator, g: Grid, message: Message)
    requires Good(g) && Busy(g) && !(IsResult(message) && message.meta == ActiveMeta(g.io))
    ensures Issues(Step(valid, g, message).1) <==> message.Click? && ClickStarts(g, message.target)
  {
    if message.Click? { ClickIssues(valid, g, message.target); }
    else if Issues(Step(valid, g, message).1) { BusyIssues(valid, g, message); }
  }

  // ----- an apply in flight -----

  /** What is staged is what was sent, as long as the apply is in flight. */
  ghost predicate InFlight(g: Grid) {
    ApplyRuns(g.io) ==> g.apply.snapshot == Snapshot(g.edits.staged)
  }

  /** The message is the result of the operation in flight, or a click that starts another or
      stages something. */
  predicate Disturbs(g: Grid, message: Message) {
    match message
    case RelationDescribed(_, meta) => Matches(g, Describing, meta)
    case PageLoaded(_, meta) => Matches(g, Paging, meta)
    case Applied(_, meta) => Matches(g, Applying, meta)
    case OperationFailed(kind, _, meta) => Matches(g, kind, meta)
    case Click(target) => ClickDisturbs(g, target)
    case _ => false
  }

  lemma AcceptedResultEnds(valid: Validator, g: Grid, message: Message)
    requires Good(g) && IsResult(message) && Disturbs(g, message)
    ensures Step(valid, g, message).0.io != g.io
  {
    StepFollows(valid, g, message);
  }

  lemma OtherMessagesKeep(valid: Validator, g: Grid, message: Message)
    requires Busy(g) && !message.Click? && !Disturbs(g, message)
    ensures
      var h := Step(valid, g, message).0;
      h.edits.staged == g.edits.staged && h.io == g.io && h.apply == g.apply
  {
  }

  /** Exactly what disturbs an operation in flight. Every other message, harmless clicks
      included, leaves both the operation and what is staged alone. */
  lemma StepDisturbs(valid: Validator, g: Grid, message: Message)
    requires Good(g) && Busy(g)
    ensures
      var h := Step(valid, g, message).0;
      h.edits.staged == g.edits.staged && h.io == g.io <==> !Disturbs(g, message)
  {
    if message.Click? { ClickChanges(valid, g, message.target); }
    else if Disturbs(g, message) { AcceptedResultEnds(valid, g, message); }
    else { OtherMessagesKeep(valid, g, message); }
  }

  lemma AppliedClears(g: Grid, result: ApplyResult)
    requires Good(g)
    ensures !ApplyRuns(OnApplied(g, result).0.io)
    ensures OnApplied(g, result).0.edits.staged == ClearStaged(g.edits.staged)
  {
  }

  lemma FailureKeepsEdits(g: Grid, kind: OperationKind, failure: Failure)
    ensures OnFailed(g, kind, failure).edits == g.edits && !ApplyRuns(OnFailed(g, kind, failure).io)
  {
  }

  lemma OverlayClickSnapshot(g: Grid, target: ClickTarget)
    requires g.edits.relation.Some? && g.edits.editor.None? && !ClickDisturbs(g, target)
    ensures
      var h := OverlayClick(g, target).0;
      h.apply.snapshot == g.apply.snapshot || (h.apply.snapshot == [] && !Dirty(g.edits.staged))
  {
  }

  lemma ActionSnapshot(g: Grid, action: Action)
    ensures ActionClick(g, action).apply.snapshot == g.apply.snapshot
  {
  }

  /** Only the start of an apply changes the snapshot to something else than nothing. */
  lemma ClickSnapshot(valid: Validator, g: Grid, target: ClickTarget)
    requires !ClickDisturbs(g, target)
    ensures
      var h := Step(valid, g, Click(target)).0;
      h.apply.snapshot == g.apply.snapshot || (h.apply.snapshot == [] && !Dirty(g.edits.staged))
  {
    if g.edits.relation.None? || g.edits.editor.Some? || (g.overlay == NoOverlay && !target.OnAction?) {
      OtherClicksKeep(valid, g, target);
    } else if g.overlay != NoOverlay {
      OverlayTakesClick(valid, g, target);
      OverlayClickSnapshot(g, target);
    } else {
      GridTakesClick(valid, g, target.action);
      ActionSnapshot(g, target.action);
    }
  }

  lemma ResultInFlight(valid: Validator, g: Grid, message: Message)
    requires Good(g) && InFlight(g) && IsResult(message)
    ensures InFlight(Step(valid, g, message).0)
  {
    if Step(valid, g, message) != (g, NoCommand) {
      match message
      case OperationFailed(kind, failure, _) => FailureKeepsEdits(g, kind, failure);
      case Applied(result, _) => AppliedClears(g, result);
      case _ =>
    }
  }

  lemma BusyStepInFlight(valid: Validator, g: Grid, message: Message)
    requires Good(g) && InFlight(g) && ApplyRuns(g.io) && !IsResult(message) && !Disturbs(g, message)
    ensures InFlight(Step(valid, g, message).0)
  {
    var h := Step(valid, g, message).0;
    StepDisturbs(valid, g, message);
    if message.Click? {
      ClickSnapshot(valid, g, message.target);
      ChangeCountIsSnapshotLength(g.edits.staged);
    } else {
      OtherMessagesKeep(valid, g, message);
    }
  }

  /** What is staged stays equal to what was sent, whatever the message, unless it is a click
      that stages something while the apply runs or confirms yet another operation. */
  lemma StepInFlight(valid: Validator, g: Grid, message: Message)
    requires Good(g) && InFlight(g)
    requires ApplyRuns(g.io) && message.Click? ==> !ClickDisturbs(g, message.target)
    ensures InFlight(Step(valid, g, message).0)
  {
    StepFollows(valid, g, message);
    if IsResult(message) { ResultInFlight(valid, g, message); }
    else if ApplyRuns(g.io) { BusyStepInFlight(valid, g, message); }
  }

  /** No click of the run disturbs an apply that is in flight when it comes. */
  ghost predicate PatientClicks(valid: Validator, g: Grid, messages: seq<Message>)
    decreases |messages|
  {
    messages == [] ||
    ((ApplyRuns(g.io) && messages[0].Click? ==> !ClickDisturbs(g, messages[0].target)) &&
     PatientClicks(valid, Step(valid, g, messages[0]).0, messages[1..]))
  }

  lemma {:induction false} RunInFlight(valid: Validator, g: Grid, messages: seq<Message>)
    requires Good(g) && InFlight(g) && AllSound(g.edits.relationId, messages) && PatientClicks(valid, g, messages)
    ensures Good(After(valid, g, messages)) && InFlight(After(valid, g, messages))
    decreases |messages|
  {
    if messages != [] {
      StepInFlight(valid, g, messages[0]);
      StepKeepsInvariant(valid, g, messages[0]);
      StepFollows(valid, g, messages[0]);
      RunInFlight(valid, Step(valid, g, messages[0]).0, messages[1..]);
    }
  }

  /** From a new tab on, whatever happens in whatever order: as long as no click disturbs an
      apply in flight, what is staged during an apply is what was sent. */
  lemma NewTabInFlight(valid: Validator, workspace: string, tab: string, relationId: RelationId, messages: seq<Message>)
    requires relationId != NO_RELATION && AllSound(relationId, messages)
    requires PatientClicks(valid, Describe(NewGrid(workspace, tab, relationId)).0, messages)
    ensures
      var g := After(valid, Describe(NewGrid(workspace, tab, relationId)).0, messages);
      Good(g) && (ApplyRuns(g.io) ==> g.apply.snapshot == Snapshot(g.edits.staged))
  {
    NewGridSound(workspace, tab, relationId);
    RunInFlight(valid, Describe(NewGrid(workspace, tab, relationId)).0, messages);
  }

  /** No message of the run disturbs the operation in flight. */
  ghost predicate Undisturbed(valid: Validator, g: Grid, messages: seq<Message>)
    decreases |messages|
  {
    messages == [] ||
    (!Disturbs(g, messages[0]) && Undisturbed(valid, Step(valid, g, messages[0]).0, messages[1..]))
  }

  lemma UndisturbedStep(valid: Validator, g: Grid, message: Message)
    requires Good(g) && InFlight(g) && ApplyRuns(g.io) && !Disturbs(g, message) && Sound(g.edits.relationId, message)
    ensures
      var h := Step(valid, g, message).0;
      h.io == g.io && h.edits.staged == g.edits.staged && h.edits.relationId == g.edits.relationId &&
      Good(h) && InFlight(h)
  {
    UndisturbedKeeps(valid, g, message);
    UndisturbedInFlight(valid, g, message);
    StepKeepsInvariant(valid, g, message);
  }

  lemma UndisturbedKeeps(valid: Validator, g: Grid, message: Message)
    requires Good(g) && ApplyRuns(g.io) && !Disturbs(g, message)
    ensures
      var h := Step(valid, g, message).0;
      h.io == g.io && h.edits.staged == g.edits.staged && h.edits.relationId == g.edits.relationId
  {
    StepDisturbs(valid, g, message);
    StepFollows(valid, g, message);
  }

  lemma UndisturbedInFlight(valid: Validator, g: Grid, message: Message)
    requires Good(g) && InFlight(g) && !Disturbs(g, message)
    ensures InFlight(Step(valid, g, message).0)
  {
    HarmlessClick(g, message);
    StepInFlight(valid, g, message);
  }

  lemma HarmlessClick(g: Grid, message: Message)
    requires !Disturbs(g, message)
    ensures message.Click? ==> !ClickDisturbs(g, message.target)
  {
  }

  /** Over every run that does not bring its result and has no click that disturbs it, an apply
      in flight stays in flight, and what is staged stays exactly what was sent. */
  lemma {:induction false} ApplyRunsUndisturbed(valid: Validator, g: Grid, messages: seq<Message>)
    requires Good(g) && InFlight(g) && ApplyRuns(g.io) && AllSound(g.edits.relationId, messages)
    requires Undisturbed(valid, g, messages)
    ensures
      var h := After(valid, g, messages);
      h.io == g.io && h.edits.staged == g.edits.staged && Good(h) && InFlight(h)
    decreases |messages|
  {
    if messages != [] {
      UndisturbedStep(valid, g, messages[0]);
      ApplyRunsUndisturbed(valid, Step(valid, g, messages[0]).0, messages[1..]);
    }
  }

  // ----- a failure focuses the row of the mutation that failed -----

  lemma {:induction false} DraftIndexFinds(inserts: seq<Mutation>, k: nat, i: nat)
    requires i <= k < |inserts|
    requires forall a, b :: 0 <= a < b < |inserts| ==> inserts[a].draftId < inserts[b].draftId
    ensures DraftIndex(inserts, inserts[k].draftId, i) == Some(k)
    decreases k - i
  {
    if i < k {
      assert inserts[i].draftId < inserts[k].draftId;
      DraftIndexFinds(inserts, k, i + 1);
    }
  }

  lemma {:induction false} PageIndexFinds(identity: seq<string>, rows: seq<Row>, key: string, p: nat, i: nat)
    requires i <= p < |rows| && IdentityKeys.Key(identity, rows[p].identity) == key
    ensures PageIndex(identity, rows, key, i).Some?
    ensures
      var at := PageIndex(identity, rows, key, i).value;
      at < |rows| && IdentityKeys.Key(identity, rows[at].identity) == key
    decreases p - i
  {
    if IdentityKeys.Key(identity, rows[i].identity) != key { PageIndexFinds(identity, rows, key, p, i + 1); }
  }

  /** The row reference shows the row a mutation is about: its very draft, or a page row with
      the same identity, under whose key the mutation is staged. */
  ghost predicate RefersTo(relation: Relation, s: Staged, ref: RowRef, m: Mutation) {
    if m.kind == MutationKind.InsertRow then ref.insert && ref.insertIdx < |s.inserts| && s.inserts[ref.insertIdx] == m
    else
      !ref.insert && SameIdentity(relation.identity, ref.row.identity, m.original.identity) &&
      if m.kind == DeleteRow then ref.key in s.deletes && s.deletes[ref.key] == m
      else ref.key in s.updates && s.updates[ref.key] == m
  }

  ghost predicate RowShown(e: Edits, m: Mutation) {
    m.kind == MutationKind.InsertRow ||
    (e.relation.Some? &&
     exists p :: 0 <= p < |e.page.rows| &&
                 SameIdentity(e.relation.value.identity, e.page.rows[p].identity, m.original.identity))
  }

  predicate StagedUnder(relation: Relation, s: Staged, key: string, m: Mutation) {
    IdentityKeys.Key(relation.identity, m.original.identity) == key &&
    ((m.kind == DeleteRow && key in s.deletes && s.deletes[key] == m) ||
     (m.kind == UpdateRow && key in s.updates && s.updates[key] == m))
  }

  lemma RowMutationStaged(relation: Relation, s: Staged, i: nat)
    requires Consistent(relation, s) && i < |RowKeys(s)|
    ensures |RowMutations(s)| == |RowKeys(s)|
    ensures StagedUnder(relation, s, RowKeys(s)[i], RowMutations(s)[i])
  {
    RowMutationAt(s, i);
    RowMutationEntry(relation, s, i);
  }

  lemma DraftOfSnapshot(relation: Relation, s: Staged, i: nat)
    requires Consistent(relation, s) && |RowKeys(s)| <= i < |Snapshot(s)|
    ensures
      var k := i - |RowKeys(s)|;
      k < |s.inserts| && Snapshot(s)[i] == s.inserts[k] && s.inserts[k].kind == MutationKind.InsertRow &&
      DraftIndex(s.inserts, s.inserts[k].draftId, 0) == Some(k)
  {
    var k := i - |RowKeys(s)|;
    assert DraftEntry(relation, s.inserts[k]);
    DraftIndexFinds(s.inserts, k, 0);
  }

  /** The mutation staged under a key, and the page row of the same key. */
  lemma PageRowRefers(e: Edits, m: Mutation, key: string, p: nat)
    requires e.relation.Some? && p < |e.page.rows|
    requires WellFormedIdentity(m.original.identity) && WellFormedIdentity(e.page.rows[p].identity)
    requires IdentityKeys.Key(e.relation.value.identity, e.page.rows[p].identity) == key
    requires StagedUnder(e.relation.value, e.staged, key, m)
    ensures RefAt(e, |e.staged.inserts| + p).Some?
    ensures RefersTo(e.relation.value, e.staged, RefAt(e, |e.staged.inserts| + p).value, m) && RowShown(e, m)
  {
    KeyIdentifiesRow(e.relation.value.identity, e.page.rows[p].identity, m.original.identity);
  }

  lemma RowMutationFacts(relation: Relation, s: Staged, i: nat)
    requires Consistent(relation, s) && WellFormedOriginals(s) && i < |RowKeys(s)|
    ensures i < |Snapshot(s)| && StagedUnder(relation, s, RowKeys(s)[i], Snapshot(s)[i])
    ensures WellFormedIdentity(Snapshot(s)[i].original.identity)
  {
    RowMutationStaged(relation, s, i);
    RowMutationEntry(relation, s, i);
    assert Snapshot(s)[i] == RowMutations(s)[i];
  }

  lemma PageRowFound(e: Edits, m: Mutation, key: string)
    requires e.relation.Some? && StagedUnder(e.relation.value, e.staged, key, m)
    requires WellFormedIdentity(m.original.identity) && WellFormedRows(e.page.rows)
    ensures
      var row := RowOfMutation(e.relation.value, e, m);
      row.Some? ==>
        RefAt(e, row.value).Some? && RefersTo(e.relation.value, e.staged, RefAt(e, row.value).value, m) &&
        RowShown(e, m)
  {
    var at := PageIndex(e.relation.value.identity, e.page.rows, key, 0);
    if at.Some? {
      PageIndexSound(e.relation.value.identity, e.page.rows, key, 0);
      PageRowRefers(e, m, key, at.value);
    }
  }

  lemma RowMutationRefers(e: Edits, i: nat)
    requires EditsSound(e) && e.relation.Some? && i < |RowKeys(e.staged)|
    ensures
      var m := Snapshot(e.staged)[i];
      var row := RowOfMutation(e.relation.value, e, m);
      row.Some? ==>
        RefAt(e, row.value).Some? && RefersTo(e.relation.value, e.staged, RefAt(e, row.value).value, m) &&
        RowShown(e, m)
  {
    RowMutationFacts(e.relation.value, e.staged, i);
    PageRowFound(e, Snapshot(e.staged)[i], RowKeys(e.staged)[i]);
  }

  lemma RowOfMutationRefers(e: Edits, i: nat)
    requires EditsSound(e) && e.relation.Some? && i < |Snapshot(e.staged)|
    ensures
      var m := Snapshot(e.staged)[i];
      var row := RowOfMutation(e.relation.value, e, m);
      row.Some? ==>
        RefAt(e, row.value).Some? && RefersTo(e.relation.value, e.staged, RefAt(e, row.value).value, m) &&
        RowShown(e, m)
  {
    if i < |RowKeys(e.staged)| { RowMutationRefers(e, i); } else { DraftOfSnapshot(e.relation.value, e.staged, i); }
  }

  lemma {:induction false} PageIndexSound(identity: seq<string>, rows: seq<Row>, key: string, i: nat)
    requires i <= |rows| && PageIndex(identity, rows, key, i).Some?
    ensures
      var at := PageIndex(identity, rows, key, i).value;
      at < |rows| && IdentityKeys.Key(identity, rows[at].identity) == key
    decreases |rows| - i
  {
    if IdentityKeys.Key(identity, rows[i].identity) != key { PageIndexSound(identity, rows, key, i + 1); }
  }

  lemma ShownRowIsFound(e: Edits, i: nat)
    requires EditsSound(e) && e.relation.Some? && i < |Snapshot(e.staged)|
    requires
      var m := Snapshot(e.staged)[i];
      m.kind == MutationKind.InsertRow ||
      exists p :: 0 <= p < |e.page.rows| &&
        SameIdentity(e.relation.value.identity, e.page.rows[p].identity, m.original.identity)
    ensures RowOfMutation(e.relation.value, e, Snapshot(e.staged)[i]).Some?
  {
    var relation, s := e.relation.value, e.staged;
    var m := Snapshot(s)[i];
    var r := |RowKeys(s)|;
    if i >= r {
      assert m == s.inserts[i - r] && DraftEntry(relation, m);
      DraftIndexFinds(s.inserts, i - r, 0);
    } else {
      RowMutationFacts(relation, s, i);
      var p :| 0 <= p < |e.page.rows| && SameIdentity(relation.identity, e.page.rows[p].identity, m.original.identity);
      KeyIdentifiesRow(relation.identity, e.page.rows[p].identity, m.original.identity);
      PageIndexFinds(relation.identity, e.page.rows, RowKeys(s)[i], p, 0);
    }
  }

  lemma FailureView(valid: Validator, g: Grid, failure: Failure, meta: Meta)
    requires Matches(g, Applying, meta)
    ensures
      var h := Step(valid, g, OperationFailed(Applying, failure, meta)).0;
      h.edits == g.edits && h.view == FocusFailure(g, failure).view
  {
  }

  lemma FocusView(g: Grid, failure: Failure)
    requires g.edits.relation.Some? && failure.mutation.Some? && 0 <= failure.mutation.value < |g.apply.snapshot|
    ensures
      var row := RowOfMutation(g.edits.relation.value, g.edits, g.apply.snapshot[failure.mutation.value]);
      var view := FocusFailure(g, failure).view;
      view.row == (if row.Some? then row.value else g.view.row) &&
      (row.Some? && row.value < Total(g) ==> view.rowOffset <= view.row < view.rowOffset + VisibleRows(view))
  {
  }

  lemma FocusFindsRow(g: Grid, failure: Failure)
    requires Good(g) && g.edits.relation.Some? && g.apply.snapshot == Snapshot(g.edits.staged)
    requires failure.mutation.Some? && 0 <= failure.mutation.value < |g.apply.snapshot|
    ensures
      var view := FocusFailure(g, failure).view;
      var m := g.apply.snapshot[failure.mutation.value];
      if RowShown(g.edits, m) then
        RefAt(g.edits, view.row).Some? &&
        RefersTo(g.edits.relation.value, g.edits.staged, RefAt(g.edits, view.row).value, m) &&
        view.rowOffset <= view.row < view.rowOffset + VisibleRows(view)
      else view.row == g.view.row
  {
    var i := failure.mutation.value;
    var m := g.apply.snapshot[i];
    var row := RowOfMutation(g.edits.relation.value, g.edits, m);
    FocusView(g, failure);
    RowOfMutationRefers(g.edits, i);
    if RowShown(g.edits, m) { ShownRowIsFound(g.edits, i); }
  }

  /** When an apply fails at a mutation whose row the grid shows (a draft always is shown), the
      selection moves to the row of that very mutation and the row is in view; otherwise the
      selected row stays. Nothing staged is lost. */
  lemma FailureFocusesItsRow(valid: Validator, g: Grid, failure: Failure, meta: Meta)
    requires Good(g) && InFlight(g) && Matches(g, Applying, meta)
    requires failure.mutation.Some? && 0 <= failure.mutation.value < |g.apply.snapshot|
    ensures
      var h := Step(valid, g, OperationFailed(Applying, failure, meta)).0;
      var m := g.apply.snapshot[failure.mutation.value];
      h.edits == g.edits && h.edits.relation.Some? &&
      if RowShown(g.edits, m) then
        RefAt(h.edits, h.view.row).Some? &&
        RefersTo(h.edits.relation.value, h.edits.staged, RefAt(h.edits, h.view.row).value, m) &&
        h.view.rowOffset <= h.view.row < h.view.rowOffset + VisibleRows(h.view)
      else h.view.row == g.view.row
  {
    FailureView(valid, g, failure, meta);
    FocusFindsRow(g, failure);
  }

  // ----- clicks are not gated -----

  /** A click on Insert while an apply is in flight adds a draft that was not sent; when the
      apply succeeds that draft is discarded with the rest. */
  lemma ClickDuringApplyLosesDraft(valid: Validator, g: Grid, result: ApplyResult, meta: Meta)
    requires Good(g) && InFlight(g) && Matches(g, Applying, meta) && g.overlay == NoOverlay && g.edits.editor.None?
    requires g.edits.relation.value.canInsert
    ensures
      var h := Step(valid, g, Click(OnAction(InsertAction))).0;
      var k := Step(valid, h, Applied(result, meta)).0;
      |Snapshot(h.edits.staged)| == |h.apply.snapshot| + 1 && Matches(h, Applying, meta) &&
      Snapshot(k.edits.staged) == []
  {
    var h := Step(valid, g, Click(OnAction(InsertAction))).0;
    InsertClickAdds(valid, g);
    ChangeCountIsSnapshotLength(g.edits.staged);
    ChangeCountIsSnapshotLength(h.edits.staged);
    ChangeCountIsSnapshotLength(ClearStaged(h.edits.staged));
    AppliedKeepsNothing(h, result);
  }

  lemma InsertClickAdds(valid: Validator, g: Grid)
    requires g.edits.relation.Some? && g.edits.relation.value.canInsert && g.edits.editor.None? &&
      g.overlay == NoOverlay
    ensures
      var h := Step(valid, g, Click(OnAction(InsertAction))).0;
      h.io == g.io && h.apply == g.apply && h.edits.staged == StageInsert(g.edits.staged)
  {
  }

  lemma AppliedKeepsNothing(g: Grid, result: ApplyResult)
    ensures OnApplied(g, result).0.edits.staged == ClearStaged(g.edits.staged)
  {
  }

  /** Clicking Apply and confirming while an apply is in flight sends the same changes a second
      time; the first apply is superseded and its result will be ignored. */
  lemma ClicksStartSecondApply(valid: Validator, g: Grid, meta: Meta)
    requires Good(g) && InFlight(g) && Matches(g, Applying, meta) && g.overlay == NoOverlay
    requires Dirty(g.edits.staged) && ChangesValid(g.edits) && g.edits.editor.None?
    ensures
      var h := Step(valid, g, Click(OnAction(ApplyAction))).0;
      var second := Step(valid, h, Click(OnConfirm));
      second.1.ApplyCommand? && second.1.mutations == g.apply.snapshot && Settled(second.0.io, meta)
  {
    ApplyClickAsks(valid, g);
    ConfirmStarts(valid, Step(valid, g, Click(OnAction(ApplyAction))).0);
  }

  lemma ApplyClickAsks(valid: Validator, g: Grid)
    requires g.overlay == NoOverlay && g.edits.editor.None? && g.edits.relation.Some?
    requires Dirty(g.edits.staged) && ChangesValid(g.edits)
    ensures
      var h := Step(valid, g, Click(OnAction(ApplyAction))).0;
      h.edits == g.edits && h.io == g.io && h.overlay == ApplyOverlay
  {
  }

  lemma ConfirmStarts(valid: Validator, h: Grid)
    requires h.overlay == ApplyOverlay && h.edits.editor.None? && h.edits.relation.Some? && Dirty(h.edits.staged)
    ensures
      var second := Step(valid, h, Click(OnConfirm));
      second.1.ApplyCommand? && second.1.mutations == Snapshot(h.edits.staged) &&
      second.0.io == Begin(h.io, Applying).(failedKind := None)
  {
  }

  // ----- refresh, then apply -----

  lemma RefreshApplyStarts(valid: Validator, g: Grid)
    requires Good(g) && !Busy(g) && g.edits.editor.None? && g.overlay == RefreshOverlay
    requires Dirty(g.edits.staged) && ChangesValid(g.edits)
    ensures
      var h := Step(valid, g, KeyPress(Character('a'))).0;
      h == StartApply(g.(apply := g.apply.(reloadFirst := true))).0 && Good(h) && h.apply.reloadFirst && InFlight(h) &&
      h.io == Begin(g.io, Applying).(failedKind := None)
  {
    var before := g.(apply := g.apply.(reloadFirst := true));
    StartApplyGood(before);
    RefreshKeyApplies(valid, g);
    ApplyFollows(before);
  }

  lemma RefreshKeyApplies(valid: Validator, g: Grid)
    requires !Busy(g) && g.edits.editor.None? && g.overlay == RefreshOverlay && ChangesValid(g.edits)
    ensures Step(valid, g, KeyPress(Character('a'))) == StartApply(g.(apply := g.apply.(reloadFirst := true)))
  {
  }

  lemma AppliedReloads(valid: Validator, g: Grid, result: ApplyResult, meta: Meta)
    requires Good(g) && Matches(g, Applying, meta) && g.io.pending.relation != NO_RELATION
    ensures
      var reload := Step(valid, g, Applied(result, meta)).1;
      reload.LoadPageCommand? && reload.request == g.io.pending
  {
  }

  /** After a successful apply the page that was last requested is loaded again. That is so even
      after choosing "apply" on the refresh question: the note to reload page one is set, but
      cleared before it is read, so page one is reloaded if and only if it was the last request. */
  lemma RefreshThenApplyReloads(valid: Validator, g: Grid, messages: seq<Message>, result: ApplyResult)
    requires Good(g) && !Busy(g) && g.edits.editor.None? && g.overlay == RefreshOverlay
    requires Dirty(g.edits.staged) && ChangesValid(g.edits) && g.io.pending.relation != NO_RELATION
    requires AllSound(g.edits.relationId, messages)
    requires Undisturbed(valid, Step(valid, g, KeyPress(Character('a'))).0, messages)
    ensures
      var h := Step(valid, g, KeyPress(Character('a'))).0;
      var meta := Meta(g.io.workspace, g.io.tab, Applying, g.io.next);
      var reload := Step(valid, After(valid, h, messages), Applied(result, meta)).1;
      h.apply.reloadFirst && reload.LoadPageCommand? && reload.request == g.io.pending &&
      (reload.request.direction == First <==> g.io.pending.direction == First)
  {
    RefreshApplyStarts(valid, g);
    var h := Step(valid, g, KeyPress(Character('a'))).0;
    ApplyRunsUndisturbed(valid, h, messages);
    AppliedReloads(valid, After(valid, h, messages), result, ActiveMeta(h.io));
  }
}
