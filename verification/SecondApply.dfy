/** Applying a snapshot a second time, after the answer to the first commit was lost. */
module SecondApply {
  import opened Relations
  import opened GridData
  import opened IdentityKeys
  import opened Staging
  import opened Statements
  import opened Transactions
  import opened ApplyBatch
  import opened Overlay

  /** The table after the snapshot was applied. */
  ghost function Once(schema: Schema, relation: Relation, s: Staged, rows: seq<DbRow>, tx: nat): seq<DbRow> {
    StagedRows(schema, relation, s, rows, tx) + DraftRows(schema, s.inserts, tx, |s.inserts|)
  }

  // ----- updates and tombstones -----

  lemma {:induction false} StagedRowsOrigin(
    schema: Schema, relation: Relation, s: Staged, rows: seq<DbRow>, tx: nat, row: DbRow) returns (from: DbRow)
    requires row in StagedRows(schema, relation, s, rows, tx)
    ensures from in rows && StagedRow(schema, relation, s, from, tx) == Some(row)
  {
    var last := rows[|rows| - 1];
    if StagedRow(schema, relation, s, last, tx) == Some(row) {
      from := last;
    } else {
      from := StagedRowsOrigin(schema, relation, s, rows[..|rows| - 1], tx, row);
    }
  }

  lemma {:induction false} DraftRowsWritten(schema: Schema, inserts: seq<Mutation>, tx: nat, n: nat, row: DbRow)
    requires n <= |inserts| && row in DraftRows(schema, inserts, tx, n)
    ensures row.xmin == tx
  {
    if row != DraftRow(schema, inserts[n - 1], tx) { DraftRowsWritten(schema, inserts, tx, n - 1, row); }
  }

  lemma StagedRowChanges(schema: Schema, relation: Relation, s: Staged, from: DbRow, row: DbRow, tx: nat)
    requires StagedRow(schema, relation, s, from, tx) == Some(row)
    ensures
      var key := KeyOfRow(relation, from);
      row.xmin == tx ||
      (row == from && key !in s.deletes && (key in s.updates ==> !AllCast(schema, s.updates[key].values)))
  {
  }

  /** A row that a staged change was about is not the row it was. */
  lemma NoTargetLeft(
    schema: Schema, relation: Relation, s: Staged, rows: seq<DbRow>, tx: nat, i: nat, row: DbRow)
    requires Runs(schema, relation, s, rows, tx) && i < |RowKeys(s)| <= |Snapshot(s)|
    requires row in Once(schema, relation, s, rows, tx)
    ensures !Targets(relation, Snapshot(s)[i], row)
  {
    SnapshotEntry(relation, s, tx, i);
    if row in StagedRows(schema, relation, s, rows, tx) {
      var from := StagedRowsOrigin(schema, relation, s, rows, tx, row);
      StagedRowChanges(schema, relation, s, from, row, tx);
      if row.xmin != tx { KeptRowIsNoTarget(schema, relation, s, rows, tx, i, row); }
    } else {
      DraftRowsWritten(schema, s.inserts, tx, |s.inserts|, row);
    }
  }

  lemma KeptRowIsNoTarget(
    schema: Schema, relation: Relation, s: Staged, rows: seq<DbRow>, tx: nat, i: nat, row: DbRow)
    requires Runs(schema, relation, s, rows, tx) && i < |RowKeys(s)| <= |Snapshot(s)| && row in rows
    requires
      var key := KeyOfRow(relation, row);
      key !in s.deletes && (key in s.updates ==> !AllCast(schema, s.updates[key].values))
    ensures !Targets(relation, Snapshot(s)[i], row)
  {
    var key := KeyOfRow(relation, row);
    EntryTargetsKey(schema, relation, s, rows, tx, i, row);
    RowMutationAt(s, i);
    if key in s.updates { UpdateIsCast(schema, relation, s, rows, tx, key); }
  }

  lemma HasRowKey(s: Staged)
    requires s.updates != map[] || s.deletes != map[]
    ensures RowKeys(s) != []
  {
    KeyListsFacts(s);
    if s.deletes != map[] {
      var key :| key in s.deletes;
      assert key in DeleteKeys(s);
    } else {
      var key :| key in s.updates;
      assert key in UpdateKeys(s);
    }
  }

  /** The commit whose answer was lost left the table as staged. */
  lemma FirstApplyKept(schema: Schema, relation: Relation, s: Staged, rows: seq<DbRow>, tx: nat)
    requires Consistent(relation, s) && WellFormedOriginals(s) && LoadedBefore(s, tx)
    requires WellFormedTable(relation, rows, tx)
    requires ApplyTo(schema, relation, rows, tx, Snapshot(s), true, Lost(true)).0 == Uncertain
    ensures Runs(schema, relation, s, rows, tx)
    ensures ApplyTo(schema, relation, rows, tx, Snapshot(s), true, Lost(true)).1 == Once(schema, relation, s, rows, tx)
  {
    ApplyLeavesStagedRows(schema, relation, s, rows, tx);
  }

  lemma FirstMutationIsStale(schema: Schema, relation: Relation, s: Staged, rows: seq<DbRow>, tx: nat)
    requires Runs(schema, relation, s, rows, tx) && (s.updates != map[] || s.deletes != map[])
    ensures 0 < |RowKeys(s)| <= |Snapshot(s)|
    ensures
      var m := Snapshot(s)[0];
      (m.kind == UpdateRow || m.kind == DeleteRow) && m.original.xmin < tx &&
      forall r :: r in Once(schema, relation, s, rows, tx) ==> !Targets(relation, m, r)
  {
    HasRowKey(s);
    SnapshotShape(s);
    SnapshotEntry(relation, s, tx, 0);
    forall r | r in Once(schema, relation, s, rows, tx) ensures !Targets(relation, Snapshot(s)[0], r) {
      NoTargetLeft(schema, relation, s, rows, tx, 0, r);
    }
  }

  /** When the answer to a commit that was kept is lost, the changes stay staged. Applying them
      again, in any later transaction, fails and changes nothing if they include an update or a
      tombstone, whatever else they include. */
  lemma SecondApplyFails(
    schema: Schema, relation: Relation, s: Staged, rows: seq<DbRow>, tx: nat, later: nat, begins: bool,
    commit: Commit)
    requires Consistent(relation, s) && WellFormedOriginals(s) && LoadedBefore(s, tx)
    requires WellFormedTable(relation, rows, tx)
    requires ApplyTo(schema, relation, rows, tx, Snapshot(s), true, Lost(true)).0 == Uncertain && tx < later
    requires s.updates != map[] || s.deletes != map[]
    ensures
      var once := ApplyTo(schema, relation, rows, tx, Snapshot(s), true, Lost(true)).1;
      var (outcome, after) := ApplyTo(schema, relation, once, later, Snapshot(s), begins, commit);
      once == Once(schema, relation, s, rows, tx) &&
      !outcome.Applied? && !outcome.Uncertain? && after == once
  {
    FirstApplyKept(schema, relation, s, rows, tx);
    FirstMutationIsStale(schema, relation, s, rows, tx);
    StaleRowFailsBatch(schema, relation, Once(schema, relation, s, rows, tx), later, Snapshot(s), begins, commit, 0);
  }

  // ----- drafts alone -----

  /** A step that appends one row wherever the table admits it. */
  ghost predicate Inserts(step: Step, schema: Schema, tx: nat, m: Mutation) {
    forall rows :: step(rows, m) ==
      if schema.accepts(rows + [DraftRow(schema, m, tx)]) then Success(rows + [DraftRow(schema, m, tx)])
      else Result.Failure(RejectedByServer)
  }

  lemma StepInserts(schema: Schema, relation: Relation, tx: nat, m: Mutation)
    requires m.kind == MutationKind.InsertRow && AllCast(schema, m.values) && StatementFor(relation, m).Success?
    ensures Inserts(StepOf(schema, relation, tx), schema, tx, m)
  {
    forall rows
      ensures RunMutation(schema, relation, rows, tx, m) ==
              if schema.accepts(rows + [DraftRow(schema, m, tx)]) then Success(rows + [DraftRow(schema, m, tx)])
              else Result.Failure(RejectedByServer)
    {
      StatementDoesWhatIsStaged(schema, relation, rows, tx, m);
    }
  }

  /** The table admits each of the first `n` drafts after the ones before it. */
  ghost predicate Admits(schema: Schema, rows: seq<DbRow>, inserts: seq<Mutation>, tx: nat, n: nat)
    requires n <= |inserts|
  {
    n == 0 ||
    (Admits(schema, rows, inserts, tx, n - 1) && schema.accepts(rows + DraftRows(schema, inserts, tx, n)))
  }

  lemma {:induction false} InsertsAppend(
    step: Step, schema: Schema, rows: seq<DbRow>, tx: nat, inserts: seq<Mutation>, n: nat)
    requires n <= |inserts| && forall i :: 0 <= i < n ==> Inserts(step, schema, tx, inserts[i])
    ensures RunBatch(step, rows, inserts, n).Success? <==> Admits(schema, rows, inserts, tx, n)
    ensures RunBatch(step, rows, inserts, n).Success? ==>
              RunBatch(step, rows, inserts, n).value == rows + DraftRows(schema, inserts, tx, n)
  {
    if n > 0 {
      InsertsAppend(step, schema, rows, tx, inserts, n - 1);
      var before := DraftRows(schema, inserts, tx, n - 1);
      var last := DraftRow(schema, inserts[n - 1], tx);
      assert Inserts(step, schema, tx, inserts[n - 1]);
      assert (rows + before) + [last] == rows + (before + [last]);
    }
  }

  lemma DraftsAlone(s: Staged)
    requires s.updates == map[] && s.deletes == map[]
    ensures Snapshot(s) == s.inserts
  {
    KeyListsFacts(s);
    assert DeleteKeys(s) == [] && UpdateKeys(s) == [];
  }

  ghost predicate Renders(step: Step, relation: Relation, m: Mutation) {
    forall rows :: step(rows, m).Success? ==> StatementFor(relation, m).Success?
  }

  lemma StepRenders(schema: Schema, relation: Relation, tx: nat, m: Mutation)
    ensures Renders(StepOf(schema, relation, tx), relation, m)
  {
    forall rows | RunMutation(schema, relation, rows, tx, m).Success? ensures StatementFor(relation, m).Success? {
    }
  }

  /** Each statement of a batch that ran to its end could be rendered. */
  lemma BatchRenders(step: Step, relation: Relation, rows: seq<DbRow>, mutations: seq<Mutation>, i: nat)
    requires i < |mutations| && RunBatch(step, rows, mutations, |mutations|).Success?
    requires Renders(step, relation, mutations[i])
    ensures StatementFor(relation, mutations[i]).Success?
  {
    PrefixSucceeds(step, rows, mutations, i + 1, |mutations|);
    LastStep(step, rows, mutations, i + 1);
  }

  lemma DraftIsRepeated(
    schema: Schema, relation: Relation, s: Staged, rows: seq<DbRow>, tx: nat, later: nat, i: nat)
    requires Runs(schema, relation, s, rows, tx) && Snapshot(s) == s.inserts && i < |s.inserts|
    ensures Inserts(StepOf(schema, relation, later), schema, later, s.inserts[i])
  {
    assert DraftEntry(relation, s.inserts[i]);
    DraftIsCast(schema, relation, s, rows, tx, i);
    StepRenders(schema, relation, tx, s.inserts[i]);
    BatchRenders(StepOf(schema, relation, tx), relation, rows, s.inserts, i);
    StepInserts(schema, relation, later, s.inserts[i]);
  }

  /** With drafts alone they are inserted a second time, beside the first, if and only if the
      table admits them. */
  lemma SecondApplyRepeatsDrafts(schema: Schema, relation: Relation, s: Staged, rows: seq<DbRow>, tx: nat, later: nat)
    requires Consistent(relation, s) && WellFormedOriginals(s) && LoadedBefore(s, tx)
    requires WellFormedTable(relation, rows, tx)
    requires ApplyTo(schema, relation, rows, tx, Snapshot(s), true, Lost(true)).0 == Uncertain
    requires s.updates == map[] && s.deletes == map[]
    ensures
      var once := ApplyTo(schema, relation, rows, tx, Snapshot(s), true, Lost(true)).1;
      var (outcome, after) := ApplyTo(schema, relation, once, later, Snapshot(s), true, Committed);
      once == Once(schema, relation, s, rows, tx) &&
      (outcome.Applied? <==> Admits(schema, once, s.inserts, later, |s.inserts|)) &&
      after == if outcome.Applied? then once + DraftRows(schema, s.inserts, later, |s.inserts|) else once
  {
    var once := Once(schema, relation, s, rows, tx);
    FirstApplyKept(schema, relation, s, rows, tx);
    DraftsAlone(s);
    forall i | 0 <= i < |s.inserts| ensures Inserts(StepOf(schema, relation, later), schema, later, s.inserts[i]) {
      DraftIsRepeated(schema, relation, s, rows, tx, later, i);
    }
    InsertsAppend(StepOf(schema, relation, later), schema, once, later, s.inserts, |s.inserts|);
  }
}
