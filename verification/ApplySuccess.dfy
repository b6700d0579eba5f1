/** When applying what is staged succeeds: exactly when the rows are still there, the texts can
    be read as values, and the constraints hold. */
module ApplySuccess {
  import opened Relations
  import opened GridData
  import opened IdentityKeys
  import opened StringOrder
  import opened Staging
  import opened Statements
  import opened Transactions
  import opened ApplyBatch
  import opened Overlay
  import opened SecondApply

  /** Loaded rows carry every identity column. */
  ghost predicate CompleteOriginals(relation: Relation, s: Staged) {
    (forall k :: k in s.updates ==> Complete(relation, s.updates[k])) &&
    forall k :: k in s.deletes ==> Complete(relation, s.deletes[k])
  }

  predicate Complete(relation: Relation, m: Mutation) {
    forall c :: c in relation.identity ==> c in m.original.identity
  }

  // ----- what the grid lets be staged can be written -----

  lemma {:induction false} KnownNamesSeen(columns: seq<Column>, values: map<string, StagedValue>, n: nat)
    requires n <= |columns|
    ensures forall i :: 0 <= i < n && columns[i].name in values ==> columns[i].name in SeenNames(columns, values, n)
  {
    if n > 0 { KnownNamesSeen(columns, values, n - 1); }
  }

  lemma NothingUnknown(relation: Relation, insert: bool, values: map<string, StagedValue>)
    requires forall c :: c in values ==> WritableName(relation, insert, c)
    ensures Unseen(relation, values) == {}
  {
    KnownNamesSeen(relation.columns, values, |relation.columns|);
    forall c | c in values ensures c in SeenNames(relation.columns, values, |relation.columns|) {
      assert WritableName(relation, insert, c);
    }
  }

  lemma {:induction false} NoneUnwritable(columns: seq<Column>, insert: bool, k: nat)
    requires k <= |columns| && forall c :: c in columns ==> Writable(c, insert)
    ensures FirstUnwritable(columns, insert, k).None?
    decreases |columns| - k
  {
    if k < |columns| {
      assert columns[k] in columns;
      NoneUnwritable(columns, insert, k + 1);
    }
  }

  /** A column of the relation whose name is writable may be written. */
  lemma NameWritesColumn(relation: Relation, insert: bool, c: Column)
    requires DistinctNames(relation.columns) && c in relation.columns && WritableName(relation, insert, c.name)
    ensures Writable(c, insert)
  {
    var k :| 0 <= k < |relation.columns| && relation.columns[k] == c;
    FindsOwnColumn(relation.columns, k);
  }

  lemma EveryColumnWritable(relation: Relation, insert: bool, values: map<string, StagedValue>)
    requires DistinctNames(relation.columns) && forall c :: c in values ==> WritableName(relation, insert, c)
    ensures FirstUnwritable(OrderedColumns(relation, values), insert, 0).None?
  {
    var columns := OrderedColumns(relation, values);
    NothingUnknown(relation, insert, values);
    SortedStringsFacts(Unseen(relation, values));
    var known := KnownColumns(relation.columns, values, |relation.columns|);
    assert SortedStrings({}) == [];
    assert columns == known;
    SeenNamesAreKnown(relation.columns, values, |relation.columns|);
    forall c | c in columns ensures Writable(c, insert) {
      assert c.name in ColumnNames(known);
      NameWritesColumn(relation, insert, c);
    }
    NoneUnwritable(columns, insert, 0);
  }

  lemma IdentityIsComplete(relation: Relation, m: Mutation)
    requires Complete(relation, m)
    ensures !IdentityIncomplete(relation.identity, m.original.identity)
  {
    forall i | 0 <= i < |relation.identity| ensures relation.identity[i] in m.original.identity {
      assert relation.identity[i] in relation.identity;
    }
  }

  lemma SomeColumn(relation: Relation, values: map<string, StagedValue>)
    requires values != map[]
    ensures OrderedColumns(relation, values) != []
  {
    OrderedColumnsAreTheValues(relation, values);
    var c :| c in values;
    assert c in ColumnNames(OrderedColumns(relation, values));
  }

  lemma UpdateIsRendered(relation: Relation, key: string, m: Mutation)
    requires DistinctNames(relation.columns) && UpdateEntry(relation, key, m) && Complete(relation, m)
    ensures StatementFor(relation, m).Success?
  {
    EveryColumnWritable(relation, false, m.values);
    IdentityIsComplete(relation, m);
    SomeColumn(relation, m.values);
    var c :| c in m.values;
    assert WritableName(relation, false, c);
  }

  lemma DeleteIsRendered(relation: Relation, key: string, m: Mutation)
    requires DeleteEntry(relation, key, m) && Complete(relation, m)
    ensures StatementFor(relation, m).Success?
  {
    IdentityIsComplete(relation, m);
  }

  lemma DraftIsRendered(relation: Relation, m: Mutation)
    requires DistinctNames(relation.columns) && DraftEntry(relation, m)
    ensures StatementFor(relation, m).Success?
  {
    EveryColumnWritable(relation, true, m.values);
  }

  // ----- one update or delete -----

  /** The rows of a table have different identities, none of them twice. */
  ghost predicate KeyedTable(relation: Relation, rows: seq<DbRow>, tx: nat) {
    (forall i, j :: 0 <= i < j < |rows| ==> !SameKeyed(relation, rows[i], rows[j])) &&
    forall r :: r in rows ==> r.xmin < tx && WellFormedIdentity(FetchedIdentity(relation, r))
  }

  /** The row of a mutation is in the table. */
  ghost predicate Present(relation: Relation, rows: seq<DbRow>, m: Mutation) {
    exists r :: r in rows && Targets(relation, m, r)
  }

  lemma TargetsShareKey(relation: Relation, m: Mutation, r: DbRow, t: DbRow)
    requires Targets(relation, m, r) && Targets(relation, m, t)
    ensures SameKeyed(relation, r, t)
  {
  }

  /** At most one row is a target, and one is if and only if it is in the table. */
  lemma {:induction false} TargetsCounted(relation: Relation, rows: seq<DbRow>, tx: nat, m: Mutation)
    requires KeyedTable(relation, rows, tx)
    ensures Count(rows, TargetsOf(relation, m)) == if Present(relation, rows, m) then 1 else 0
  {
    if rows != [] {
      var front, last := rows[..|rows| - 1], rows[|rows| - 1];
      assert last in rows && forall r :: r in front ==> r in rows;
      assert forall r :: r in rows ==> r in front || r == last;
      TargetsCounted(relation, front, tx, m);
      if Targets(relation, m, last) {
        forall i | 0 <= i < |front| ensures !Targets(relation, m, front[i]) {
          assert !SameKeyed(relation, rows[i], last);
          if Targets(relation, m, front[i]) { TargetsShareKey(relation, m, front[i], last); }
        }
      }
    }
  }

  /** What has happened to a row left it alone as far as the mutation is concerned. */
  ghost predicate SameTarget(
    schema: Schema, relation: Relation, row: DbRow, tx: nat, mutations: seq<Mutation>, n: nat, m: Mutation)
    requires n <= |mutations|
  {
    var after := RowAfter(schema, relation, row, tx, mutations, n);
    (after.Some? && Targets(relation, m, after.value)) <==> Targets(relation, m, row)
  }

  lemma {:induction false} CountRowwise(
    schema: Schema, relation: Relation, rows: seq<DbRow>, tx: nat, mutations: seq<Mutation>, n: nat, m: Mutation)
    requires n <= |mutations|
    requires forall r :: r in rows ==> SameTarget(schema, relation, r, tx, mutations, n, m)
    ensures Count(RowsAfter(schema, relation, rows, tx, mutations, n), TargetsOf(relation, m)) ==
      Count(rows, TargetsOf(relation, m))
  {
    if rows != [] {
      var front, last := rows[..|rows| - 1], rows[|rows| - 1];
      assert last in rows && forall r :: r in front ==> r in rows;
      CountRowwise(schema, relation, front, tx, mutations, n, m);
      var done := RowsAfter(schema, relation, front, tx, mutations, n);
      var after := RowAfter(schema, relation, last, tx, mutations, n);
      assert SameTarget(schema, relation, last, tx, mutations, n, m);
      if after.Some? {
        CountAppend(done, after.value, TargetsOf(relation, m));
      } else {
        assert RowsAfter(schema, relation, rows, tx, mutations, n) == done;
      }
    }
  }

  lemma CountAppend(rows: seq<DbRow>, row: DbRow, p: DbRow -> bool)
    ensures Count(rows + [row], p) == Count(rows, p) + if p(row) then 1 else 0
  {
  }

  /** A row after some mutations is the row, or was written by this transaction. */
  lemma {:induction false} RowAfterIs(
    schema: Schema, relation: Relation, row: DbRow, tx: nat, mutations: seq<Mutation>, n: nat)
    requires n <= |mutations|
    ensures
      var after := RowAfter(schema, relation, row, tx, mutations, n);
      after.Some? ==> after.value == row || after.value.xmin == tx
  {
    if n > 0 { RowAfterIs(schema, relation, row, tx, mutations, n - 1); }
  }

  lemma EarlierLeaveTarget(
    schema: Schema, relation: Relation, s: Staged, row: DbRow, tx: nat, i: nat)
    requires Consistent(relation, s) && WellFormedOriginals(s) && LoadedBefore(s, tx) &&
      i < |RowKeys(s)| <= |Snapshot(s)|
    requires WellFormedIdentity(FetchedIdentity(relation, row))
    ensures SameTarget(schema, relation, row, tx, Snapshot(s), i, Snapshot(s)[i])
  {
    SnapshotEntry(relation, s, tx, i);
    RowAfterIs(schema, relation, row, tx, Snapshot(s), i);
    if Targets(relation, Snapshot(s)[i], row) {
      TargetHasKey(relation, Snapshot(s)[i], RowKeys(s)[i], row);
      forall j | 0 <= j < i ensures !Targets(relation, Snapshot(s)[j], row) {
        SnapshotEntry(relation, s, tx, j);
        RowKeysDistinct(s);
        if Targets(relation, Snapshot(s)[j], row) { TargetHasKey(relation, Snapshot(s)[j], RowKeys(s)[j], row); }
      }
      UntouchedRow(schema, relation, row, tx, Snapshot(s), i);
    }
  }

  lemma RowIsCounted(schema: Schema, relation: Relation, s: Staged, rows: seq<DbRow>, tx: nat, i: nat)
    requires Consistent(relation, s) && WellFormedOriginals(s) && LoadedBefore(s, tx) && KeyedTable(relation, rows, tx)
    requires i < |RowKeys(s)| <= |Snapshot(s)|
    ensures
      var before := RowsAfter(schema, relation, rows, tx, Snapshot(s), i);
      Count(before, TargetsOf(relation, Snapshot(s)[i])) == if Present(relation, rows, Snapshot(s)[i]) then 1 else 0
  {
    forall r | r in rows ensures SameTarget(schema, relation, r, tx, Snapshot(s), i, Snapshot(s)[i]) {
      EarlierLeaveTarget(schema, relation, s, r, tx, i);
    }
    CountRowwise(schema, relation, rows, tx, Snapshot(s), i, Snapshot(s)[i]);
    TargetsCounted(relation, rows, tx, Snapshot(s)[i]);
  }

  /** A rendered update or delete: what it needs to succeed, and the first thing it lacks. */
  ghost predicate RunsWhen(step: Step, schema: Schema, relation: Relation, tx: nat, m: Mutation) {
    forall rows ::
      step(rows, m) ==
      if (m.kind == UpdateRow && !AllCast(schema, m.values)) || !schema.accepts(Carried(schema, relation, rows, tx, m))
      then Result.Failure(RejectedByServer)
      else if Count(rows, TargetsOf(relation, m)) == 0 then Result.Failure(RowConflict)
      else if Count(rows, TargetsOf(relation, m)) != 1 then Result.Failure(MatchedManyRows)
      else Success(Carried(schema, relation, rows, tx, m))
  }

  lemma StepRunsWhen(schema: Schema, relation: Relation, tx: nat, m: Mutation)
    requires (m.kind == UpdateRow || m.kind == DeleteRow) && StatementFor(relation, m).Success?
    ensures RunsWhen(StepOf(schema, relation, tx), schema, relation, tx, m)
  {
    forall rows
      ensures StepOf(schema, relation, tx)(rows, m) ==
        if (m.kind == UpdateRow && !AllCast(schema, m.values)) ||
          !schema.accepts(Carried(schema, relation, rows, tx, m))
        then Result.Failure(RejectedByServer)
        else if Count(rows, TargetsOf(relation, m)) == 0 then Result.Failure(RowConflict)
        else if Count(rows, TargetsOf(relation, m)) != 1 then Result.Failure(MatchedManyRows)
        else Success(Carried(schema, relation, rows, tx, m))
    {
      StatementDoesWhatIsStaged(schema, relation, rows, tx, m);
      SameSelection(rows, row => Targets(relation, m, row), TargetsOf(relation, m), ChangeOf(schema, m), tx);
    }
  }

  // ----- a batch of row changes, then drafts -----

  predicate CastIfUpdate(schema: Schema, m: Mutation) { m.kind == UpdateRow ==> AllCast(schema, m.values) }

  /** The table after the first `n` mutations: `k` updates and deletes row by row, then drafts. */
  function TableAfter(
    schema: Schema, relation: Relation, rows: seq<DbRow>, tx: nat, mutations: seq<Mutation>, k: nat, n: nat): seq<DbRow>
    requires k <= |mutations| && n <= |mutations|
  {
    if n <= k then RowsAfter(schema, relation, rows, tx, mutations, n)
    else RowsAfter(schema, relation, rows, tx, mutations, k) + DraftRows(schema, mutations[k..], tx, n - k)
  }

  /** Its row is there, its texts cast, and the table after it is accepted. */
  ghost predicate StepGood(
    schema: Schema, relation: Relation, rows: seq<DbRow>, tx: nat, mutations: seq<Mutation>, k: nat, i: int)
  {
    k <= |mutations| && 0 <= i < |mutations| &&
    schema.accepts(TableAfter(schema, relation, rows, tx, mutations, k, i + 1)) &&
    if i < k then Present(relation, rows, mutations[i]) && CastIfUpdate(schema, mutations[i])
    else AllCast(schema, mutations[i].values)
  }

  lemma RunsFromFacts(
    step: Step, schema: Schema, relation: Relation, tx: nat, m: Mutation, before: seq<DbRow>, after: seq<DbRow>,
    present: bool)
    requires RunsWhen(step, schema, relation, tx, m) && after == Carried(schema, relation, before, tx, m)
    requires Count(before, TargetsOf(relation, m)) == if present then 1 else 0
    ensures step(before, m).Success? <==>
      present && (m.kind == UpdateRow ==> AllCast(schema, m.values)) && schema.accepts(after)
    ensures step(before, m).Success? ==> step(before, m).value == after
    ensures !present && (m.kind == UpdateRow ==> AllCast(schema, m.values)) && schema.accepts(after) ==>
      step(before, m) == Result.Failure(RowConflict)
  {
  }

  /** A mutation turns one table into the next, if the condition holds, and fails otherwise. */
  ghost predicate Leads(step: Step, m: Mutation, before: seq<DbRow>, good: bool, after: seq<DbRow>) {
    (step(before, m).Success? <==> good) && (good ==> step(before, m).value == after)
  }

  ghost predicate LeadsAt(
    step: Step, schema: Schema, relation: Relation, rows: seq<DbRow>, tx: nat, mutations: seq<Mutation>, k: nat, i: int)
  {
    k <= |mutations| && 0 <= i < |mutations| &&
    Leads(step, mutations[i], TableAfter(schema, relation, rows, tx, mutations, k, i),
          StepGood(schema, relation, rows, tx, mutations, k, i),
          TableAfter(schema, relation, rows, tx, mutations, k, i + 1))
  }

  lemma RowLeads(
    step: Step, schema: Schema, relation: Relation, rows: seq<DbRow>, tx: nat, mutations: seq<Mutation>, k: nat, i: nat)
    requires i < k <= |mutations| && RunsWhen(step, schema, relation, tx, mutations[i])
    requires mutations[i].kind == UpdateRow || mutations[i].kind == DeleteRow
    requires Count(RowsAfter(schema, relation, rows, tx, mutations, i), TargetsOf(relation, mutations[i])) ==
      if Present(relation, rows, mutations[i]) then 1 else 0
    ensures LeadsAt(step, schema, relation, rows, tx, mutations, k, i)
  {
    RewriteIsRowwise(schema, relation, rows, tx, mutations, i + 1);
    RunsFromFacts(step, schema, relation, tx, mutations[i], RowsAfter(schema, relation, rows, tx, mutations, i),
                  RowsAfter(schema, relation, rows, tx, mutations, i + 1), Present(relation, rows, mutations[i]));
  }

  ghost predicate InsertsWhen(step: Step, schema: Schema, tx: nat, m: Mutation) {
    forall rows ::
      step(rows, m) ==
      if !AllCast(schema, m.values) || !schema.accepts(rows + [DraftRow(schema, m, tx)])
      then Result.Failure(RejectedByServer) else Success(rows + [DraftRow(schema, m, tx)])
  }

  lemma StepInsertsWhen(schema: Schema, relation: Relation, tx: nat, m: Mutation)
    requires m.kind == MutationKind.InsertRow && StatementFor(relation, m).Success?
    ensures InsertsWhen(StepOf(schema, relation, tx), schema, tx, m)
  {
    forall rows
      ensures StepOf(schema, relation, tx)(rows, m) ==
        if !AllCast(schema, m.values) || !schema.accepts(rows + [DraftRow(schema, m, tx)])
        then Result.Failure(RejectedByServer) else Success(rows + [DraftRow(schema, m, tx)])
    {
      StatementDoesWhatIsStaged(schema, relation, rows, tx, m);
    }
  }

  lemma DraftLeads(
    step: Step, schema: Schema, relation: Relation, rows: seq<DbRow>, tx: nat, mutations: seq<Mutation>, k: nat, i: nat)
    requires k <= i < |mutations| && InsertsWhen(step, schema, tx, mutations[i])
    ensures LeadsAt(step, schema, relation, rows, tx, mutations, k, i)
  {
    var kept := RowsAfter(schema, relation, rows, tx, mutations, k);
    var drafts := DraftRows(schema, mutations[k..], tx, i - k);
    assert mutations[k..][i - k] == mutations[i];
    assert (kept + drafts) + [DraftRow(schema, mutations[i], tx)] ==
      kept + (drafts + [DraftRow(schema, mutations[i], tx)]);
    if i == k { assert kept + drafts == kept; }
  }

  /** A batch that leads from table to table. */
  lemma {:induction false} ChainSucceeds(
    step: Step, rows: seq<DbRow>, mutations: seq<Mutation>, tables: seq<seq<DbRow>>, good: seq<bool>, n: nat)
    requires n <= |mutations| == |good| && |tables| == |mutations| + 1 && tables[0] == rows
    requires forall i :: 0 <= i < |mutations| ==> Leads(step, mutations[i], tables[i], good[i], tables[i + 1])
    ensures RunBatch(step, rows, mutations, n).Success? <==> forall i :: 0 <= i < n ==> good[i]
    ensures RunBatch(step, rows, mutations, n).Success? ==> RunBatch(step, rows, mutations, n).value == tables[n]
  {
    if n > 0 {
      ChainSucceeds(step, rows, mutations, tables, good, n - 1);
      assert Leads(step, mutations[n - 1], tables[n - 1], good[n - 1], tables[n]);
    }
  }

  lemma BatchSucceeds(
    step: Step, schema: Schema, relation: Relation, rows: seq<DbRow>, tx: nat, mutations: seq<Mutation>, k: nat, n: nat)
    requires k <= |mutations| && n <= |mutations|
    requires forall i :: 0 <= i < |mutations| ==> LeadsAt(step, schema, relation, rows, tx, mutations, k, i)
    ensures RunBatch(step, rows, mutations, n).Success? <==>
      forall i :: 0 <= i < n ==> StepGood(schema, relation, rows, tx, mutations, k, i)
    ensures RunBatch(step, rows, mutations, n).Success? ==>
      RunBatch(step, rows, mutations, n).value == TableAfter(schema, relation, rows, tx, mutations, k, n)
  {
    var m := |mutations|;
    var tables := seq(m + 1, i requires 0 <= i < m + 1 => TableAfter(schema, relation, rows, tx, mutations, k, i));
    var good := seq(m, i requires 0 <= i < m => StepGood(schema, relation, rows, tx, mutations, k, i));
    NothingAfter(schema, relation, rows, tx, mutations);
    forall i | 0 <= i < m ensures Leads(step, mutations[i], tables[i], good[i], tables[i + 1]) {
      assert LeadsAt(step, schema, relation, rows, tx, mutations, k, i);
    }
    ChainSucceeds(step, rows, mutations, tables, good, n);
    assert forall i :: 0 <= i < n ==> good[i] == StepGood(schema, relation, rows, tx, mutations, k, i);
  }

  /** The constraints hold after each mutation. */
  ghost predicate AllAccepted(
    schema: Schema, relation: Relation, rows: seq<DbRow>, tx: nat, mutations: seq<Mutation>, k: nat)
    requires k <= |mutations|
  {
    forall n :: 0 < n <= |mutations| ==> schema.accepts(TableAfter(schema, relation, rows, tx, mutations, k, n))
  }

  ghost predicate AllPresent(relation: Relation, rows: seq<DbRow>, mutations: seq<Mutation>, k: nat)
    requires k <= |mutations|
  {
    forall i :: 0 <= i < k ==> Present(relation, rows, mutations[i])
  }

  ghost predicate AllTextsCast(schema: Schema, mutations: seq<Mutation>, k: nat)
    requires k <= |mutations|
  {
    (forall i :: 0 <= i < k ==> CastIfUpdate(schema, mutations[i])) &&
    forall i :: k <= i < |mutations| ==> AllCast(schema, mutations[i].values)
  }

  lemma StepsGood(
    schema: Schema, relation: Relation, rows: seq<DbRow>, tx: nat, mutations: seq<Mutation>, k: nat)
    requires k <= |mutations|
    ensures (forall i :: 0 <= i < |mutations| ==> StepGood(schema, relation, rows, tx, mutations, k, i)) <==>
      AllPresent(relation, rows, mutations, k) && AllTextsCast(schema, mutations, k) &&
      AllAccepted(schema, relation, rows, tx, mutations, k)
  {
    if forall i :: 0 <= i < |mutations| ==> StepGood(schema, relation, rows, tx, mutations, k, i) {
      forall n | 0 < n <= |mutations|
        ensures schema.accepts(TableAfter(schema, relation, rows, tx, mutations, k, n))
      {
        assert StepGood(schema, relation, rows, tx, mutations, k, n - 1);
      }
      forall i | 0 <= i < k ensures Present(relation, rows, mutations[i]) && CastIfUpdate(schema, mutations[i]) {
        assert StepGood(schema, relation, rows, tx, mutations, k, i);
      }
      forall i | k <= i < |mutations| ensures AllCast(schema, mutations[i].values) {
        assert StepGood(schema, relation, rows, tx, mutations, k, i);
      }
    }
  }

  // ----- the batch of a snapshot -----

  /** Everything the theorems assume of what is staged and of the table. */
  ghost predicate Ready(relation: Relation, s: Staged, rows: seq<DbRow>, tx: nat) {
    Consistent(relation, s) && WellFormedOriginals(s) && LoadedBefore(s, tx) && CompleteOriginals(relation, s) &&
    DistinctNames(relation.columns) && KeyedTable(relation, rows, tx)
  }

  lemma RowMutationIsRendered(relation: Relation, s: Staged, tx: nat, i: nat)
    requires Consistent(relation, s) && WellFormedOriginals(s) && LoadedBefore(s, tx) && CompleteOriginals(relation, s)
    requires DistinctNames(relation.columns) && i < |RowKeys(s)| <= |Snapshot(s)|
    ensures StatementFor(relation, Snapshot(s)[i]).Success?
    ensures Snapshot(s)[i].kind == UpdateRow || Snapshot(s)[i].kind == DeleteRow
  {
    RowMutationAt(s, i);
    RowMutationEntry(relation, s, i);
    assert Snapshot(s)[i] == RowMutations(s)[i];
    var key, m := RowKeys(s)[i], Snapshot(s)[i];
    if UpdateEntry(relation, key, m) { UpdateIsRendered(relation, key, m); }
    else { DeleteIsRendered(relation, key, m); }
  }

  lemma SnapshotLength(s: Staged)
    ensures |Snapshot(s)| == |RowKeys(s)| + |s.inserts|
  {
    assert |RowMutations(s)| == |RowKeys(s)|;
  }

  lemma DraftAt(s: Staged, j: nat)
    requires j < |s.inserts| && |Snapshot(s)| == |RowKeys(s)| + |s.inserts|
    ensures Snapshot(s)[|RowKeys(s)| + j] == s.inserts[j]
  {
    SnapshotShape(s);
    assert Snapshot(s)[|RowKeys(s)| + j] == Snapshot(s)[|RowKeys(s)|..][j];
  }

  lemma SnapshotRowLeads(schema: Schema, relation: Relation, s: Staged, rows: seq<DbRow>, tx: nat, i: nat)
    requires Ready(relation, s, rows, tx) && i < |RowKeys(s)| <= |Snapshot(s)|
    ensures LeadsAt(StepOf(schema, relation, tx), schema, relation, rows, tx, Snapshot(s), |RowKeys(s)|, i)
  {
    RowMutationIsRendered(relation, s, tx, i);
    StepRunsWhen(schema, relation, tx, Snapshot(s)[i]);
    RowIsCounted(schema, relation, s, rows, tx, i);
    RowLeads(StepOf(schema, relation, tx), schema, relation, rows, tx, Snapshot(s), |RowKeys(s)|, i);
  }

  lemma SnapshotDraftLeads(schema: Schema, relation: Relation, s: Staged, rows: seq<DbRow>, tx: nat, i: nat)
    requires Ready(relation, s, rows, tx) && |RowKeys(s)| <= i < |Snapshot(s)| == |RowKeys(s)| + |s.inserts|
    ensures LeadsAt(StepOf(schema, relation, tx), schema, relation, rows, tx, Snapshot(s), |RowKeys(s)|, i)
  {
    DraftAt(s, i - |RowKeys(s)|);
    assert DraftEntry(relation, s.inserts[i - |RowKeys(s)|]);
    DraftIsRendered(relation, Snapshot(s)[i]);
    StepInsertsWhen(schema, relation, tx, Snapshot(s)[i]);
    DraftLeads(StepOf(schema, relation, tx), schema, relation, rows, tx, Snapshot(s), |RowKeys(s)|, i);
  }

  lemma SnapshotSucceeds(schema: Schema, relation: Relation, s: Staged, rows: seq<DbRow>, tx: nat, n: nat)
    requires Ready(relation, s, rows, tx) && |Snapshot(s)| == |RowKeys(s)| + |s.inserts| && n <= |Snapshot(s)|
    ensures
      var batch := RunBatch(StepOf(schema, relation, tx), rows, Snapshot(s), n);
      (batch.Success? <==>
       forall i :: 0 <= i < n ==> StepGood(schema, relation, rows, tx, Snapshot(s), |RowKeys(s)|, i)) &&
      (batch.Success? ==> batch.value == TableAfter(schema, relation, rows, tx, Snapshot(s), |RowKeys(s)|, n))
  {
    forall i | 0 <= i < |Snapshot(s)|
      ensures LeadsAt(StepOf(schema, relation, tx), schema, relation, rows, tx, Snapshot(s), |RowKeys(s)|, i)
    {
      if i < |RowKeys(s)| { SnapshotRowLeads(schema, relation, s, rows, tx, i); }
      else { SnapshotDraftLeads(schema, relation, s, rows, tx, i); }
    }
    BatchSucceeds(StepOf(schema, relation, tx), schema, relation, rows, tx, Snapshot(s), |RowKeys(s)|, n);
  }

  // ----- in terms of what is staged -----

  /** Every staged update without tombstone, and every tombstone, still has its row: same
      identity, same version. */
  ghost predicate RowsPresent(relation: Relation, s: Staged, rows: seq<DbRow>) {
    (forall k :: k in s.deletes ==> Present(relation, rows, s.deletes[k])) &&
    forall k :: k in s.updates && k !in s.deletes ==> Present(relation, rows, s.updates[k])
  }

  /** Every staged text that is sent can be read as a value of its column. */
  ghost predicate TextsCast(schema: Schema, s: Staged) {
    (forall k :: k in s.updates && k !in s.deletes ==> AllCast(schema, s.updates[k].values)) &&
    forall j :: 0 <= j < |s.inserts| ==> AllCast(schema, s.inserts[j].values)
  }

  /** The constraints hold after each mutation. */
  ghost predicate TablesAccepted(schema: Schema, relation: Relation, s: Staged, rows: seq<DbRow>, tx: nat)
    requires |RowKeys(s)| <= |Snapshot(s)|
  {
    AllAccepted(schema, relation, rows, tx, Snapshot(s), |RowKeys(s)|)
  }

  /** The change staged under a key that is sent. */
  ghost function SentUnder(s: Staged, key: string): Mutation
    requires key in s.deletes || key in s.updates
  {
    if key in s.deletes then s.deletes[key] else s.updates[key]
  }

  lemma SentAt(s: Staged, i: nat)
    requires i < |RowKeys(s)| <= |Snapshot(s)|
    ensures RowKeys(s)[i] in s.deletes || RowKeys(s)[i] in s.updates
    ensures Snapshot(s)[i] == SentUnder(s, RowKeys(s)[i])
  {
    KeyListsFacts(s);
    RowMutationAt(s, i);
    assert Snapshot(s)[i] == RowMutations(s)[i];
    if i >= |DeleteKeys(s)| { assert UpdateKeys(s)[i - |DeleteKeys(s)|] in UpdateKeys(s); }
  }

  /** A property of all changes of rows that are sent, by position and by key. */
  lemma PerKey(relation: Relation, s: Staged, holds: Mutation -> bool)
    requires |RowKeys(s)| <= |Snapshot(s)|
    ensures (forall i :: 0 <= i < |RowKeys(s)| ==> holds(Snapshot(s)[i])) <==>
      (forall k :: k in s.deletes ==> holds(s.deletes[k])) &&
      forall k :: k in s.updates && k !in s.deletes ==> holds(s.updates[k])
  {
    if forall i :: 0 <= i < |RowKeys(s)| ==> holds(Snapshot(s)[i]) {
      forall k | k in s.deletes || k in s.updates ensures holds(SentUnder(s, k)) {
        var i := KeyPosition(relation, s, k);
        assert holds(Snapshot(s)[i]);
      }
      assert forall k :: k in s.deletes ==> SentUnder(s, k) == s.deletes[k];
      assert forall k :: k in s.updates && k !in s.deletes ==> SentUnder(s, k) == s.updates[k];
    } else {
      var i :| 0 <= i < |RowKeys(s)| && !holds(Snapshot(s)[i]);
      SentAt(s, i);
    }
  }

  lemma RowsPresentByPosition(relation: Relation, s: Staged, rows: seq<DbRow>)
    requires |RowKeys(s)| <= |Snapshot(s)|
    ensures RowsPresent(relation, s, rows) <==>
      forall i :: 0 <= i < |RowKeys(s)| ==> Present(relation, rows, Snapshot(s)[i])
  {
    PerKey(relation, s, m => Present(relation, rows, m));
  }

  lemma TextsCastByPosition(schema: Schema, relation: Relation, s: Staged)
    requires Consistent(relation, s) && |Snapshot(s)| == |RowKeys(s)| + |s.inserts|
    ensures TextsCast(schema, s) <==> AllTextsCast(schema, Snapshot(s), |RowKeys(s)|)
  {
    PerKey(relation, s, m => CastIfUpdate(schema, m));
    forall k | k in s.deletes ensures CastIfUpdate(schema, s.deletes[k]) {
      assert DeleteEntry(relation, k, s.deletes[k]);
    }
    forall k | k in s.updates ensures CastIfUpdate(schema, s.updates[k]) <==> AllCast(schema, s.updates[k].values) {
      assert UpdateEntry(relation, k, s.updates[k]);
    }
    DraftsCastByPosition(schema, s);
  }

  lemma DraftsCastByPosition(schema: Schema, s: Staged)
    requires |Snapshot(s)| == |RowKeys(s)| + |s.inserts|
    ensures (forall j :: 0 <= j < |s.inserts| ==> AllCast(schema, s.inserts[j].values)) <==>
      forall i :: |RowKeys(s)| <= i < |Snapshot(s)| ==> AllCast(schema, Snapshot(s)[i].values)
  {
    if forall j :: 0 <= j < |s.inserts| ==> AllCast(schema, s.inserts[j].values) {
      forall i | |RowKeys(s)| <= i < |Snapshot(s)| ensures AllCast(schema, Snapshot(s)[i].values) {
        DraftAt(s, i - |RowKeys(s)|);
      }
    } else {
      var j :| 0 <= j < |s.inserts| && !AllCast(schema, s.inserts[j].values);
      DraftAt(s, j);
      assert !AllCast(schema, Snapshot(s)[|RowKeys(s)| + j].values);
    }
  }

  /** The batch of a snapshot runs to its end if and only if every row it is about is still
      there as it was loaded, every text it sends can be read, and the constraints hold after
      each of its mutations. What the grid lets the user stage is never refused for its kind,
      its columns or its identity. */
  lemma BatchSucceedsWhen(schema: Schema, relation: Relation, s: Staged, rows: seq<DbRow>, tx: nat)
    requires Ready(relation, s, rows, tx)
    ensures |Snapshot(s)| == |RowKeys(s)| + |s.inserts|
    ensures RunBatch(StepOf(schema, relation, tx), rows, Snapshot(s), |Snapshot(s)|).Success? <==>
      RowsPresent(relation, s, rows) && TextsCast(schema, s) && TablesAccepted(schema, relation, s, rows, tx)
  {
    SnapshotLength(s);
    SnapshotSucceeds(schema, relation, s, rows, tx, |Snapshot(s)|);
    StepsGood(schema, relation, rows, tx, Snapshot(s), |RowKeys(s)|);
    RowsPresentByPosition(relation, s, rows);
    TextsCastByPosition(schema, relation, s);
  }

  /** So does the apply, when something is staged for a table with a key and the commit is
      confirmed. */
  lemma ApplySucceedsWhen(schema: Schema, relation: Relation, s: Staged, rows: seq<DbRow>, tx: nat)
    requires Ready(relation, s, rows, tx) && Dirty(s) && relation.id != NO_RELATION
    requires relation.kind == RelationKind.Table || relation.kind == PartitionedTable
    requires relation.identity != [] && relation.hasXMin
    ensures |Snapshot(s)| == |RowKeys(s)| + |s.inserts|
    ensures
      var (outcome, after) := ApplyTo(schema, relation, rows, tx, Snapshot(s), true, Committed);
      (outcome.Applied? <==>
       RowsPresent(relation, s, rows) && TextsCast(schema, s) && TablesAccepted(schema, relation, s, rows, tx)) &&
      (outcome.Applied? || (outcome.Failed? && after == rows))
  {
    ChangeCountIsSnapshotLength(s);
    BatchSucceedsWhen(schema, relation, s, rows, tx);
    ApplyFollowsBatch(schema, relation, rows, tx, Snapshot(s));
  }

  lemma ApplyFollowsBatch(schema: Schema, relation: Relation, rows: seq<DbRow>, tx: nat, mutations: seq<Mutation>)
    requires Refusal(relation, mutations).None?
    ensures
      var (outcome, after) := ApplyTo(schema, relation, rows, tx, mutations, true, Committed);
      (outcome.Applied? <==> RunBatch(StepOf(schema, relation, tx), rows, mutations, |mutations|).Success?) &&
      (outcome.Applied? || (outcome.Failed? && after == rows))
  {
  }

  lemma {:induction false} NoTargetNoChange(
    rows: seq<DbRow>, p: DbRow -> bool, change: Option<map<string, Raw>>, tx: nat)
    requires Count(rows, p) == 0
    ensures Rewrite(rows, p, change, tx) == rows
  {
    if rows != [] { NoTargetNoChange(rows[..|rows| - 1], p, change, tx); }
  }

  lemma StaleStepConflicts(
    step: Step, schema: Schema, relation: Relation, tx: nat, m: Mutation, before: seq<DbRow>)
    requires RunsWhen(step, schema, relation, tx, m) && schema.accepts(before) && CastIfUpdate(schema, m)
    requires Count(before, TargetsOf(relation, m)) == 0
    ensures step(before, m) == Result.Failure(RowConflict)
  {
    NoTargetNoChange(before, TargetsOf(relation, m), ChangeOf(schema, m), tx);
  }

  /** The first change whose row is gone, or is not as it was loaded, fails with a conflict. */
  lemma FirstStaleRowConflicts(schema: Schema, relation: Relation, s: Staged, rows: seq<DbRow>, tx: nat, i: nat)
    requires Ready(relation, s, rows, tx) && schema.accepts(rows) && i < |RowKeys(s)| <= |Snapshot(s)|
    requires forall j :: 0 <= j < i ==> StepGood(schema, relation, rows, tx, Snapshot(s), |RowKeys(s)|, j)
    requires !Present(relation, rows, Snapshot(s)[i]) && CastIfUpdate(schema, Snapshot(s)[i])
    ensures RunBatch(StepOf(schema, relation, tx), rows, Snapshot(s), |Snapshot(s)|) == Result.Failure((i, RowConflict))
  {
    var step := StepOf(schema, relation, tx);
    SnapshotLength(s);
    SnapshotSucceeds(schema, relation, s, rows, tx, i);
    RowMutationIsRendered(relation, s, tx, i);
    StepRunsWhen(schema, relation, tx, Snapshot(s)[i]);
    RowIsCounted(schema, relation, s, rows, tx, i);
    NothingAfter(schema, relation, rows, tx, Snapshot(s));
    if i > 0 { assert StepGood(schema, relation, rows, tx, Snapshot(s), |RowKeys(s)|, i - 1); }
    StaleStepConflicts(step, schema, relation, tx, Snapshot(s)[i],
      RowsAfter(schema, relation, rows, tx, Snapshot(s), i));
    StopsAt(step, rows, Snapshot(s), i, RowConflict);
  }

  lemma StopsAt(step: Step, rows: seq<DbRow>, mutations: seq<Mutation>, i: nat, error: ApplyError)
    requires i < |mutations| && RunBatch(step, rows, mutations, i).Success?
    requires step(RunBatch(step, rows, mutations, i).value, mutations[i]) == Result.Failure(error)
    ensures RunBatch(step, rows, mutations, |mutations|) == Result.Failure((i, error))
  {
    FailureIsFinal(step, rows, mutations, i + 1, |mutations|);
  }

  // ----- what is refused -----

  /** The request as a whole is refused for the first of these reasons, and for no other. */
  lemma RequestRefusals(
    schema: Schema, relation: Relation, rows: seq<DbRow>, tx: nat, mutations: seq<Mutation>, begins: bool,
    commit: Commit)
    ensures
      var (outcome, after) := ApplyTo(schema, relation, rows, tx, mutations, begins, commit);
      if relation.id == NO_RELATION || mutations == [] then (outcome, after) == (Refused(EmptyRequest), rows)
      else if relation.kind != RelationKind.Table && relation.kind != PartitionedTable
      then (outcome, after) == (Refused(NotATable), rows)
      else if relation.identity == [] || !relation.hasXMin then (outcome, after) == (Refused(NoConcurrencyToken), rows)
      else if !begins then (outcome, after) == (NotBegun, rows)
      else !outcome.Refused? && outcome != NotBegun
  {
  }

  /** What is reported and kept when the batch has run to its end, by how the commit goes. */
  lemma CommitOutcomes(schema: Schema, relation: Relation, rows: seq<DbRow>, tx: nat, mutations: seq<Mutation>)
    requires Refusal(relation, mutations).None?
    requires RunBatch(StepOf(schema, relation, tx), rows, mutations, |mutations|).Success?
    ensures
      var done := RunBatch(StepOf(schema, relation, tx), rows, mutations, |mutations|).value;
      ApplyTo(schema, relation, rows, tx, mutations, true, Committed) ==
        (Applied(KindCounts(mutations, |mutations|)), done) &&
      ApplyTo(schema, relation, rows, tx, mutations, true, RolledBack) == (RolledBackOnCommit, rows) &&
      ApplyTo(schema, relation, rows, tx, mutations, true, Lost(true)) == (Uncertain, done) &&
      ApplyTo(schema, relation, rows, tx, mutations, true, Lost(false)) == (Uncertain, rows)
  {
  }

  /** A mutation is refused, before anything is sent, without the permission for its kind, for
      the first column it may not write, for an update of nothing, and for an original row that
      lacks an identity column; for nothing else. */
  lemma MutationRefusals(relation: Relation, m: Mutation)
    requires m.kind == UpdateRow || m.kind == DeleteRow || m.kind == MutationKind.InsertRow
    ensures
      var columns := OrderedColumns(relation, m.values);
      var r := StatementFor(relation, m);
      var permitted := if m.kind == DeleteRow then relation.canDelete
                       else if m.kind == UpdateRow then relation.canUpdate else relation.canInsert;
      if !permitted then r == Result.Failure(PermissionDenied)
      else if m.kind == UpdateRow && m.values == map[] then r == Result.Failure(NoChangedColumns)
      else if m.kind != DeleteRow && exists i :: Forbidden(columns, m.kind, i)
      then exists i :: Forbidden(columns, m.kind, i) && r == Result.Failure(NotWritable(columns[i].name)) &&
                       forall j :: j < i ==> !Forbidden(columns, m.kind, j)
      else if m.kind != MutationKind.InsertRow && exists c :: c in relation.identity && c !in m.original.identity
      then r == Result.Failure(IncompleteIdentity)
      else r.Success?
  {
    var columns := OrderedColumns(relation, m.values);
    OrderedColumnsAreTheValues(relation, m.values);
    if m.values != map[] { SomeColumn(relation, m.values); }
    if columns != [] { SomeName(columns); }
    FirstForbidden(columns, m.kind);
    IncompleteMeans(relation, m);
  }

  lemma SomeName(columns: seq<Column>)
    requires columns != []
    ensures ColumnNames(columns) != {}
  {
    assert columns[0].name in ColumnNames(columns);
  }

  /** The column may not be written by a mutation of that kind. */
  predicate Forbidden(columns: seq<Column>, kind: MutationKind, i: int) {
    0 <= i < |columns| &&
    (columns[i].generated || columns[i].identity ||
     !(if kind == MutationKind.InsertRow then columns[i].canInsert else columns[i].canUpdate))
  }

  lemma {:induction false} FirstUnwritableIsFirst(columns: seq<Column>, insert: bool, k: nat)
    requires k <= |columns|
    ensures
      var bad := FirstUnwritable(columns, insert, k);
      (bad.None? ==> forall i :: k <= i < |columns| ==> Writable(columns[i], insert)) &&
      (bad.Some? ==> forall i :: k <= i < bad.value ==> Writable(columns[i], insert))
    decreases |columns| - k
  {
    if k < |columns| { FirstUnwritableIsFirst(columns, insert, k + 1); }
  }

  lemma FirstForbidden(columns: seq<Column>, kind: MutationKind)
    requires kind == UpdateRow || kind == DeleteRow || kind == MutationKind.InsertRow
    ensures
      var bad := FirstUnwritable(columns, kind == MutationKind.InsertRow, 0);
      (bad.None? <==> forall i :: !Forbidden(columns, kind, i)) &&
      (bad.Some? ==> Forbidden(columns, kind, bad.value) && forall j :: j < bad.value ==> !Forbidden(columns, kind, j))
  {
    FirstUnwritableIsFirst(columns, kind == MutationKind.InsertRow, 0);
    var bad := FirstUnwritable(columns, kind == MutationKind.InsertRow, 0);
    if bad.Some? { assert Forbidden(columns, kind, bad.value); }
  }

  lemma IncompleteMeans(relation: Relation, m: Mutation)
    ensures IdentityIncomplete(relation.identity, m.original.identity) <==>
      exists c :: c in relation.identity && c !in m.original.identity
  {
    if c :| c in relation.identity && c !in m.original.identity {
      var i :| 0 <= i < |relation.identity| && relation.identity[i] == c;
    }
  }
}
