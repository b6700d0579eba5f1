/** The overlay the grid shows and the effect of applying it: unrelated functions that agree. */
module Overlay {
  import opened Relations
  import opened GridData
  import opened IdentityKeys
  import opened StringOrder
  import opened Staging
  import opened Statements
  import opened Transactions
  import opened ApplyBatch

  // ----- loading -----

  /** How a value of a column is printed for editing and for display. */
  datatype Driver = Driver(edit: (string, Raw) -> string, display: (string, Raw) -> string)

  function FetchedCell(driver: Driver, column: string, raw: Raw): Cell {
    if raw == NIL then Cell(NIL, "NULL", "", true)
    else Cell(raw, driver.display(column, raw), driver.edit(column, raw), false)
  }

  function FetchedIdentity(relation: Relation, row: DbRow): map<string, Raw> {
    map c | c in relation.identity :: Value(row, c)
  }

  function FetchedRow(driver: Driver, relation: Relation, row: DbRow): Row {
    Row(FetchedIdentity(relation, row), row.xmin,
        seq(|relation.columns|, i requires 0 <= i < |relation.columns| =>
              FetchedCell(driver, relation.columns[i].name, Value(row, relation.columns[i].name))))
  }

  function FetchedRows(driver: Driver, relation: Relation, rows: seq<DbRow>): (r: seq<Row>)
    ensures |r| == |rows|
  {
    seq(|rows|, i requires 0 <= i < |rows| => FetchedRow(driver, relation, rows[i]))
  }

  function KeyOfRow(relation: Relation, row: DbRow): string {
    Key(relation.identity, FetchedIdentity(relation, row))
  }

  predicate SameKeyed(relation: Relation, r: DbRow, t: DbRow) {
    SameIdentity(relation.identity, FetchedIdentity(relation, r), FetchedIdentity(relation, t))
  }

  ghost predicate UniqueIdentity(relation: Relation, rows: seq<DbRow>) {
    forall r, t :: r in rows && t in rows && SameKeyed(relation, r, t) ==> r == t
  }

  ghost predicate WellFormedTable(relation: Relation, rows: seq<DbRow>, tx: nat) {
    UniqueIdentity(relation, rows) &&
    forall r :: r in rows ==> r.xmin < tx && WellFormedIdentity(FetchedIdentity(relation, r))
  }

  /** Staged rows were loaded before this transaction began. */
  ghost predicate LoadedBefore(s: Staged, tx: nat) {
    (forall k :: k in s.updates ==> s.updates[k].original.xmin < tx) &&
    forall k :: k in s.deletes ==> s.deletes[k].original.xmin < tx
  }

  // ----- the table as staged -----

  /** What the staged changes make of a stored row, found by its key. */
  function StagedRow(schema: Schema, relation: Relation, s: Staged, row: DbRow, tx: nat): Option<DbRow> {
    var key := KeyOfRow(relation, row);
    if key in s.deletes then None
    else if key in s.updates && AllCast(schema, s.updates[key].values) then
      Some(Written(row, StagedRaws(schema, s.updates[key].values), tx))
    else Some(row)
  }

  function StagedRows(schema: Schema, relation: Relation, s: Staged, rows: seq<DbRow>, tx: nat): seq<DbRow> {
    if rows == [] then []
    else
      var last := StagedRow(schema, relation, s, rows[|rows| - 1], tx);
      StagedRows(schema, relation, s, rows[..|rows| - 1], tx) + if last.Some? then [last.value] else []
  }

  function DraftRow(schema: Schema, m: Mutation, tx: nat): DbRow {
    NewRow(schema, if AllCast(schema, m.values) then StagedRaws(schema, m.values) else map[], tx)
  }

  function DraftRows(schema: Schema, inserts: seq<Mutation>, tx: nat, n: nat): seq<DbRow>
    requires n <= |inserts|
  {
    if n == 0 then [] else DraftRows(schema, inserts, tx, n - 1) + [DraftRow(schema, inserts[n - 1], tx)]
  }

  // ----- a batch, row by row -----

  function Changed(schema: Schema, relation: Relation, row: DbRow, tx: nat, m: Mutation): Option<DbRow> {
    if !Targets(relation, m, row) then Some(row)
    else if m.kind == UpdateRow && AllCast(schema, m.values) then Some(Written(row, StagedRaws(schema, m.values), tx))
    else None
  }

  /** What the first `n` mutations make of one row. */
  function RowAfter(
    schema: Schema, relation: Relation, row: DbRow, tx: nat, mutations: seq<Mutation>, n: nat): Option<DbRow>
    requires n <= |mutations|
  {
    if n == 0 then Some(row)
    else
      var before := RowAfter(schema, relation, row, tx, mutations, n - 1);
      if before.None? then None else Changed(schema, relation, before.value, tx, mutations[n - 1])
  }

  function RowsAfter(
    schema: Schema, relation: Relation, rows: seq<DbRow>, tx: nat, mutations: seq<Mutation>, n: nat): seq<DbRow>
    requires n <= |mutations|
  {
    if rows == [] then []
    else
      var last := RowAfter(schema, relation, rows[|rows| - 1], tx, mutations, n);
      RowsAfter(schema, relation, rows[..|rows| - 1], tx, mutations, n) + if last.Some? then [last.value] else []
  }

  lemma RewriteAppend(front: seq<DbRow>, row: DbRow, p: DbRow -> bool, change: Option<map<string, Raw>>, tx: nat)
    ensures Rewrite(front + [row], p, change, tx) ==
      Rewrite(front, p, change, tx) +
      if !p(row) then [row] else if change.Some? then [Written(row, change.value, tx)] else []
  {
  }

  function ChangeOf(schema: Schema, m: Mutation): Option<map<string, Raw>> {
    if m.kind == UpdateRow && AllCast(schema, m.values) then Some(StagedRaws(schema, m.values)) else None
  }

  function TargetsOf(relation: Relation, m: Mutation): DbRow -> bool { row => Targets(relation, m, row) }

  /** The table with a staged update or delete carried out. */
  function Carried(schema: Schema, relation: Relation, rows: seq<DbRow>, tx: nat, m: Mutation): seq<DbRow> {
    Rewrite(rows, TargetsOf(relation, m), ChangeOf(schema, m), tx)
  }

  lemma {:induction false} RewriteIsRowwise(
    schema: Schema, relation: Relation, rows: seq<DbRow>, tx: nat, mutations: seq<Mutation>, n: nat)
    requires 0 < n <= |mutations|
    ensures Carried(schema, relation, RowsAfter(schema, relation, rows, tx, mutations, n - 1), tx, mutations[n - 1])
      == RowsAfter(schema, relation, rows, tx, mutations, n)
  {
    if rows != [] {
      var m := mutations[n - 1];
      var front, row := rows[..|rows| - 1], rows[|rows| - 1];
      RewriteIsRowwise(schema, relation, front, tx, mutations, n);
      var before := RowAfter(schema, relation, row, tx, mutations, n - 1);
      var done := RowsAfter(schema, relation, front, tx, mutations, n - 1);
      if before.Some? {
        RewriteAppend(done, before.value, TargetsOf(relation, m), ChangeOf(schema, m), tx);
      } else {
        assert RowsAfter(schema, relation, rows, tx, mutations, n - 1) == done;
      }
    }
  }

  ghost predicate Rewrites(step: Step, schema: Schema, relation: Relation, tx: nat, m: Mutation) {
    forall rows :: step(rows, m).Success? ==> step(rows, m).value == Carried(schema, relation, rows, tx, m)
  }

  ghost predicate Appends(step: Step, schema: Schema, tx: nat, m: Mutation) {
    forall rows :: step(rows, m).Success? ==> step(rows, m).value == rows + [DraftRow(schema, m, tx)]
  }

  lemma StepRewrites(schema: Schema, relation: Relation, tx: nat, m: Mutation)
    requires m.kind == UpdateRow || m.kind == DeleteRow
    ensures Rewrites(StepOf(schema, relation, tx), schema, relation, tx, m)
  {
    forall rows | RunMutation(schema, relation, rows, tx, m).Success?
      ensures RunMutation(schema, relation, rows, tx, m).value == Carried(schema, relation, rows, tx, m)
    {
      StatementDoesWhatIsStaged(schema, relation, rows, tx, m);
      SameSelection(rows, row => Targets(relation, m, row), TargetsOf(relation, m), ChangeOf(schema, m), tx);
    }
  }

  lemma StepAppends(schema: Schema, relation: Relation, tx: nat, m: Mutation)
    requires m.kind == MutationKind.InsertRow
    ensures Appends(StepOf(schema, relation, tx), schema, tx, m)
  {
    forall rows | RunMutation(schema, relation, rows, tx, m).Success?
      ensures RunMutation(schema, relation, rows, tx, m).value == rows + [DraftRow(schema, m, tx)]
    {
      StatementDoesWhatIsStaged(schema, relation, rows, tx, m);
    }
  }

  /** Updates and deletes: the batch is what it does to each row. */
  lemma {:induction false} RowMutationsAreRowwise(
    step: Step, schema: Schema, relation: Relation, rows: seq<DbRow>, tx: nat, mutations: seq<Mutation>, n: nat)
    requires n <= |mutations| && RunBatch(step, rows, mutations, n).Success?
    requires forall i :: 0 <= i < n ==> Rewrites(step, schema, relation, tx, mutations[i])
    ensures RunBatch(step, rows, mutations, n).value == RowsAfter(schema, relation, rows, tx, mutations, n)
  {
    if n == 0 {
      NothingAfter(schema, relation, rows, tx, mutations);
    } else {
      RowMutationsAreRowwise(step, schema, relation, rows, tx, mutations, n - 1);
      assert Rewrites(step, schema, relation, tx, mutations[n - 1]);
      RewriteIsRowwise(schema, relation, rows, tx, mutations, n);
    }
  }

  lemma {:induction false} NothingAfter(
    schema: Schema, relation: Relation, rows: seq<DbRow>, tx: nat, mutations: seq<Mutation>)
    ensures RowsAfter(schema, relation, rows, tx, mutations, 0) == rows
  {
    if rows != [] { NothingAfter(schema, relation, rows[..|rows| - 1], tx, mutations); }
  }

  /** Inserts append their rows. */
  lemma {:induction false} DraftsAreAppended(
    step: Step, schema: Schema, rows: seq<DbRow>, tx: nat, mutations: seq<Mutation>, k: nat, n: nat)
    requires k + n <= |mutations| && RunBatch(step, rows, mutations, k + n).Success?
    requires forall i :: k <= i < k + n ==> Appends(step, schema, tx, mutations[i])
    ensures RunBatch(step, rows, mutations, k).Success?
    ensures RunBatch(step, rows, mutations, k + n).value ==
      RunBatch(step, rows, mutations, k).value + DraftRows(schema, mutations[k..], tx, n)
    decreases n
  {
    if n > 0 {
      DraftsAreAppended(step, schema, rows, tx, mutations, k, n - 1);
      assert Appends(step, schema, tx, mutations[k + n - 1]);
      assert mutations[k..][n - 1] == mutations[k + n - 1];
    }
  }

  // ----- the batch of a snapshot, row by row -----

  lemma {:induction false} UntouchedRow(
    schema: Schema, relation: Relation, row: DbRow, tx: nat, mutations: seq<Mutation>, n: nat)
    requires n <= |mutations| && forall i :: 0 <= i < n ==> !Targets(relation, mutations[i], row)
    ensures RowAfter(schema, relation, row, tx, mutations, n) == Some(row)
  {
    if n > 0 { UntouchedRow(schema, relation, row, tx, mutations, n - 1); }
  }

  /** A row this transaction has written is never a target again. */
  lemma {:induction false} WrittenOnce(
    schema: Schema, relation: Relation, row: DbRow, tx: nat, mutations: seq<Mutation>, i: nat, n: nat)
    requires i < n <= |mutations| && Targets(relation, mutations[i], row)
    requires forall j :: 0 <= j < n ==> mutations[j].original.xmin < tx
    requires forall j :: 0 <= j < i ==> !Targets(relation, mutations[j], row)
    ensures RowAfter(schema, relation, row, tx, mutations, n) == Changed(schema, relation, row, tx, mutations[i])
  {
    if n == i + 1 {
      UntouchedRow(schema, relation, row, tx, mutations, i);
    } else {
      WrittenOnce(schema, relation, row, tx, mutations, i, n - 1);
    }
  }

  lemma TargetHasKey(relation: Relation, m: Mutation, key: string, row: DbRow)
    requires Key(relation.identity, m.original.identity) == key && WellFormedIdentity(m.original.identity)
    requires WellFormedIdentity(FetchedIdentity(relation, row)) && Targets(relation, m, row)
    ensures KeyOfRow(relation, row) == key
  {
    assert SameIdentity(relation.identity, FetchedIdentity(relation, row), m.original.identity);
    KeyIdentifiesRow(relation.identity, FetchedIdentity(relation, row), m.original.identity);
  }

  /** The row a mutation found is the row with its key. */
  lemma KeyedRowIsTarget(relation: Relation, m: Mutation, key: string, row: DbRow, rows: seq<DbRow>, tx: nat)
    requires Key(relation.identity, m.original.identity) == key && WellFormedIdentity(m.original.identity)
    requires WellFormedTable(relation, rows, tx) && row in rows && KeyOfRow(relation, row) == key
    requires exists r :: r in rows && Targets(relation, m, r)
    ensures Targets(relation, m, row)
  {
    var r :| r in rows && Targets(relation, m, r);
    TargetHasKey(relation, m, key, r);
    KeyIdentifiesRow(relation.identity, FetchedIdentity(relation, row), FetchedIdentity(relation, r));
    assert r == row;
  }

  lemma KeyPosition(relation: Relation, s: Staged, key: string) returns (i: nat)
    requires key in s.deletes || key in s.updates
    ensures i < |RowKeys(s)| <= |Snapshot(s)| && RowKeys(s)[i] == key
    ensures Snapshot(s)[i] == if key in s.deletes then s.deletes[key] else s.updates[key]
  {
    KeyListsFacts(s);
    if key in s.deletes {
      assert key in DeleteKeys(s);
      i :| 0 <= i < |DeleteKeys(s)| && DeleteKeys(s)[i] == key;
    } else {
      assert key in UpdateKeys(s);
      var j :| 0 <= j < |UpdateKeys(s)| && UpdateKeys(s)[j] == key;
      i := |DeleteKeys(s)| + j;
    }
    RowMutationAt(s, i);
    assert Snapshot(s)[i] == RowMutations(s)[i];
  }

  /** What the snapshot's mutation at a position is about. */
  lemma SnapshotEntry(relation: Relation, s: Staged, tx: nat, i: nat)
    requires Consistent(relation, s) && WellFormedOriginals(s) && LoadedBefore(s, tx) && i < |RowKeys(s)|
    ensures i < |Snapshot(s)|
    ensures
      var m := Snapshot(s)[i];
      (m.kind == UpdateRow || m.kind == DeleteRow) && m.original.xmin < tx && WellFormedIdentity(m.original.identity) &&
      Key(relation.identity, m.original.identity) == RowKeys(s)[i]
  {
    RowMutationAt(s, i);
    RowMutationEntry(relation, s, i);
    assert Snapshot(s)[i] == RowMutations(s)[i];
  }

  /** A staged mutation targets exactly the stored row of its key. */
  lemma EntryTargetsKey(schema: Schema, relation: Relation, s: Staged, rows: seq<DbRow>, tx: nat, i: nat, row: DbRow)
    requires Consistent(relation, s) && WellFormedOriginals(s) && LoadedBefore(s, tx) &&
      WellFormedTable(relation, rows, tx)
    requires RunBatch(StepOf(schema, relation, tx), rows, Snapshot(s), |Snapshot(s)|).Success?
    requires row in rows && i < |RowKeys(s)| <= |Snapshot(s)|
    ensures Targets(relation, Snapshot(s)[i], row) <==> RowKeys(s)[i] == KeyOfRow(relation, row)
  {
    SnapshotEntry(relation, s, tx, i);
    var m := Snapshot(s)[i];
    if Targets(relation, m, row) { TargetHasKey(relation, m, RowKeys(s)[i], row); }
    if RowKeys(s)[i] == KeyOfRow(relation, row) {
      BatchFindsOriginals(schema, relation, rows, tx, Snapshot(s), i);
      KeyedRowIsTarget(relation, m, RowKeys(s)[i], row, rows, tx);
    }
  }

  ghost predicate Casts(step: Step, schema: Schema, m: Mutation) {
    forall rows :: step(rows, m).Success? ==> AllCast(schema, m.values)
  }

  lemma StepCasts(schema: Schema, relation: Relation, tx: nat, m: Mutation)
    requires m.kind == UpdateRow || m.kind == MutationKind.InsertRow
    ensures Casts(StepOf(schema, relation, tx), schema, m)
  {
    forall rows | RunMutation(schema, relation, rows, tx, m).Success? ensures AllCast(schema, m.values) {
      StatementDoesWhatIsStaged(schema, relation, rows, tx, m);
    }
  }

  lemma BatchCasts(step: Step, schema: Schema, mutations: seq<Mutation>, rows: seq<DbRow>, i: nat)
    requires RunBatch(step, rows, mutations, |mutations|).Success?
    requires i < |mutations| && Casts(step, schema, mutations[i])
    ensures AllCast(schema, mutations[i].values)
  {
    PrefixSucceeds(step, rows, mutations, i + 1, |mutations|);
    LastStep(step, rows, mutations, i + 1);
  }

  lemma LastStep(step: Step, rows: seq<DbRow>, mutations: seq<Mutation>, n: nat)
    requires 0 < n <= |mutations| && RunBatch(step, rows, mutations, n).Success?
    ensures RunBatch(step, rows, mutations, n - 1).Success?
    ensures step(RunBatch(step, rows, mutations, n - 1).value, mutations[n - 1]).Success?
  {
  }

  ghost predicate Runs(schema: Schema, relation: Relation, s: Staged, rows: seq<DbRow>, tx: nat) {
    Consistent(relation, s) && WellFormedOriginals(s) && LoadedBefore(s, tx) && WellFormedTable(relation, rows, tx) &&
    RunBatch(StepOf(schema, relation, tx), rows, Snapshot(s), |Snapshot(s)|).Success?
  }

  /** After the updates and deletes of the snapshot each row is as staged under its key. */
  lemma RowIsAsStaged(schema: Schema, relation: Relation, s: Staged, rows: seq<DbRow>, tx: nat, row: DbRow)
    requires Runs(schema, relation, s, rows, tx) && row in rows && |RowKeys(s)| <= |Snapshot(s)|
    ensures RowAfter(schema, relation, row, tx, Snapshot(s), |RowKeys(s)|) == StagedRow(schema, relation, s, row, tx)
  {
    var key, n := KeyOfRow(relation, row), |RowKeys(s)|;
    var mutations := Snapshot(s);
    forall j | 0 <= j < n
      ensures (Targets(relation, mutations[j], row) <==> RowKeys(s)[j] == key) && mutations[j].original.xmin < tx
    {
      EntryTargetsKey(schema, relation, s, rows, tx, j, row);
      SnapshotEntry(relation, s, tx, j);
    }
    if key in s.deletes || key in s.updates {
      var i := KeyPosition(relation, s, key);
      RowKeysDistinct(s);
      WrittenOnce(schema, relation, row, tx, mutations, i, n);
      if key !in s.deletes {
        assert UpdateEntry(relation, key, s.updates[key]);
        StepCasts(schema, relation, tx, mutations[i]);
        BatchCasts(StepOf(schema, relation, tx), schema, mutations, rows, i);
      } else {
        assert DeleteEntry(relation, key, s.deletes[key]);
      }
    } else {
      KeyListsFacts(s);
      forall j | 0 <= j < n ensures RowKeys(s)[j] != key {
        RowMutationAt(s, j);
      }
      UntouchedRow(schema, relation, row, tx, mutations, n);
    }
  }

  lemma {:induction false} RowsAreAsStaged(
    schema: Schema, relation: Relation, s: Staged, all: seq<DbRow>, rows: seq<DbRow>, tx: nat)
    requires Runs(schema, relation, s, all, tx) && |RowKeys(s)| <= |Snapshot(s)| && forall r :: r in rows ==> r in all
    ensures RowsAfter(schema, relation, rows, tx, Snapshot(s), |RowKeys(s)|) ==
      StagedRows(schema, relation, s, rows, tx)
  {
    if rows != [] {
      var front, last := rows[..|rows| - 1], rows[|rows| - 1];
      assert last in rows && forall r :: r in front ==> r in rows;
      RowsAreAsStaged(schema, relation, s, all, front, tx);
      RowIsAsStaged(schema, relation, s, all, tx, last);
    }
  }

  lemma RowsThenDrafts(
    step: Step, schema: Schema, relation: Relation, rows: seq<DbRow>, tx: nat, mutations: seq<Mutation>, k: nat)
    requires k <= |mutations| && RunBatch(step, rows, mutations, |mutations|).Success?
    requires forall i :: 0 <= i < k ==> Rewrites(step, schema, relation, tx, mutations[i])
    requires forall i :: k <= i < |mutations| ==> Appends(step, schema, tx, mutations[i])
    ensures RunBatch(step, rows, mutations, |mutations|).value ==
      RowsAfter(schema, relation, rows, tx, mutations, k) + DraftRows(schema, mutations[k..], tx, |mutations| - k)
  {
    DraftsAreAppended(step, schema, rows, tx, mutations, k, |mutations| - k);
    RowMutationsAreRowwise(step, schema, relation, rows, tx, mutations, k);
  }

  lemma SnapshotShape(s: Staged)
    ensures |RowKeys(s)| <= |Snapshot(s)| && Snapshot(s)[|RowKeys(s)|..] == s.inserts
  {
  }

  lemma SnapshotSteps(schema: Schema, relation: Relation, s: Staged, tx: nat, i: nat)
    requires Consistent(relation, s) && WellFormedOriginals(s) && LoadedBefore(s, tx) && i < |Snapshot(s)|
    ensures
      if i < |RowKeys(s)| then Rewrites(StepOf(schema, relation, tx), schema, relation, tx, Snapshot(s)[i])
      else Appends(StepOf(schema, relation, tx), schema, tx, Snapshot(s)[i])
  {
    if i < |RowKeys(s)| {
      SnapshotEntry(relation, s, tx, i);
      StepRewrites(schema, relation, tx, Snapshot(s)[i]);
    } else {
      SnapshotDraft(relation, s, i);
      StepAppends(schema, relation, tx, Snapshot(s)[i]);
    }
  }

  lemma SnapshotDraft(relation: Relation, s: Staged, i: nat)
    requires Consistent(relation, s) && |RowKeys(s)| <= i < |Snapshot(s)|
    ensures Snapshot(s)[i].kind == MutationKind.InsertRow
  {
    SnapshotShape(s);
    assert Snapshot(s)[i] == Snapshot(s)[|RowKeys(s)|..][i - |RowKeys(s)|];
    assert DraftEntry(relation, s.inserts[i - |RowKeys(s)|]);
  }

  /** A successful apply of the snapshot leaves exactly the rows as staged: rows with a tombstone
      gone, updated rows with their staged values, all others as they were, then the drafts. */
  lemma ApplyLeavesStagedRows(schema: Schema, relation: Relation, s: Staged, rows: seq<DbRow>, tx: nat)
    requires Runs(schema, relation, s, rows, tx)
    ensures RunBatch(StepOf(schema, relation, tx), rows, Snapshot(s), |Snapshot(s)|).value ==
      StagedRows(schema, relation, s, rows, tx) + DraftRows(schema, s.inserts, tx, |s.inserts|)
  {
    var mutations, k := Snapshot(s), |RowKeys(s)|;
    SnapshotShape(s);
    forall i | 0 <= i < |mutations|
      ensures if i < k then Rewrites(StepOf(schema, relation, tx), schema, relation, tx, mutations[i])
              else Appends(StepOf(schema, relation, tx), schema, tx, mutations[i])
    {
      SnapshotSteps(schema, relation, s, tx, i);
    }
    RowsThenDrafts(StepOf(schema, relation, tx), schema, relation, rows, tx, mutations, k);
    RowsAreAsStaged(schema, relation, s, rows, rows, tx);
  }

  // ----- what the grid shows -----

  const DEFAULT_CELL := Cell(NIL, "DEFAULT", "", false)

  /** The value that a cell with staged content stands for: null, the default, or its text read
      as the column's type. */
  function StagedMeaning(schema: Schema, column: string, cell: Cell): Option<Raw> {
    if cell.isNull then Some(NIL)
    else if cell == DEFAULT_CELL then Some(schema.defaults(column))
    else schema.cast(column, cell.edit)
  }

  /** A draft's cells all have staged content, a page row's those that an update names. */
  predicate HasStagedContent(s: Staged, ref: RowRef, column: string) {
    ref.insert || (ref.key in s.updates && column in s.updates[ref.key].values)
  }

  /** A fetched cell stands for the value it carries; its texts are for the eye only. */
  function Meaning(schema: Schema, relation: Relation, s: Staged, ref: RowRef, i: nat): Option<Raw>
    requires i < |relation.columns| && (ref.insert ==> ref.insertIdx < |s.inserts|)
  {
    var column, cell := relation.columns[i].name, CellAt(relation, s, ref, i);
    if HasStagedContent(s, ref, column) then StagedMeaning(schema, column, cell) else Some(cell.raw)
  }

  function ShownRow(schema: Schema, relation: Relation, s: Staged, ref: RowRef): seq<Option<Raw>>
    requires ref.insert ==> ref.insertIdx < |s.inserts|
  {
    seq(|relation.columns|, i requires 0 <= i < |relation.columns| =>
          Meaning(schema, relation, s, ref, i))
  }

  function StoredRow(relation: Relation, row: DbRow): seq<Option<Raw>> {
    seq(|relation.columns|, i requires 0 <= i < |relation.columns| => Some(Value(row, relation.columns[i].name)))
  }

  function StoredRows(relation: Relation, rows: seq<DbRow>): seq<seq<Option<Raw>>> {
    if rows == [] then [] else StoredRows(relation, rows[..|rows| - 1]) + [StoredRow(relation, rows[|rows| - 1])]
  }

  /** A page row as the grid shows it; nothing if it carries a tombstone. */
  function ShownAt(schema: Schema, relation: Relation, s: Staged, page: Page, k: nat): seq<seq<Option<Raw>>>
    requires k < |page.rows|
  {
    var ref := RowReferenceAt(relation, s, page, |s.inserts| + k).value;
    if ref.key in s.deletes then [] else [ShownRow(schema, relation, s, ref)]
  }

  /** The first `n` page rows as the grid shows them. */
  function ShownRows(schema: Schema, relation: Relation, s: Staged, page: Page, n: nat): seq<seq<Option<Raw>>>
    requires n <= |page.rows|
  {
    if n == 0 then [] else ShownRows(schema, relation, s, page, n - 1) + ShownAt(schema, relation, s, page, n - 1)
  }

  function ShownDraft(schema: Schema, relation: Relation, s: Staged, page: Page, k: nat): seq<Option<Raw>>
    requires k < |s.inserts|
  {
    ShownRow(schema, relation, s, RowReferenceAt(relation, s, page, k).value)
  }

  /** The first `n` drafts as the grid shows them. */
  function ShownDrafts(schema: Schema, relation: Relation, s: Staged, page: Page, n: nat): seq<seq<Option<Raw>>>
    requires n <= |s.inserts|
  {
    if n == 0 then []
    else ShownDrafts(schema, relation, s, page, n - 1) + [ShownDraft(schema, relation, s, page, n - 1)]
  }

  lemma UpdateIsCast(schema: Schema, relation: Relation, s: Staged, rows: seq<DbRow>, tx: nat, key: string)
    requires Runs(schema, relation, s, rows, tx) && key in s.updates && key !in s.deletes
    ensures AllCast(schema, s.updates[key].values)
  {
    var i := KeyPosition(relation, s, key);
    assert UpdateEntry(relation, key, s.updates[key]);
    StepCasts(schema, relation, tx, Snapshot(s)[i]);
    BatchCasts(StepOf(schema, relation, tx), schema, Snapshot(s), rows, i);
  }

  lemma DraftIsCast(schema: Schema, relation: Relation, s: Staged, rows: seq<DbRow>, tx: nat, k: nat)
    requires Runs(schema, relation, s, rows, tx) && k < |s.inserts|
    ensures AllCast(schema, s.inserts[k].values)
  {
    SnapshotShape(s);
    var i := |RowKeys(s)| + k;
    assert Snapshot(s)[i] == Snapshot(s)[|RowKeys(s)|..][k];
    assert DraftEntry(relation, s.inserts[k]);
    StepCasts(schema, relation, tx, Snapshot(s)[i]);
    BatchCasts(StepOf(schema, relation, tx), schema, Snapshot(s), rows, i);
  }

  lemma PageRowShowsResult(
    schema: Schema, driver: Driver, relation: Relation, s: Staged, row: DbRow, tx: nat, ref: RowRef)
    requires !ref.insert && ref.key == KeyOfRow(relation, row) && ref.row == FetchedRow(driver, relation, row)
    requires ref.key !in s.deletes && (ref.key in s.updates ==> AllCast(schema, s.updates[ref.key].values))
    ensures StagedRow(schema, relation, s, row, tx).Some?
    ensures ShownRow(schema, relation, s, ref) == StoredRow(relation, StagedRow(schema, relation, s, row, tx).value)
  {
  }

  lemma DraftShowsResult(schema: Schema, relation: Relation, s: Staged, tx: nat, ref: RowRef)
    requires ref.insert && ref.insertIdx < |s.inserts| && AllCast(schema, s.inserts[ref.insertIdx].values)
    requires ColumnNames(relation.columns) <= schema.columns
    ensures ShownRow(schema, relation, s, ref) == StoredRow(relation, DraftRow(schema, s.inserts[ref.insertIdx], tx))
  {
  }

  lemma StoredAppend(relation: Relation, rows: seq<DbRow>, row: DbRow)
    ensures StoredRows(relation, rows + [row]) == StoredRows(relation, rows) + [StoredRow(relation, row)]
  {
  }

  lemma {:induction false} StoredConcat(relation: Relation, a: seq<DbRow>, b: seq<DbRow>)
    ensures StoredRows(relation, a + b) == StoredRows(relation, a) + StoredRows(relation, b)
  {
    if b == [] {
      assert a + b == a;
    } else {
      var front, last := b[..|b| - 1], b[|b| - 1];
      assert a + b == (a + front) + [last];
      StoredConcat(relation, a, front);
      StoredAppend(relation, a + front, last);
    }
  }

  function StoredAt(schema: Schema, relation: Relation, s: Staged, row: DbRow, tx: nat): seq<seq<Option<Raw>>> {
    var staged := StagedRow(schema, relation, s, row, tx);
    if staged.Some? then [StoredRow(relation, staged.value)] else []
  }

  lemma PageRowResult(
    schema: Schema, driver: Driver, relation: Relation, s: Staged, rows: seq<DbRow>, shown: seq<DbRow>, tx: nat,
    page: Page, k: nat)
    requires Runs(schema, relation, s, rows, tx) && page.rows == FetchedRows(driver, relation, shown) && k < |shown|
    ensures ShownAt(schema, relation, s, page, k) == StoredAt(schema, relation, s, shown[k], tx)
  {
    var ref := RowReferenceAt(relation, s, page, |s.inserts| + k).value;
    assert ref.row == FetchedRow(driver, relation, shown[k]);
    if ref.key !in s.deletes {
      if ref.key in s.updates { UpdateIsCast(schema, relation, s, rows, tx, ref.key); }
      PageRowShowsResult(schema, driver, relation, s, shown[k], tx, ref);
    }
  }

  lemma StagedRowsFront(schema: Schema, relation: Relation, s: Staged, rows: seq<DbRow>, tx: nat, n: nat)
    requires 0 < n <= |rows|
    ensures StoredRows(relation, StagedRows(schema, relation, s, rows[..n], tx)) ==
      StoredRows(relation, StagedRows(schema, relation, s, rows[..n - 1], tx)) +
        StoredAt(schema, relation, s, rows[n - 1], tx)
  {
    assert rows[..n][..n - 1] == rows[..n - 1];
    var front := StagedRows(schema, relation, s, rows[..n - 1], tx);
    var last := StagedRow(schema, relation, s, rows[n - 1], tx);
    if last.Some? {
      StoredAppend(relation, front, last.value);
    } else {
      assert StagedRows(schema, relation, s, rows[..n], tx) == front;
    }
  }

  ghost predicate PageRowAgrees(
    schema: Schema, relation: Relation, s: Staged, rows: seq<DbRow>, tx: nat, page: Page, k: int) {
    0 <= k < |rows| == |page.rows| &&
    ShownAt(schema, relation, s, page, k) == StoredAt(schema, relation, s, rows[k], tx)
  }

  lemma {:induction false} PageShowsResult(
    schema: Schema, relation: Relation, s: Staged, rows: seq<DbRow>, tx: nat, page: Page, n: nat)
    requires n <= |rows| == |page.rows|
    requires forall k :: 0 <= k < |rows| ==> PageRowAgrees(schema, relation, s, rows, tx, page, k)
    ensures StoredRows(relation, StagedRows(schema, relation, s, rows[..n], tx)) ==
      ShownRows(schema, relation, s, page, n)
  {
    if n > 0 {
      PageShowsResult(schema, relation, s, rows, tx, page, n - 1);
      StagedRowsFront(schema, relation, s, rows, tx, n);
      assert PageRowAgrees(schema, relation, s, rows, tx, page, n - 1);
    }
  }

  lemma WholePageShowsResult(
    schema: Schema, driver: Driver, relation: Relation, s: Staged, rows: seq<DbRow>, shown: seq<DbRow>, tx: nat,
    page: Page)
    requires Runs(schema, relation, s, rows, tx) && page.rows == FetchedRows(driver, relation, shown)
    ensures StoredRows(relation, StagedRows(schema, relation, s, shown, tx)) ==
      ShownRows(schema, relation, s, page, |page.rows|)
  {
    forall k | 0 <= k < |shown| ensures PageRowAgrees(schema, relation, s, shown, tx, page, k) {
      PageRowResult(schema, driver, relation, s, rows, shown, tx, page, k);
    }
    PageShowsResult(schema, relation, s, shown, tx, page, |shown|);
    assert shown[..|shown|] == shown;
  }

  lemma {:induction false} StagedRowStays(
    schema: Schema, relation: Relation, s: Staged, rows: seq<DbRow>, tx: nat, row: DbRow)
    requires row in rows && StagedRow(schema, relation, s, row, tx).Some?
    ensures StagedRow(schema, relation, s, row, tx).value in StagedRows(schema, relation, s, rows, tx)
  {
    if row != rows[|rows| - 1] { StagedRowStays(schema, relation, s, rows[..|rows| - 1], tx, row); }
  }

  lemma {:induction false} PartStays(
    schema: Schema, relation: Relation, s: Staged, rows: seq<DbRow>, shown: seq<DbRow>, tx: nat)
    requires forall r :: r in shown ==> r in rows
    ensures forall r :: r in StagedRows(schema, relation, s, shown, tx) ==>
      r in StagedRows(schema, relation, s, rows, tx)
  {
    if shown != [] {
      var front, last := shown[..|shown| - 1], shown[|shown| - 1];
      PartStays(schema, relation, s, rows, front, tx);
      if StagedRow(schema, relation, s, last, tx).Some? { StagedRowStays(schema, relation, s, rows, tx, last); }
    }
  }

  ghost predicate DraftAgrees(schema: Schema, relation: Relation, s: Staged, tx: nat, page: Page, k: int) {
    0 <= k < |s.inserts| &&
    ShownDraft(schema, relation, s, page, k) == StoredRow(relation, DraftRow(schema, s.inserts[k], tx))
  }

  lemma {:induction false} DraftsShowResult(schema: Schema, relation: Relation, s: Staged, tx: nat, page: Page, n: nat)
    requires n <= |s.inserts| && forall k :: 0 <= k < |s.inserts| ==> DraftAgrees(schema, relation, s, tx, page, k)
    ensures StoredRows(relation, DraftRows(schema, s.inserts, tx, n)) == ShownDrafts(schema, relation, s, page, n)
  {
    if n > 0 {
      DraftsShowResult(schema, relation, s, tx, page, n - 1);
      StoredAppend(relation, DraftRows(schema, s.inserts, tx, n - 1), DraftRow(schema, s.inserts[n - 1], tx));
      assert DraftAgrees(schema, relation, s, tx, page, n - 1);
    }
  }

  lemma AllDraftsShowResult(schema: Schema, relation: Relation, s: Staged, rows: seq<DbRow>, tx: nat, page: Page)
    requires Runs(schema, relation, s, rows, tx) && ColumnNames(relation.columns) <= schema.columns
    ensures StoredRows(relation, DraftRows(schema, s.inserts, tx, |s.inserts|)) ==
      ShownDrafts(schema, relation, s, page, |s.inserts|)
  {
    forall k | 0 <= k < |s.inserts| ensures DraftAgrees(schema, relation, s, tx, page, k) {
      DraftIsCast(schema, relation, s, rows, tx, k);
      DraftShowsResult(schema, relation, s, tx, RowReferenceAt(relation, s, page, k).value);
    }
    DraftsShowResult(schema, relation, s, tx, page, |s.inserts|);
  }

  /** What the grid shows is what apply does. Let a page show any rows of the table in any order,
      and let changes be staged for these or for any other rows. After a successful apply of the
      snapshot the page rows as the grid shows them, except those with a tombstone, are cell by
      cell the readable columns of rows of the table; the drafts as the grid shows them, DEFAULT
      and unset cells standing for the default, are the rows added at its end; and every other
      row of the table is as staged. */
  lemma GridShowsWhatApplyDoes(
    schema: Schema, driver: Driver, relation: Relation, s: Staged, rows: seq<DbRow>, shown: seq<DbRow>, tx: nat,
    page: Page)
    requires Runs(schema, relation, s, rows, tx) && ColumnNames(relation.columns) <= schema.columns
    requires page.rows == FetchedRows(driver, relation, shown) && forall r :: r in shown ==> r in rows
    ensures
      var kept, added := StagedRows(schema, relation, s, rows, tx), DraftRows(schema, s.inserts, tx, |s.inserts|);
      var onPage := StagedRows(schema, relation, s, shown, tx);
      RunBatch(StepOf(schema, relation, tx), rows, Snapshot(s), |Snapshot(s)|).value == kept + added &&
      (forall r :: r in onPage ==> r in kept) &&
      StoredRows(relation, onPage) == ShownRows(schema, relation, s, page, |page.rows|) &&
      StoredRows(relation, added) == ShownDrafts(schema, relation, s, page, |s.inserts|)
  {
    ApplyLeavesStagedRows(schema, relation, s, rows, tx);
    PartStays(schema, relation, s, rows, shown, tx);
    WholePageShowsResult(schema, driver, relation, s, rows, shown, tx, page);
    AllDraftsShowResult(schema, relation, s, rows, tx, page);
  }

  /** The readable columns without a staged value are the same in both rows. */
  predicate UnstagedAgree(relation: Relation, s: Staged, key: string, fetched: DbRow, row: DbRow) {
    forall i :: 0 <= i < |relation.columns| ==>
      var c := relation.columns[i].name;
      (key in s.updates && c in s.updates[key].values) || Value(fetched, c) == Value(row, c)
  }

  lemma ChangedRowShown(
    schema: Schema, driver: Driver, relation: Relation, s: Staged, fetched: DbRow, row: DbRow, tx: nat, ref: RowRef)
    requires !ref.insert && ref.key == KeyOfRow(relation, fetched) == KeyOfRow(relation, row)
    requires ref.row == FetchedRow(driver, relation, fetched)
    requires ref.key !in s.deletes && (ref.key in s.updates ==> AllCast(schema, s.updates[ref.key].values))
    ensures StagedRow(schema, relation, s, row, tx).Some?
    ensures
      ShownRow(schema, relation, s, ref) == StoredRow(relation, StagedRow(schema, relation, s, row, tx).value) <==>
      UnstagedAgree(relation, s, ref.key, fetched, row)
  {
    var stored := StoredRow(relation, StagedRow(schema, relation, s, row, tx).value);
    var shown := ShownRow(schema, relation, s, ref);
    forall i | 0 <= i < |relation.columns|
      ensures shown[i] == stored[i] <==>
              var c := relation.columns[i].name;
              (ref.key in s.updates && c in s.updates[ref.key].values) || Value(fetched, c) == Value(row, c)
    {
      ChangedCellShown(schema, driver, relation, s, fetched, row, tx, ref, i);
    }
  }

  lemma ChangedCellShown(
    schema: Schema, driver: Driver, relation: Relation, s: Staged, fetched: DbRow, row: DbRow, tx: nat, ref: RowRef,
    i: nat)
    requires !ref.insert && ref.key == KeyOfRow(relation, row) && i < |relation.columns|
    requires ref.row == FetchedRow(driver, relation, fetched)
    requires ref.key !in s.deletes && (ref.key in s.updates ==> AllCast(schema, s.updates[ref.key].values))
    ensures
      var c := relation.columns[i].name;
      Meaning(schema, relation, s, ref, i) == Some(Value(StagedRow(schema, relation, s, row, tx).value, c)) <==>
      (ref.key in s.updates && c in s.updates[ref.key].values) || Value(fetched, c) == Value(row, c)
  {
  }

  /** A page row that has been changed since it was fetched, but not by a staged change: the
      grid shows what the table has after the apply if and only if the row carries a tombstone
      or the columns without a staged value still are as fetched. */
  lemma ChangedPageRow(
    schema: Schema, driver: Driver, relation: Relation, s: Staged, rows: seq<DbRow>, shown: seq<DbRow>, tx: nat,
    page: Page, k: nat, row: DbRow)
    requires Runs(schema, relation, s, rows, tx) && page.rows == FetchedRows(driver, relation, shown) && k < |shown|
    requires row in rows && KeyOfRow(relation, row) == KeyOfRow(relation, shown[k])
    ensures ShownAt(schema, relation, s, page, k) == StoredAt(schema, relation, s, row, tx) <==>
            KeyOfRow(relation, row) in s.deletes ||
            UnstagedAgree(relation, s, KeyOfRow(relation, row), shown[k], row)
  {
    var ref := RowReferenceAt(relation, s, page, |s.inserts| + k).value;
    assert ref.row == FetchedRow(driver, relation, shown[k]);
    if ref.key !in s.deletes {
      if ref.key in s.updates { UpdateIsCast(schema, relation, s, rows, tx, ref.key); }
      ChangedRowShown(schema, driver, relation, s, shown[k], row, tx, ref);
      assert ShownAt(schema, relation, s, page, k) == [ShownRow(schema, relation, s, ref)];
    }
  }

  /** A page that holds the whole table shows the whole result. */
  lemma WholeTableShown(
    schema: Schema, driver: Driver, relation: Relation, s: Staged, rows: seq<DbRow>, tx: nat, page: Page)
    requires Runs(schema, relation, s, rows, tx) && ColumnNames(relation.columns) <= schema.columns
    requires page.rows == FetchedRows(driver, relation, rows)
    ensures StoredRows(relation, RunBatch(StepOf(schema, relation, tx), rows, Snapshot(s), |Snapshot(s)|).value) ==
      ShownRows(schema, relation, s, page, |page.rows|) + ShownDrafts(schema, relation, s, page, |s.inserts|)
  {
    GridShowsWhatApplyDoes(schema, driver, relation, s, rows, rows, tx, page);
    StoredConcat(relation, StagedRows(schema, relation, s, rows, tx), DraftRows(schema, s.inserts, tx, |s.inserts|));
  }

  // ----- the counts reported -----

  lemma RowMutationKind(relation: Relation, s: Staged, i: nat)
    requires Consistent(relation, s) && i < |RowKeys(s)|
    ensures |RowMutations(s)| == |RowKeys(s)|
    ensures RowMutations(s)[i].kind == if i < |DeleteKeys(s)| then DeleteRow else UpdateRow
  {
    RowMutationAt(s, i);
    var key := RowKeys(s)[i];
    if i < |DeleteKeys(s)| { assert DeleteEntry(relation, key, s.deletes[key]); }
    else { assert UpdateEntry(relation, key, s.updates[key]); }
  }

  lemma SnapshotKinds(relation: Relation, s: Staged, i: nat)
    requires Consistent(relation, s) && i < |Snapshot(s)|
    ensures Snapshot(s)[i].kind ==
      if i < |DeleteKeys(s)| then DeleteRow else if i < |RowKeys(s)| then UpdateRow else MutationKind.InsertRow
  {
    if i < |RowKeys(s)| {
      RowMutationKind(relation, s, i);
      assert Snapshot(s)[i] == RowMutations(s)[i];
    } else {
      SnapshotShape(s);
      assert Snapshot(s)[i] == Snapshot(s)[|RowKeys(s)|..][i - |RowKeys(s)|];
      assert DraftEntry(relation, s.inserts[i - |RowKeys(s)|]);
    }
  }

  lemma CountsOfKinds(mutations: seq<Mutation>, d: nat, u: nat, i: nat)
    requires |mutations| == d + u + i
    requires forall j :: 0 <= j < |mutations| ==>
      mutations[j].kind == if j < d then DeleteRow else if j < d + u then UpdateRow else MutationKind.InsertRow
    ensures KindCounts(mutations, |mutations|) == ApplyResult(i, u, d)
  {
    CountsOf(mutations, 0, ApplyResult(0, 0, 0), DeleteRow, d);
    CountsOf(mutations, d, ApplyResult(0, 0, d), UpdateRow, u);
    CountsOf(mutations, d + u, ApplyResult(0, u, d), MutationKind.InsertRow, i);
  }

  lemma SnapshotCounts(relation: Relation, s: Staged)
    requires Consistent(relation, s)
    ensures KindCounts(Snapshot(s), |Snapshot(s)|) ==
      ApplyResult(|s.inserts|, |s.updates.Keys - s.deletes.Keys|, |s.deletes|)
  {
    var d, u := |DeleteKeys(s)|, |UpdateKeys(s)|;
    forall j | 0 <= j < |Snapshot(s)|
      ensures Snapshot(s)[j].kind ==
        if j < d then DeleteRow else if j < d + u then UpdateRow else MutationKind.InsertRow
    {
      SnapshotKinds(relation, s, j);
    }
    CountsOfKinds(Snapshot(s), d, u, |s.inserts|);
    KeyListsFacts(s);
    DistinctCount(UpdateKeys(s), s.updates.Keys - s.deletes.Keys);
  }

  /** When the apply of a snapshot reports success, the table is as staged and the counts are
      those of the drafts, of the updates not shadowed by a tombstone, and of the tombstones. */
  lemma AppliedSnapshot(schema: Schema, relation: Relation, s: Staged, rows: seq<DbRow>, tx: nat, commit: Commit)
    requires Consistent(relation, s) && WellFormedOriginals(s) && LoadedBefore(s, tx) &&
      WellFormedTable(relation, rows, tx)
    requires ApplyTo(schema, relation, rows, tx, Snapshot(s), true, commit).0.Applied?
    ensures
      var (outcome, after) := ApplyTo(schema, relation, rows, tx, Snapshot(s), true, commit);
      outcome.result == ApplyResult(|s.inserts|, |s.updates.Keys - s.deletes.Keys|, |s.deletes|) &&
      after == StagedRows(schema, relation, s, rows, tx) + DraftRows(schema, s.inserts, tx, |s.inserts|)
  {
    SnapshotCounts(relation, s);
    ApplyLeavesStagedRows(schema, relation, s, rows, tx);
  }
}
