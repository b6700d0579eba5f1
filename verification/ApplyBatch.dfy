/** Applying a staged batch: one transaction, all or nothing, guarded by identity and xmin. */
module ApplyBatch {
  import opened Relations
  import opened GridData
  import opened Statements
  import opened Transactions

  /** How the server answers COMMIT; when the answer is lost the batch may or may not be kept. */
  datatype Commit = Committed | RolledBack | Lost(kept: bool)

  datatype Outcome =
    | Applied(result: ApplyResult)
    | Refused(error: ApplyError)
    | NotBegun
    | Failed(index: nat, error: ApplyError)
    | RolledBackOnCommit
    | Uncertain

  // ----- what Apply computes -----

  function Refusal(relation: Relation, mutations: seq<Mutation>): Option<ApplyError> {
    if relation.id == NO_RELATION || mutations == [] then Some(EmptyRequest)
    else if relation.kind != RelationKind.Table && relation.kind != PartitionedTable then Some(NotATable)
    else if relation.identity == [] || !relation.hasXMin then Some(NoConcurrencyToken)
    else None
  }

  function OneRow(done: Executed): Result<seq<DbRow>, ApplyError> {
    if done.Rejected? then Failure(RejectedByServer)
    else if done.affected == 0 then Failure(RowConflict)
    else if done.affected != 1 then Failure(MatchedManyRows)
    else Success(done.rows)
  }

  ghost function RunMutation(schema: Schema, relation: Relation, rows: seq<DbRow>, tx: nat, m: Mutation)
    : Result<seq<DbRow>, ApplyError>
  {
    var p := StatementFor(relation, m);
    if p.Failure? then Failure(p.error) else OneRow(Exec(schema, rows, tx, p.value))
  }

  /** One mutation of a transaction: from a table to the next, or an error. */
  type Step = (seq<DbRow>, Mutation) -> Result<seq<DbRow>, ApplyError>

  ghost function StepOf(schema: Schema, relation: Relation, tx: nat): Step {
    (rows, m) => RunMutation(schema, relation, rows, tx, m)
  }

  /** The table after the first `n` mutations, or the first that failed and why. */
  ghost function RunBatch(
    step: Step, rows: seq<DbRow>, mutations: seq<Mutation>, n: nat): Result<seq<DbRow>, (nat, ApplyError)>
    requires n <= |mutations|
  {
    if n == 0 then Success(rows)
    else
      var before := RunBatch(step, rows, mutations, n - 1);
      if before.Failure? then before
      else
        var after := step(before.value, mutations[n - 1]);
        if after.Failure? then Failure((n - 1, after.error)) else Success(after.value)
  }

  function Counted(counts: ApplyResult, kind: MutationKind): ApplyResult {
    match kind
    case InsertRow => counts.(inserted := counts.inserted + 1)
    case UpdateRow => counts.(updated := counts.updated + 1)
    case DeleteRow => counts.(deleted := counts.deleted + 1)
    case UnknownKind(_) => counts
  }

  function KindCounts(mutations: seq<Mutation>, n: nat): ApplyResult
    requires n <= |mutations|
  {
    if n == 0 then ApplyResult(0, 0, 0) else Counted(KindCounts(mutations, n - 1), mutations[n - 1].kind)
  }

  /** The outcome of an apply and the table it leaves. */
  ghost function ApplyTo(schema: Schema, relation: Relation, rows: seq<DbRow>, tx: nat, mutations: seq<Mutation>,
                         begins: bool, commit: Commit): (Outcome, seq<DbRow>)
  {
    var refusal := Refusal(relation, mutations);
    var batch := RunBatch(StepOf(schema, relation, tx), rows, mutations, |mutations|);
    if refusal.Some? then (Refused(refusal.value), rows)
    else if !begins then (NotBegun, rows)
    else if batch.Failure? then (Failed(batch.error.0, batch.error.1), rows)
    else
      match commit
      case Committed => (Applied(KindCounts(mutations, |mutations|)), batch.value)
      case RolledBack => (RolledBackOnCommit, rows)
      case Lost(kept) => (Uncertain, if kept then batch.value else rows)
  }

  // ----- the database and its one open transaction -----

  class Database {
    const schema: Schema
    var rows: seq<DbRow>
    var work: seq<DbRow>
    var tx: nat
    var nextTx: nat

    /** Transaction numbers are not reused. */
    ghost predicate Valid()
      reads this
    {
      forall i :: 0 <= i < |rows| ==> rows[i].xmin < nextTx
    }

    constructor (schema: Schema)
      ensures Valid() && rows == [] && this.schema == schema
    {
      this.schema := schema;
      rows, work, tx, nextTx := [], [], 0, 1;
    }

    method Begin()
      modifies this
      ensures rows == old(rows) && work == rows && tx == old(nextTx) && nextTx == tx + 1
    {
      work := rows;
      tx := nextTx;
      nextTx := nextTx + 1;
    }

    /** Inside the transaction only its own work changes. */
    method Execute(p: Prepared) returns (done: Executed)
      modifies this`work
      ensures done == Exec(schema, old(work), tx, p)
      ensures work == if done.Done? then done.rows else old(work)
    {
      done := Exec(schema, work, tx, p);
      if done.Done? {
        work := done.rows;
      }
    }

    method CommitWork(commit: Commit)
      modifies this`rows
      ensures rows == if commit == Committed || commit == Lost(true) then work else old(rows)
    {
      if commit == Committed || commit == Lost(true) {
        rows := work;
      }
    }
  }

  method ApplyDelete(db: Database, relation: Relation, m: Mutation) returns (r: Option<ApplyError>)
    requires m.kind == DeleteRow
    modifies db`work
    ensures Ran(db.schema, relation, old(db.work), db.tx, m, r, db.work)
  {
    var p := RenderDelete(relation, m);
    if p.Failure? {
      return Some(p.error);
    }
    var done := db.Execute(p.value);
    r := ErrorOf(done);
  }

  method ApplyUpdate(db: Database, relation: Relation, m: Mutation) returns (r: Option<ApplyError>)
    requires m.kind == UpdateRow
    modifies db`work
    ensures Ran(db.schema, relation, old(db.work), db.tx, m, r, db.work)
  {
    var p := RenderUpdate(relation, m);
    if p.Failure? {
      return Some(p.error);
    }
    var done := db.Execute(p.value);
    r := ErrorOf(done);
  }

  method ApplyInsert(db: Database, relation: Relation, m: Mutation) returns (r: Option<ApplyError>)
    requires m.kind == MutationKind.InsertRow
    modifies db`work
    ensures Ran(db.schema, relation, old(db.work), db.tx, m, r, db.work)
  {
    var p := RenderInsert(relation, m);
    if p.Failure? {
      return Some(p.error);
    }
    var done := db.Execute(p.value);
    r := ErrorOf(done);
  }

  function ErrorOf(done: Executed): Option<ApplyError> {
    var r := OneRow(done);
    if r.Failure? then Some(r.error) else None
  }

  ghost predicate Ran(schema: Schema, relation: Relation, before: seq<DbRow>, tx: nat, m: Mutation,
                      error: Option<ApplyError>, after: seq<DbRow>)
  {
    RunMutation(schema, relation, before, tx, m) == if error.Some? then Failure(error.value) else Success(after)
  }

  method ApplyOne(db: Database, relation: Relation, m: Mutation) returns (r: Option<ApplyError>)
    modifies db`work
    ensures Ran(db.schema, relation, old(db.work), db.tx, m, r, db.work)
  {
    match m.kind
    case DeleteRow => r := ApplyDelete(db, relation, m);
    case UpdateRow => r := ApplyUpdate(db, relation, m);
    case InsertRow => r := ApplyInsert(db, relation, m);
    case UnknownKind(_) => r := Some(InvalidKind);
  }

  method Apply(db: Database, relation: Relation, mutations: seq<Mutation>, begins: bool, commit: Commit)
    returns (outcome: Outcome)
    requires db.Valid()
    modifies db
    ensures db.Valid()
    ensures (outcome, db.rows) == ApplyTo(db.schema, relation, old(db.rows), old(db.nextTx), mutations, begins, commit)
  {
    var refusal := Refusal(relation, mutations);
    if refusal.Some? {
      return Refused(refusal.value);
    }
    if !begins {
      return NotBegun;
    }
    ghost var before, tx := db.rows, db.nextTx;
    db.Begin();
    var result := ApplyResult(0, 0, 0);
    for index := 0 to |mutations|
      invariant db.rows == before && db.tx == tx && db.nextTx == tx + 1
      invariant RunBatch(StepOf(db.schema, relation, tx), before, mutations, index) == Success(db.work)
      invariant result == KindCounts(mutations, index)
    {
      var mutation := mutations[index];
      var error := ApplyOne(db, relation, mutation);
      if error.Some? {
        FailureIsFinal(StepOf(db.schema, relation, tx), before, mutations, index + 1, |mutations|);
        return Failed(index, error.value);
      }
      result := Counted(result, mutation.kind);
    }
    BatchIsBounded(db.schema, relation, before, tx, mutations, |mutations|);
    db.CommitWork(commit);
    outcome := match commit
      case Committed => Applied(result)
      case RolledBack => RolledBackOnCommit
      case Lost(_) => Uncertain;
  }

  lemma {:induction false} FailureIsFinal(step: Step, rows: seq<DbRow>, mutations: seq<Mutation>, n: nat, k: nat)
    requires n <= k <= |mutations| && RunBatch(step, rows, mutations, n).Failure?
    ensures RunBatch(step, rows, mutations, k) == RunBatch(step, rows, mutations, n)
  {
    if n < k { FailureIsFinal(step, rows, mutations, n, k - 1); }
  }

  // ----- where the rows of a transaction come from -----

  /** Every row was there before or was written by this transaction. */
  ghost predicate From(rows: seq<DbRow>, before: seq<DbRow>, tx: nat) {
    forall r :: r in rows ==> r in before || r.xmin == tx
  }

  lemma {:induction false} RewriteFrom(
    rows: seq<DbRow>, before: seq<DbRow>, p: DbRow -> bool, change: Option<map<string, Raw>>, tx: nat)
    requires From(rows, before, tx)
    ensures From(Rewrite(rows, p, change, tx), before, tx)
  {
    if rows != [] {
      var front, last := rows[..|rows| - 1], rows[|rows| - 1];
      assert last in rows && forall r :: r in front ==> r in rows;
      RewriteFrom(front, before, p, change, tx);
    }
  }

  lemma MutationFrom(schema: Schema, relation: Relation, rows: seq<DbRow>, before: seq<DbRow>, tx: nat, m: Mutation)
    requires From(rows, before, tx) && RunMutation(schema, relation, rows, tx, m).Success?
    ensures From(RunMutation(schema, relation, rows, tx, m).value, before, tx)
  {
    StatementDoesWhatIsStaged(schema, relation, rows, tx, m);
    var targets := row => Targets(relation, m, row);
    match m.kind
    case DeleteRow => RewriteFrom(rows, before, targets, None, tx);
    case UpdateRow => RewriteFrom(rows, before, targets, Some(StagedRaws(schema, m.values)), tx);
    case _ =>
  }

  lemma {:induction false} BatchFrom(
    schema: Schema, relation: Relation, rows: seq<DbRow>, tx: nat, mutations: seq<Mutation>, n: nat)
    requires n <= |mutations| && RunBatch(StepOf(schema, relation, tx), rows, mutations, n).Success?
    ensures From(RunBatch(StepOf(schema, relation, tx), rows, mutations, n).value, rows, tx)
  {
    if n > 0 {
      BatchFrom(schema, relation, rows, tx, mutations, n - 1);
      MutationFrom(schema, relation, RunBatch(StepOf(schema, relation, tx), rows, mutations, n - 1).value, rows, tx,
        mutations[n - 1]);
    }
  }

  lemma BatchIsBounded(schema: Schema, relation: Relation, rows: seq<DbRow>, tx: nat, mutations: seq<Mutation>, n: nat)
    requires n <= |mutations| && RunBatch(StepOf(schema, relation, tx), rows, mutations, n).Success?
    requires forall i :: 0 <= i < |rows| ==> rows[i].xmin < tx
    ensures
      var after := RunBatch(StepOf(schema, relation, tx), rows, mutations, n).value;
      forall i :: 0 <= i < |after| ==> after[i].xmin < tx + 1
  {
    BatchFrom(schema, relation, rows, tx, mutations, n);
    var after := RunBatch(StepOf(schema, relation, tx), rows, mutations, n).value;
    forall i | 0 <= i < |after| ensures after[i].xmin < tx + 1 { assert after[i] in after; }
  }

  // ----- all or nothing -----

  lemma PrefixSucceeds(step: Step, rows: seq<DbRow>, mutations: seq<Mutation>, n: nat, k: nat)
    requires n <= k <= |mutations| && RunBatch(step, rows, mutations, k).Success?
    ensures RunBatch(step, rows, mutations, n).Success?
  {
  }

  lemma {:induction false} FirstFailure(step: Step, rows: seq<DbRow>, mutations: seq<Mutation>, n: nat)
    requires n <= |mutations| && RunBatch(step, rows, mutations, n).Failure?
    ensures
      var at := RunBatch(step, rows, mutations, n).error;
      at.0 < n && RunBatch(step, rows, mutations, at.0).Success? &&
      step(RunBatch(step, rows, mutations, at.0).value, mutations[at.0])
        == Failure(at.1)
  {
    if RunBatch(step, rows, mutations, n - 1).Failure? {
      FirstFailure(step, rows, mutations, n - 1);
    }
  }

  /** A batch takes effect completely or not at all: success leaves the table after every
      mutation; a failure leaves it untouched and names the first mutation that fails after all
      those before it succeeded; a lost commit confirmation leaves one of the two, nothing between. */
  lemma AllOrNothing(schema: Schema, relation: Relation, rows: seq<DbRow>, tx: nat, mutations: seq<Mutation>,
                     begins: bool, commit: Commit)
    ensures
      var (outcome, after) := ApplyTo(schema, relation, rows, tx, mutations, begins, commit);
      var batch := RunBatch(StepOf(schema, relation, tx), rows, mutations, |mutations|);
      (outcome.Applied? ==> batch == Success(after)) &&
      (outcome.Uncertain? ==> after == rows || batch == Success(after)) &&
      (!outcome.Applied? && !outcome.Uncertain? ==> after == rows) &&
      (outcome.Failed? ==>
         outcome.index < |mutations| &&
         var reached := RunBatch(StepOf(schema, relation, tx), rows, mutations, outcome.index);
         reached.Success? &&
         RunMutation(schema, relation, reached.value, tx, mutations[outcome.index]) == Failure(outcome.error))
  {
    if RunBatch(StepOf(schema, relation, tx), rows, mutations, |mutations|).Failure? {
      FirstFailure(StepOf(schema, relation, tx), rows, mutations, |mutations|);
    }
  }

  lemma {:induction false} CountedExists(rows: seq<DbRow>, p: DbRow -> bool)
    requires Count(rows, p) > 0
    ensures exists r :: r in rows && p(r)
  {
    var front, last := rows[..|rows| - 1], rows[|rows| - 1];
    if p(last) {
      assert last in rows;
    } else {
      CountedExists(front, p);
      var r :| r in front && p(r);
      assert r in rows;
    }
  }

  /** If a batch runs to its end, every update and delete in it found its original row, same
      identity and same xmin, in the table as it was when the transaction began: no row that
      an earlier mutation of the batch wrote ever stands in for it. */
  lemma BatchFindsOriginals(
    schema: Schema, relation: Relation, rows: seq<DbRow>, tx: nat, mutations: seq<Mutation>, i: nat)
    requires i < |mutations| && RunBatch(StepOf(schema, relation, tx), rows, mutations, |mutations|).Success?
    requires mutations[i].kind == UpdateRow || mutations[i].kind == DeleteRow
    requires mutations[i].original.xmin < tx
    ensures exists r :: r in rows && Targets(relation, mutations[i], r)
  {
    var m := mutations[i];
    PrefixSucceeds(StepOf(schema, relation, tx), rows, mutations, i + 1, |mutations|);
    PrefixSucceeds(StepOf(schema, relation, tx), rows, mutations, i, |mutations|);
    var before := RunBatch(StepOf(schema, relation, tx), rows, mutations, i).value;
    BatchFrom(schema, relation, rows, tx, mutations, i);
    MutationFindsOriginal(schema, relation, before, tx, m);
  }

  lemma MutationFindsOriginal(schema: Schema, relation: Relation, before: seq<DbRow>, tx: nat, m: Mutation)
    requires (m.kind == UpdateRow || m.kind == DeleteRow) && RunMutation(schema, relation, before, tx, m).Success?
    ensures exists r :: r in before && Targets(relation, m, r)
  {
    StatementDoesWhatIsStaged(schema, relation, before, tx, m);
    var targets := row => Targets(relation, m, row);
    assert Count(before, targets) == 1;
    CountedExists(before, targets);
  }

  /** One row changed or deleted since it was loaded fails the whole batch. */
  lemma StaleRowFailsBatch(schema: Schema, relation: Relation, rows: seq<DbRow>, tx: nat, mutations: seq<Mutation>,
                           begins: bool, commit: Commit, i: nat)
    requires i < |mutations| && (mutations[i].kind == UpdateRow || mutations[i].kind == DeleteRow)
    requires mutations[i].original.xmin < tx && forall r :: r in rows ==> !Targets(relation, mutations[i], r)
    ensures
      var (outcome, after) := ApplyTo(schema, relation, rows, tx, mutations, begins, commit);
      !outcome.Applied? && !outcome.Uncertain? && after == rows
  {
    if RunBatch(StepOf(schema, relation, tx), rows, mutations, |mutations|).Success? {
      BatchFindsOriginals(schema, relation, rows, tx, mutations, i);
    }
  }

  // ----- the counts -----

  lemma {:induction false} CountsOf(mutations: seq<Mutation>, n: nat, counts: ApplyResult, kind: MutationKind, k: nat)
    requires n + k <= |mutations| && KindCounts(mutations, n) == counts
    requires forall i :: n <= i < n + k ==> mutations[i].kind == kind
    ensures KindCounts(mutations, n + k) ==
      match kind
      case InsertRow => counts.(inserted := counts.inserted + k)
      case UpdateRow => counts.(updated := counts.updated + k)
      case DeleteRow => counts.(deleted := counts.deleted + k)
      case UnknownKind(_) => counts
    decreases k
  {
    if k > 0 { CountsOf(mutations, n, counts, kind, k - 1); }
  }
}
