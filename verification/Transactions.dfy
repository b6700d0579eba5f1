/** Executing rendered statements on a table, and applying a staged batch in one transaction. */
module Transactions {
  import opened Relations
  import opened GridData
  import opened Statements

  /** A stored row; a transaction stamps every row it writes with its own number. */
  datatype DbRow = DbRow(values: map<string, Raw>, xmin: nat)

  /** The table's columns, PostgreSQL's casts of text to a column type, the column defaults,
      and what constraints accept. */
  datatype Schema = Schema(
    columns: set<string>, cast: (string, string) -> Option<Raw>, defaults: string -> Raw, accepts: seq<DbRow> -> bool)

  datatype Executed = Rejected | Done(rows: seq<DbRow>, affected: nat)

  function Value(row: DbRow, column: string): Raw {
    if column in row.values then row.values[column] else NIL
  }

  // ----- executing a statement -----

  function BoundValue(schema: Schema, column: string, expression: Expression, args: seq<Arg>): Option<Raw> {
    if expression.DefaultExpression? then Some(schema.defaults(column))
    else if !(1 <= expression.n <= |args|) then None
    else
      match args[expression.n - 1]
      case NullArg => Some(NIL)
      case TextArg(text) => schema.cast(column, text)
      case ValueArg(value) => Some(value)
      case XMinArg(_) => None
  }

  /** The values a list of assignments writes, unless some value has no cast. */
  function Bind(schema: Schema, assignments: seq<Assignment>, args: seq<Arg>): Option<map<string, Raw>> {
    if assignments == [] then Some(map[])
    else
      var last := assignments[|assignments| - 1];
      var before := Bind(schema, assignments[..|assignments| - 1], args);
      var value := BoundValue(schema, last.column, last.expression, args);
      if before.None? || value.None? then None else Some(before.value[last.column := value.value])
  }

  predicate Holds(condition: Condition, row: DbRow, args: seq<Arg>) {
    1 <= condition.n <= |args| &&
    match condition
    case NotDistinctFrom(column, n) => args[n - 1] == ValueArg(Value(row, column))
    case XMinEquals(n) => args[n - 1] == XMinArg(row.xmin)
  }

  predicate HoldAll(conditions: seq<Condition>, row: DbRow, args: seq<Arg>) {
    forall i :: 0 <= i < |conditions| ==> Holds(conditions[i], row, args)
  }

  function NewRow(schema: Schema, values: map<string, Raw>, tx: nat): DbRow {
    DbRow(map c | c in schema.columns :: if c in values then values[c] else schema.defaults(c), tx)
  }

  function Written(row: DbRow, values: map<string, Raw>, tx: nat): DbRow { DbRow(row.values + values, tx) }

  /** Rows that a statement leaves alone, rewrites or (`change` is None) removes. */
  function Rewrite(rows: seq<DbRow>, selects: DbRow -> bool, change: Option<map<string, Raw>>, tx: nat): seq<DbRow> {
    if rows == [] then []
    else
      var row := rows[|rows| - 1];
      var before := Rewrite(rows[..|rows| - 1], selects, change, tx);
      if !selects(row) then before + [row]
      else if change.Some? then before + [Written(row, change.value, tx)]
      else before
  }

  function Count(rows: seq<DbRow>, selects: DbRow -> bool): nat {
    if rows == [] then 0
    else Count(rows[..|rows| - 1], selects) + if selects(rows[|rows| - 1]) then 1 else 0
  }

  function Checked(schema: Schema, rows: seq<DbRow>, affected: nat): Executed {
    if schema.accepts(rows) then Done(rows, affected) else Rejected
  }

  /** A prepared statement must use every parameter it binds, and bind every one it uses. */
  predicate ParametersFit(p: Prepared) {
    var used := Placeholders(p.statement);
    (forall i :: 0 <= i < |used| ==> 1 <= used[i] <= |p.args|) && forall k :: 1 <= k <= |p.args| ==> k in used
  }

  function Exec(schema: Schema, rows: seq<DbRow>, tx: nat, p: Prepared): Executed {
    if !ParametersFit(p) then Rejected
    else
      match p.statement
      case InsertDefaults => Checked(schema, rows + [NewRow(schema, map[], tx)], 1)
      case Insert(assignments) =>
        var values := Bind(schema, assignments, p.args);
        if values.None? then Rejected else Checked(schema, rows + [NewRow(schema, values.value, tx)], 1)
      case Update(assignments, conditions) =>
        var values := Bind(schema, assignments, p.args);
        var selects := row => HoldAll(conditions, row, p.args);
        if values.None? then Rejected else Checked(schema, Rewrite(rows, selects, values, tx), Count(rows, selects))
      case Delete(conditions) =>
        var selects := row => HoldAll(conditions, row, p.args);
        Checked(schema, Rewrite(rows, selects, None, tx), Count(rows, selects))
  }

  // ----- what a staged mutation is meant to do -----

  /** The row is the mutation's original row: same identity, same version. */
  predicate Targets(relation: Relation, m: Mutation, row: DbRow) {
    row.xmin == m.original.xmin &&
    forall c :: c in relation.identity ==> Value(row, c) == IdentityValue(m.original.identity, c)
  }

  function StagedRaw(schema: Schema, column: string, value: StagedValue): Option<Raw> {
    match value
    case NullValue => Some(NIL)
    case DefaultValue => Some(schema.defaults(column))
    case Text(text) => schema.cast(column, text)
  }

  predicate AllCast(schema: Schema, values: map<string, StagedValue>) {
    forall c :: c in values ==> StagedRaw(schema, c, values[c]).Some?
  }

  function StagedRaws(schema: Schema, values: map<string, StagedValue>): map<string, Raw>
    requires AllCast(schema, values)
  {
    map c | c in values :: StagedRaw(schema, c, values[c]).value
  }

  function Effect(schema: Schema, relation: Relation, rows: seq<DbRow>, tx: nat, m: Mutation): Executed {
    var targets := row => Targets(relation, m, row);
    match m.kind
    case DeleteRow => Checked(schema, Rewrite(rows, targets, None, tx), Count(rows, targets))
    case UpdateRow =>
      if !AllCast(schema, m.values) then Rejected
      else Checked(schema, Rewrite(rows, targets, Some(StagedRaws(schema, m.values)), tx), Count(rows, targets))
    case InsertRow =>
      if !AllCast(schema, m.values) then Rejected
      else Checked(schema, rows + [NewRow(schema, StagedRaws(schema, m.values), tx)], 1)
    case UnknownKind(_) => Rejected
  }

  // ----- rendered statements do what is staged -----

  lemma LinedUpFits(p: Prepared)
    requires LinedUp(p)
    ensures ParametersFit(p)
  {
    var used := Placeholders(p.statement);
    forall k | 1 <= k <= |p.args| ensures k in used {
      assert used[k - 1] == k;
    }
  }

  lemma BoundIsStaged(schema: Schema, columns: seq<Column>, values: map<string, StagedValue>, k: nat, args: seq<Arg>)
    requires k < |columns| && Args(columns, values, k + 1) <= args
    ensures
      var a := AssignmentAt(columns, values, k);
      BoundValue(schema, a.column, a.expression, args) == StagedRaw(schema, a.column, ValueOf(values, a.column))
  {
  }

  lemma BindLast(schema: Schema, before: seq<Assignment>, last: Assignment, args: seq<Arg>)
    ensures
      var value := BoundValue(schema, last.column, last.expression, args);
      var bound := Bind(schema, before, args);
      Bind(schema, before + [last], args) ==
        if bound.None? || value.None? then None else Some(bound.value[last.column := value.value])
  {
  }

  ghost predicate BoundTo(
    schema: Schema, values: map<string, StagedValue>, names: set<string>, bound: Option<map<string, Raw>>) {
    (bound.Some? <==> forall c :: c in names ==> StagedRaw(schema, c, ValueOf(values, c)).Some?) &&
    (bound.Some? ==> bound.value.Keys == names &&
                     forall c :: c in names ==> bound.value[c] == StagedRaw(schema, c, ValueOf(values, c)).value)
  }

  lemma {:induction false} BindsStaged(
    schema: Schema, columns: seq<Column>, values: map<string, StagedValue>, n: nat, args: seq<Arg>)
    requires n <= |columns| && Args(columns, values, n) <= args
    ensures BoundTo(schema, values, ColumnNames(columns[..n]), Bind(schema, Assignments(columns, values, n), args))
  {
    if n > 0 {
      assert Args(columns, values, n - 1) <= args;
      BindsStaged(schema, columns, values, n - 1, args);
      BoundIsStaged(schema, columns, values, n - 1, args);
      BindLast(schema, Assignments(columns, values, n - 1), AssignmentAt(columns, values, n - 1), args);
      NamesOfFront(columns, n);
      BoundToLast(schema, values, ColumnNames(columns[..n - 1]), columns[n - 1].name,
                  Bind(schema, Assignments(columns, values, n - 1), args));
    }
  }

  lemma BoundToLast(
    schema: Schema, values: map<string, StagedValue>, names: set<string>, column: string,
    bound: Option<map<string, Raw>>)
    requires BoundTo(schema, values, names, bound)
    ensures
      var value := StagedRaw(schema, column, ValueOf(values, column));
      BoundTo(schema, values, names + {column},
              if bound.None? || value.None? then None else Some(bound.value[column := value.value]))
  {
  }

  lemma NamesOfFront(columns: seq<Column>, n: nat)
    requires 0 < n <= |columns|
    ensures ColumnNames(columns[..n]) == ColumnNames(columns[..n - 1]) + {columns[n - 1].name}
  {
  }

  lemma BindsAllStaged(schema: Schema, relation: Relation, values: map<string, StagedValue>, more: seq<Arg>)
    ensures
      var columns := OrderedColumns(relation, values);
      Bind(schema, Assignments(columns, values, |columns|), Args(columns, values, |columns|) + more) ==
        if AllCast(schema, values) then Some(StagedRaws(schema, values)) else None
  {
    var columns := OrderedColumns(relation, values);
    BindsStaged(schema, columns, values, |columns|, Args(columns, values, |columns|) + more);
    OrderedColumnsAreTheValues(relation, values);
    assert columns[..|columns|] == columns;
    var bound := Bind(schema, Assignments(columns, values, |columns|), Args(columns, values, |columns|) + more);
    if bound.Some? { assert bound.value == StagedRaws(schema, values); }
  }

  lemma {:induction false} IdentityConditionAt(
    names: seq<string>, first: nat, identity: map<string, Raw>, n: nat, i: nat)
    requires i < n <= |names|
    ensures IdentityConditions(names, first, n)[i] == NotDistinctFrom(names[i], first + i)
    ensures IdentityArgs(names, identity, n)[i] == ValueArg(IdentityValue(identity, names[i]))
  {
    if i < n - 1 { IdentityConditionAt(names, first, identity, n - 1, i); }
  }

  /** The condition on a row's identity and version, with its arguments after `before`. */
  lemma ConditionMeans(names: seq<string>, original: Row, before: seq<Arg>, row: DbRow, i: nat)
    requires i <= |names|
    ensures |Conditions(names, |before| + 1)| == |names| + 1
    ensures Holds(Conditions(names, |before| + 1)[i], row, before + TokenArgs(names, original)) <==>
            if i < |names| then Value(row, names[i]) == IdentityValue(original.identity, names[i])
            else row.xmin == original.xmin
  {
    var first := |before| + 1;
    var args := before + TokenArgs(names, original);
    assert args[|before| + i] == TokenArgs(names, original)[i];
    if i < |names| { IdentityConditionAt(names, first, original.identity, |names|, i); }
  }

  lemma TokenSelectsTarget(relation: Relation, m: Mutation, before: seq<Arg>, row: DbRow)
    ensures
      HoldAll(Conditions(relation.identity, |before| + 1), row, before + TokenArgs(relation.identity, m.original)) <==>
            Targets(relation, m, row)
  {
    var names := relation.identity;
    var conditions := Conditions(names, |before| + 1);
    var args := before + TokenArgs(names, m.original);
    forall i | 0 <= i <= |names|
      ensures Holds(conditions[i], row, args) <==>
              if i < |names| then Value(row, names[i]) == IdentityValue(m.original.identity, names[i])
              else row.xmin == m.original.xmin
    {
      ConditionMeans(names, m.original, before, row, i);
    }
    if Targets(relation, m, row) {
      forall i | 0 <= i < |conditions| ensures Holds(conditions[i], row, args) {
        if i < |names| { assert names[i] in relation.identity; }
      }
    }
    if HoldAll(conditions, row, args) {
      assert Holds(conditions[|names|], row, args);
      forall c | c in names ensures Value(row, c) == IdentityValue(m.original.identity, c) {
        var i :| 0 <= i < |names| && names[i] == c;
        assert Holds(conditions[i], row, args);
      }
    }
  }

  lemma {:induction false} SameSelection(
    rows: seq<DbRow>, p: DbRow -> bool, q: DbRow -> bool, change: Option<map<string, Raw>>, tx: nat)
    requires forall r :: p(r) == q(r)
    ensures Rewrite(rows, p, change, tx) == Rewrite(rows, q, change, tx) && Count(rows, p) == Count(rows, q)
  {
    if rows != [] { SameSelection(rows[..|rows| - 1], p, q, change, tx); }
  }

  lemma DeleteDoesWhatIsStaged(schema: Schema, relation: Relation, rows: seq<DbRow>, tx: nat, m: Mutation)
    requires m.kind == DeleteRow && StatementFor(relation, m).Success?
    ensures Exec(schema, rows, tx, StatementFor(relation, m).value) == Effect(schema, relation, rows, tx, m)
  {
    var p := StatementFor(relation, m).value;
    PlaceholdersLineUp(relation, m);
    LinedUpFits(p);
    var selects := row => HoldAll(p.statement.where, row, p.args);
    var targets := row => Targets(relation, m, row);
    assert p.args == [] + TokenArgs(relation.identity, m.original);
    forall row ensures selects(row) == targets(row) { TokenSelectsTarget(relation, m, [], row); }
    SameSelection(rows, selects, targets, None, tx);
  }

  lemma UpdateDoesWhatIsStaged(schema: Schema, relation: Relation, rows: seq<DbRow>, tx: nat, m: Mutation)
    requires m.kind == UpdateRow && StatementFor(relation, m).Success?
    ensures Exec(schema, rows, tx, StatementFor(relation, m).value) == Effect(schema, relation, rows, tx, m)
  {
    var p := StatementFor(relation, m).value;
    PlaceholdersLineUp(relation, m);
    LinedUpFits(p);
    var columns := OrderedColumns(relation, m.values);
    var args := Args(columns, m.values, |columns|);
    BindsAllStaged(schema, relation, m.values, TokenArgs(relation.identity, m.original));
    var selects := row => HoldAll(p.statement.where, row, p.args);
    var targets := row => Targets(relation, m, row);
    forall row ensures selects(row) == targets(row) { TokenSelectsTarget(relation, m, args, row); }
    if AllCast(schema, m.values) { SameSelection(rows, selects, targets, Some(StagedRaws(schema, m.values)), tx); }
  }

  lemma InsertDoesWhatIsStaged(schema: Schema, relation: Relation, rows: seq<DbRow>, tx: nat, m: Mutation)
    requires m.kind == MutationKind.InsertRow && StatementFor(relation, m).Success?
    ensures Exec(schema, rows, tx, StatementFor(relation, m).value) == Effect(schema, relation, rows, tx, m)
  {
    var p := StatementFor(relation, m).value;
    PlaceholdersLineUp(relation, m);
    LinedUpFits(p);
    var columns := OrderedColumns(relation, m.values);
    var args := Args(columns, m.values, |columns|);
    BindsAllStaged(schema, relation, m.values, []);
    assert args + [] == args;
    if columns == [] {
      OrderedColumnsAreTheValues(relation, m.values);
      assert m.values == map[];
      assert StagedRaws(schema, m.values) == map[];
    }
  }

  /** Executing a rendered statement does exactly what the mutation stages: text is cast,
      NULL is null, DEFAULT is the default, and only the row with the original identity and
      xmin is touched. */
  lemma StatementDoesWhatIsStaged(schema: Schema, relation: Relation, rows: seq<DbRow>, tx: nat, m: Mutation)
    requires StatementFor(relation, m).Success?
    ensures Exec(schema, rows, tx, StatementFor(relation, m).value) == Effect(schema, relation, rows, tx, m)
  {
    match m.kind
    case DeleteRow => DeleteDoesWhatIsStaged(schema, relation, rows, tx, m);
    case UpdateRow => UpdateDoesWhatIsStaged(schema, relation, rows, tx, m);
    case InsertRow => InsertDoesWhatIsStaged(schema, relation, rows, tx, m);
    case UnknownKind(_) =>
  }
}
