/** The INSERT, UPDATE and DELETE statements that staged mutations are rendered to. */
module Statements {
  import opened Relations
  import opened GridData
  import opened StringOrder

  datatype ApplyError =
    | EmptyRequest
    | NotATable
    | NoConcurrencyToken
    | PermissionDenied
    | NotWritable(column: string)
    | NoChangedColumns
    | IncompleteIdentity
    | RejectedByServer
    | RowConflict
    | MatchedManyRows
    | InvalidKind

  /** What is bound to a placeholder. */
  datatype Arg = NullArg | TextArg(text: string) | ValueArg(value: Raw) | XMinArg(xmin: nat)

  datatype Expression = DefaultExpression | Placeholder(n: nat)

  datatype Condition = NotDistinctFrom(column: string, n: nat) | XMinEquals(n: nat)

  datatype Assignment = Assignment(column: string, expression: Expression)

  datatype Statement =
    | InsertDefaults
    | Insert(assignments: seq<Assignment>)
    | Update(assignments: seq<Assignment>, where: seq<Condition>)
    | Delete(where: seq<Condition>)

  datatype Prepared = Prepared(statement: Statement, args: seq<Arg>)

  // ----- the columns a mutation writes -----

  function UnknownColumn(name: string): Column {
    Column(name, 0, false, false, false, false, false, false, false)
  }

  /** The relation's columns, among the first `n`, that the values name. */
  function KnownColumns(columns: seq<Column>, values: map<string, StagedValue>, n: nat): seq<Column>
    requires n <= |columns|
  {
    if n == 0 then []
    else KnownColumns(columns, values, n - 1) + if columns[n - 1].name in values then [columns[n - 1]] else []
  }

  function UnknownColumns(names: seq<string>): (r: seq<Column>)
    ensures |r| == |names|
  {
    seq(|names|, i requires 0 <= i < |names| => UnknownColumn(names[i]))
  }

  /** The names of those columns. */
  function SeenNames(columns: seq<Column>, values: map<string, StagedValue>, n: nat): set<string>
    requires n <= |columns|
  {
    if n == 0 then {}
    else SeenNames(columns, values, n - 1) + if columns[n - 1].name in values then {columns[n - 1].name} else {}
  }

  function Unseen(relation: Relation, values: map<string, StagedValue>): set<string> {
    values.Keys - SeenNames(relation.columns, values, |relation.columns|)
  }

  ghost function OrderedColumns(relation: Relation, values: map<string, StagedValue>): seq<Column> {
    KnownColumns(relation.columns, values, |relation.columns|) + UnknownColumns(SortedStrings(Unseen(relation, values)))
  }

  /** The columns of the values in relation order, names the relation lacks last and sorted. */
  method OrderedMutationColumns(relation: Relation, values: map<string, StagedValue>) returns (columns: seq<Column>)
    ensures columns == OrderedColumns(relation, values)
  {
    columns := [];
    var seen: set<string> := {};
    for i := 0 to |relation.columns|
      invariant columns == KnownColumns(relation.columns, values, i)
      invariant seen == SeenNames(relation.columns, values, i)
    {
      var column := relation.columns[i];
      if column.name in values {
        columns := columns + [column];
        seen := seen + {column.name};
      }
    }
    SeenNamesAreKnown(relation.columns, values, |relation.columns|);
    if |seen| != |values| {
      var unknown := values.Keys - seen;
      var names := SortStrings(unknown);
      var rest := UnknownColumnsOf(names);
      columns := columns + rest;
    } else {
      SameSizeSubset(seen, values.Keys);
      assert Unseen(relation, values) == {};
    }
  }

  method UnknownColumnsOf(names: seq<string>) returns (columns: seq<Column>)
    ensures columns == UnknownColumns(names)
  {
    columns := [];
    for i := 0 to |names|
      invariant columns == UnknownColumns(names[..i])
    {
      columns := columns + [UnknownColumn(names[i])];
    }
    assert names[..|names|] == names;
  }

  lemma SameSizeSubset(a: set<string>, b: set<string>)
    requires a <= b && |a| == |b|
    ensures a == b
  {
    assert |b - a| == |b| - |a|;
  }

  lemma {:induction false} SeenNamesAreKnown(columns: seq<Column>, values: map<string, StagedValue>, n: nat)
    requires n <= |columns|
    ensures ColumnNames(KnownColumns(columns, values, n)) == SeenNames(columns, values, n) <= values.Keys
    ensures forall c :: c in KnownColumns(columns, values, n) ==> c in columns
  {
    if n > 0 {
      SeenNamesAreKnown(columns, values, n - 1);
      if columns[n - 1].name in values { NamesOfConcat(KnownColumns(columns, values, n - 1), [columns[n - 1]]); }
    }
  }

  lemma NamesOfConcat(a: seq<Column>, b: seq<Column>)
    ensures ColumnNames(a + b) == ColumnNames(a) + ColumnNames(b)
  {
  }

  lemma UnknownNames(names: seq<string>)
    ensures forall name :: name in ColumnNames(UnknownColumns(names)) <==> name in names
  {
    forall name ensures name in ColumnNames(UnknownColumns(names)) <==> name in names {
      if name in names {
        var i :| 0 <= i < |names| && names[i] == name;
        assert UnknownColumns(names)[i] in UnknownColumns(names);
      }
    }
  }

  /** Exactly the columns named in the values are written. */
  lemma OrderedColumnsAreTheValues(relation: Relation, values: map<string, StagedValue>)
    ensures ColumnNames(OrderedColumns(relation, values)) == values.Keys
  {
    var names := SortedStrings(Unseen(relation, values));
    SortedStringsFacts(Unseen(relation, values));
    SeenNamesAreKnown(relation.columns, values, |relation.columns|);
    UnknownNames(names);
    NamesOfConcat(KnownColumns(relation.columns, values, |relation.columns|), UnknownColumns(names));
  }

  // ----- expressions and their arguments -----

  function ValueArgOf(value: StagedValue): Arg
    requires value != DefaultValue
  {
    if value.NullValue? then NullArg else TextArg(value.text)
  }

  function MutationExpression(value: StagedValue, parameter: nat): (Expression, seq<Arg>) {
    if value == DefaultValue then (DefaultExpression, []) else (Placeholder(parameter), [ValueArgOf(value)])
  }

  function ValueOf(values: map<string, StagedValue>, name: string): StagedValue {
    if name in values then values[name] else Text("")
  }

  function Args(columns: seq<Column>, values: map<string, StagedValue>, n: nat): seq<Arg>
    requires n <= |columns|
  {
    if n == 0 then []
    else
      var args := Args(columns, values, n - 1);
      args + MutationExpression(ValueOf(values, columns[n - 1].name), |args| + 1).1
  }

  function AssignmentAt(columns: seq<Column>, values: map<string, StagedValue>, k: nat): Assignment
    requires k < |columns|
  {
    Assignment(columns[k].name, MutationExpression(ValueOf(values, columns[k].name), |Args(columns, values, k)| + 1).0)
  }

  function Assignments(columns: seq<Column>, values: map<string, StagedValue>, n: nat): (r: seq<Assignment>)
    requires n <= |columns|
    ensures |r| == n
  {
    if n == 0 then [] else Assignments(columns, values, n - 1) + [AssignmentAt(columns, values, n - 1)]
  }

  predicate Writable(column: Column, insert: bool) {
    (if insert then column.canInsert else column.canUpdate) && !column.generated && !column.identity
  }

  /** The first column, from `k` on, that may not be written. */
  function FirstUnwritable(columns: seq<Column>, insert: bool, k: nat): (r: Option<nat>)
    requires k <= |columns|
    ensures r.Some? ==> k <= r.value < |columns| && !Writable(columns[r.value], insert)
    decreases |columns| - k
  {
    if k == |columns| then None
    else if !Writable(columns[k], insert) then Some(k)
    else FirstUnwritable(columns, insert, k + 1)
  }

  lemma {:induction false} FirstUnwritableFrom(columns: seq<Column>, insert: bool, k: nat)
    requires k <= |columns| && forall i :: 0 <= i < k ==> Writable(columns[i], insert)
    ensures FirstUnwritable(columns, insert, 0) == FirstUnwritable(columns, insert, k)
  {
    if k > 0 {
      FirstUnwritableFrom(columns, insert, k - 1);
    }
  }

  /** The assignments of a mutation and the arguments they consume, or the column that may not be written. */
  method Assign(columns: seq<Column>, values: map<string, StagedValue>, insert: bool)
    returns (r: Result<(seq<Assignment>, seq<Arg>), ApplyError>)
    ensures r ==
      var bad := FirstUnwritable(columns, insert, 0);
      if bad.Some? then Failure(NotWritable(columns[bad.value].name))
      else Success((Assignments(columns, values, |columns|), Args(columns, values, |columns|)))
  {
    var assignments := [];
    var args := [];
    for i := 0 to |columns|
      invariant forall j :: 0 <= j < i ==> Writable(columns[j], insert)
      invariant assignments == Assignments(columns, values, i) && args == Args(columns, values, i)
    {
      FirstUnwritableFrom(columns, insert, i);
      if !Writable(columns[i], insert) {
        return Failure(NotWritable(columns[i].name));
      }
      var next := MutationExpression(ValueOf(values, columns[i].name), |args| + 1);
      assignments := assignments + [Assignment(columns[i].name, next.0)];
      args := args + next.1;
    }
    FirstUnwritableFrom(columns, insert, |columns|);
    return Success((assignments, args));
  }

  // ----- the optimistic predicate -----

  predicate IdentityIncomplete(names: seq<string>, identity: map<string, Raw>) {
    exists i :: 0 <= i < |names| && names[i] !in identity
  }

  function IdentityConditions(names: seq<string>, first: nat, n: nat): (r: seq<Condition>)
    requires n <= |names|
    ensures |r| == n
  {
    if n == 0 then [] else IdentityConditions(names, first, n - 1) + [NotDistinctFrom(names[n - 1], first + n - 1)]
  }

  function Conditions(names: seq<string>, first: nat): seq<Condition> {
    IdentityConditions(names, first, |names|) + [XMinEquals(first + |names|)]
  }

  function IdentityArgs(names: seq<string>, identity: map<string, Raw>, n: nat): (r: seq<Arg>)
    requires n <= |names|
    ensures |r| == n
  {
    if n == 0 then [] else IdentityArgs(names, identity, n - 1) + [ValueArg(IdentityValue(identity, names[n - 1]))]
  }

  function TokenArgs(names: seq<string>, original: Row): (r: seq<Arg>)
    ensures |r| == |names| + 1
  {
    IdentityArgs(names, original.identity, |names|) + [XMinArg(original.xmin)]
  }

  /** The identity and xmin of the original row, compared with parameters from `first` on. */
  method OptimisticPredicate(relation: Relation, original: Row, first: nat)
    returns (r: Result<(seq<Condition>, seq<Arg>), ApplyError>)
    ensures r == if IdentityIncomplete(relation.identity, original.identity) then Failure(IncompleteIdentity)
                 else Success((Conditions(relation.identity, first), TokenArgs(relation.identity, original)))
  {
    var conditions := [];
    var args := [];
    var names := relation.identity;
    for i := 0 to |names|
      invariant forall j :: 0 <= j < i ==> names[j] in original.identity
      invariant conditions == IdentityConditions(names, first, i) && args == IdentityArgs(names, original.identity, i)
    {
      if names[i] !in original.identity {
        return Failure(IncompleteIdentity);
      }
      conditions := conditions + [NotDistinctFrom(names[i], first + |args|)];
      args := args + [ValueArg(original.identity[names[i]])];
    }
    conditions := conditions + [XMinEquals(first + |args|)];
    args := args + [XMinArg(original.xmin)];
    return Success((conditions, args));
  }

  // ----- whole statements -----

  ghost function InsertStatement(relation: Relation, m: Mutation): Result<Prepared, ApplyError> {
    var columns := OrderedColumns(relation, m.values);
    var bad := FirstUnwritable(columns, true, 0);
    if !relation.canInsert then Failure(PermissionDenied)
    else if columns == [] then Success(Prepared(InsertDefaults, []))
    else if bad.Some? then Failure(NotWritable(columns[bad.value].name))
    else Success(Prepared(Insert(Assignments(columns, m.values, |columns|)), Args(columns, m.values, |columns|)))
  }

  method RenderInsert(relation: Relation, m: Mutation) returns (r: Result<Prepared, ApplyError>)
    ensures r == InsertStatement(relation, m)
  {
    if !relation.canInsert {
      return Failure(PermissionDenied);
    }
    var columns := OrderedMutationColumns(relation, m.values);
    if columns == [] {
      return Success(Prepared(InsertDefaults, []));
    }
    var written := Assign(columns, m.values, true);
    if written.Failure? {
      return Failure(written.error);
    }
    return Success(Prepared(Insert(written.value.0), written.value.1));
  }

  ghost function UpdateStatement(relation: Relation, m: Mutation): Result<Prepared, ApplyError> {
    var columns := OrderedColumns(relation, m.values);
    var bad := FirstUnwritable(columns, false, 0);
    var args := Args(columns, m.values, |columns|);
    if !relation.canUpdate then Failure(PermissionDenied)
    else if columns == [] then Failure(NoChangedColumns)
    else if bad.Some? then Failure(NotWritable(columns[bad.value].name))
    else if IdentityIncomplete(relation.identity, m.original.identity) then Failure(IncompleteIdentity)
    else Success(Prepared(Update(Assignments(columns, m.values, |columns|), Conditions(relation.identity, |args| + 1)),
                          args + TokenArgs(relation.identity, m.original)))
  }

  method RenderUpdate(relation: Relation, m: Mutation) returns (r: Result<Prepared, ApplyError>)
    ensures r == UpdateStatement(relation, m)
  {
    if !relation.canUpdate {
      return Failure(PermissionDenied);
    }
    var columns := OrderedMutationColumns(relation, m.values);
    if columns == [] {
      return Failure(NoChangedColumns);
    }
    var written := Assign(columns, m.values, false);
    if written.Failure? {
      return Failure(written.error);
    }
    var args := written.value.1;
    var token := OptimisticPredicate(relation, m.original, |args| + 1);
    if token.Failure? {
      return Failure(token.error);
    }
    return Success(Prepared(Update(written.value.0, token.value.0), args + token.value.1));
  }

  ghost function DeleteStatement(relation: Relation, m: Mutation): Result<Prepared, ApplyError> {
    if !relation.canDelete then Failure(PermissionDenied)
    else if IdentityIncomplete(relation.identity, m.original.identity) then Failure(IncompleteIdentity)
    else Success(Prepared(Delete(Conditions(relation.identity, 1)), TokenArgs(relation.identity, m.original)))
  }

  method RenderDelete(relation: Relation, m: Mutation) returns (r: Result<Prepared, ApplyError>)
    ensures r == DeleteStatement(relation, m)
  {
    if !relation.canDelete {
      return Failure(PermissionDenied);
    }
    var token := OptimisticPredicate(relation, m.original, 1);
    if token.Failure? {
      return Failure(token.error);
    }
    return Success(Prepared(Delete(token.value.0), token.value.1));
  }

  ghost function StatementFor(relation: Relation, m: Mutation): Result<Prepared, ApplyError> {
    match m.kind
    case DeleteRow => DeleteStatement(relation, m)
    case UpdateRow => UpdateStatement(relation, m)
    case InsertRow => InsertStatement(relation, m)
    case UnknownKind(_) => Failure(InvalidKind)
  }

  // ----- placeholders line up with arguments -----

  function AssignmentPlaceholders(assignments: seq<Assignment>): seq<nat> {
    if assignments == [] then []
    else
      var last := assignments[|assignments| - 1].expression;
      AssignmentPlaceholders(assignments[..|assignments| - 1]) + if last.Placeholder? then [last.n] else []
  }

  function ConditionPlaceholders(conditions: seq<Condition>): seq<nat> {
    if conditions == [] then []
    else ConditionPlaceholders(conditions[..|conditions| - 1]) + [conditions[|conditions| - 1].n]
  }

  /** The placeholder numbers of a statement, in the order they are written. */
  function Placeholders(s: Statement): seq<nat> {
    match s
    case InsertDefaults => []
    case Insert(assignments) => AssignmentPlaceholders(assignments)
    case Update(assignments, conditions) => AssignmentPlaceholders(assignments) + ConditionPlaceholders(conditions)
    case Delete(conditions) => ConditionPlaceholders(conditions)
  }

  /** Consecutive numbers from `first` on. */
  ghost predicate Counts(numbers: seq<nat>, first: nat) {
    forall i :: 0 <= i < |numbers| ==> numbers[i] == first + i
  }

  lemma AppendAssignment(before: seq<Assignment>, last: Assignment)
    ensures AssignmentPlaceholders(before + [last]) ==
              AssignmentPlaceholders(before) + if last.expression.Placeholder? then [last.expression.n] else []
  {
  }

  lemma AppendCondition(before: seq<Condition>, last: Condition)
    ensures ConditionPlaceholders(before + [last]) == ConditionPlaceholders(before) + [last.n]
  {
  }

  /** The placeholders that the first `n` columns use. */
  function Numbers(columns: seq<Column>, values: map<string, StagedValue>, n: nat): seq<nat>
    requires n <= |columns|
  {
    if n == 0 then []
    else if ValueOf(values, columns[n - 1].name) == DefaultValue then Numbers(columns, values, n - 1)
    else Numbers(columns, values, n - 1) + [|Args(columns, values, n - 1)| + 1]
  }

  lemma {:induction false} NumbersCount(columns: seq<Column>, values: map<string, StagedValue>, n: nat)
    requires n <= |columns|
    ensures |Numbers(columns, values, n)| == |Args(columns, values, n)| && Counts(Numbers(columns, values, n), 1)
  {
    if n > 0 { NumbersCount(columns, values, n - 1); }
  }

  lemma {:induction false} AssignmentsUseNumbers(columns: seq<Column>, values: map<string, StagedValue>, n: nat)
    requires n <= |columns|
    ensures AssignmentPlaceholders(Assignments(columns, values, n)) == Numbers(columns, values, n)
  {
    if n > 0 {
      AssignmentsUseNumbers(columns, values, n - 1);
      NextAssignment(columns, values, n, Assignments(columns, values, n - 1));
    }
  }

  lemma NextAssignment(columns: seq<Column>, values: map<string, StagedValue>, n: nat, before: seq<Assignment>)
    requires 0 < n <= |columns| && before == Assignments(columns, values, n - 1)
    requires AssignmentPlaceholders(before) == Numbers(columns, values, n - 1)
    ensures AssignmentPlaceholders(Assignments(columns, values, n)) == Numbers(columns, values, n)
  {
    AppendAssignment(before, AssignmentAt(columns, values, n - 1));
  }

  lemma AssignmentsLineUp(columns: seq<Column>, values: map<string, StagedValue>)
    ensures
      var numbers := AssignmentPlaceholders(Assignments(columns, values, |columns|));
      |numbers| == |Args(columns, values, |columns|)| && Counts(numbers, 1)
  {
    NumbersCount(columns, values, |columns|);
    AssignmentsUseNumbers(columns, values, |columns|);
  }

  lemma {:induction false} IdentityLinesUp(names: seq<string>, first: nat, n: nat)
    requires n <= |names|
    ensures
      var numbers := ConditionPlaceholders(IdentityConditions(names, first, n));
      |numbers| == n && Counts(numbers, first)
  {
    if n > 0 {
      IdentityLinesUp(names, first, n - 1);
      AppendCondition(IdentityConditions(names, first, n - 1), NotDistinctFrom(names[n - 1], first + n - 1));
    }
  }

  lemma TokenLinesUp(names: seq<string>, first: nat)
    ensures
      var numbers := ConditionPlaceholders(Conditions(names, first));
      |numbers| == |names| + 1 && Counts(numbers, first)
  {
    IdentityLinesUp(names, first, |names|);
    AppendCondition(IdentityConditions(names, first, |names|), XMinEquals(first + |names|));
  }

  /** The placeholders are $1..$n in order, one for each argument. */
  ghost predicate LinedUp(p: Prepared) {
    |Placeholders(p.statement)| == |p.args| && Counts(Placeholders(p.statement), 1)
  }

  lemma UpdateLinesUp(assignments: seq<Assignment>, conditions: seq<Condition>, args: seq<Arg>, token: seq<Arg>)
    requires |AssignmentPlaceholders(assignments)| == |args| && Counts(AssignmentPlaceholders(assignments), 1)
    requires |ConditionPlaceholders(conditions)| == |token| && Counts(ConditionPlaceholders(conditions), |args| + 1)
    ensures LinedUp(Prepared(Update(assignments, conditions), args + token))
  {
  }

  lemma UpdateStatementLinesUp(relation: Relation, m: Mutation)
    requires UpdateStatement(relation, m).Success?
    ensures LinedUp(UpdateStatement(relation, m).value)
  {
    var columns := OrderedColumns(relation, m.values);
    var args := Args(columns, m.values, |columns|);
    AssignmentsLineUp(columns, m.values);
    TokenLinesUp(relation.identity, |args| + 1);
    UpdateLinesUp(Assignments(columns, m.values, |columns|), Conditions(relation.identity, |args| + 1), args,
                  TokenArgs(relation.identity, m.original));
  }

  /** Placeholders and arguments of every rendered statement line up one to one, also where
      DEFAULT consumes no argument. */
  lemma PlaceholdersLineUp(relation: Relation, m: Mutation)
    requires StatementFor(relation, m).Success?
    ensures LinedUp(StatementFor(relation, m).value)
  {
    match m.kind
    case InsertRow => AssignmentsLineUp(OrderedColumns(relation, m.values), m.values);
    case UpdateRow => UpdateStatementLinesUp(relation, m);
    case DeleteRow => TokenLinesUp(relation.identity, 1);
    case UnknownKind(_) =>
  }
}
