/** Keyset paging queries: the effective order of a relation, the seek predicate that
    resumes after or before a cursor, and what that predicate means. */
module Keyset {
  import opened Relations
  import opened Sql

  datatype OrderTerm = OrderTerm(column: string, ascending: bool)

  datatype Failure =
    | RelationMismatch
    | NoReadableColumns
    | PageTooLarge
    | InvalidDirection
    | UnsortableColumn
    | InvalidCursor

  // ----- effective order -----

  /** Identity columns other than the sort column, ascending, in key order. */
  function TieBreakers(identity: seq<string>, sortColumn: string): seq<OrderTerm> {
    if identity == [] then []
    else
      TieBreakers(identity[..|identity| - 1], sortColumn) +
      (if identity[|identity| - 1] != sortColumn then [OrderTerm(identity[|identity| - 1], true)] else [])
  }

  predicate SortSupported(relation: Relation, sort: Sort) {
    sort.column == "" ||
    (FindColumn(relation.columns, sort.column).Some? && FindColumn(relation.columns, sort.column).value.sortable)
  }

  function EffectiveTerms(identity: seq<string>, sort: Sort): seq<OrderTerm> {
    (if sort.column != "" then [OrderTerm(sort.column, sort.ascending)] else []) +
    TieBreakers(identity, sort.column)
  }

  method EffectiveOrder(relation: Relation, sort: Sort) returns (r: Result<seq<OrderTerm>, Failure>)
    ensures r == if SortSupported(relation, sort) then Success(EffectiveTerms(relation.identity, sort))
                 else Result.Failure(UnsortableColumn)
  {
    var terms := [];
    if sort.column != "" {
      var column := FindColumn(relation.columns, sort.column);
      if column.None? || !column.value.sortable {
        return Result.Failure(UnsortableColumn);
      }
      terms := terms + [OrderTerm(sort.column, sort.ascending)];
    }
    ghost var sorted := terms;
    for i := 0 to |relation.identity|
      invariant terms == sorted + TieBreakers(relation.identity[..i], sort.column)
    {
      assert relation.identity[..i + 1][..i] == relation.identity[..i];
      if relation.identity[i] != sort.column {
        terms := terms + [OrderTerm(relation.identity[i], true)];
      }
    }
    assert relation.identity[..|relation.identity|] == relation.identity;
    assert terms == EffectiveTerms(relation.identity, sort);
    return Success(terms);
  }

  // ----- order by -----

  function OrderSuffix(term: OrderTerm, reverse: bool): OrderItem {
    var ascending := if reverse then !term.ascending else term.ascending;
    if ascending then OrderItem(term.column, false, false) else OrderItem(term.column, true, true)
  }

  function OrderBy(terms: seq<OrderTerm>, reverse: bool): (order: seq<OrderItem>)
    ensures |order| == |terms|
  {
    seq(|terms|, i requires 0 <= i < |terms| => OrderSuffix(terms[i], reverse))
  }

  // ----- seek predicate -----

  function CursorComparison(term: OrderTerm, value: Value, parameter: nat, before: bool): Expr {
    if term.ascending then
      if before then
        if value.Null? then IsNotNull(term.column) else LessThan(term.column, parameter)
      else if value.Null? then FalseLiteral
      else Disj([GreaterThan(term.column, parameter), IsNull(term.column)])
    else if before then
      if value.Null? then FalseLiteral
      else Disj([GreaterThan(term.column, parameter), IsNull(term.column)])
    else if value.Null? then IsNotNull(term.column)
    else LessThan(term.column, parameter)
  }

  function EqualPrefix(terms: seq<OrderTerm>, n: nat): seq<Expr>
    requires n <= |terms|
  {
    seq(n, i requires 0 <= i < n => NotDistinct(terms[i].column, i + 1))
  }

  function SeekGroup(terms: seq<OrderTerm>, values: seq<Value>, before: bool, k: nat): Expr
    requires k < |terms| == |values|
  {
    Conj(EqualPrefix(terms, k) + [CursorComparison(terms[k], values[k], k + 1, before)])
  }

  /** The groups contributed by the first `n` terms; a comparison nothing can satisfy contributes none. */
  function SeekGroups(terms: seq<OrderTerm>, values: seq<Value>, before: bool, n: nat): seq<Expr>
    requires n <= |terms| == |values|
  {
    if n == 0 then []
    else
      SeekGroups(terms, values, before, n - 1) +
      (if CursorComparison(terms[n - 1], values[n - 1], n, before) == FalseLiteral then []
       else [SeekGroup(terms, values, before, n - 1)])
  }

  function Seek(terms: seq<OrderTerm>, values: seq<Value>, before: bool): Expr
    requires |terms| == |values|
  {
    var groups := SeekGroups(terms, values, before, |terms|);
    if groups == [] then FalseLiteral else Disj(groups)
  }

  method SeekPredicate(terms: seq<OrderTerm>, values: seq<Value>, direction: PageDirection) returns (e: Expr)
    requires |terms| == |values|
    ensures e == Seek(terms, values, direction == Previous)
  {
    var before := direction == Previous;
    var groups := [];
    for index := 0 to |terms|
      invariant groups == SeekGroups(terms, values, before, index)
    {
      var conditions := [];
      for prefix := 0 to index
        invariant conditions == EqualPrefix(terms, prefix)
      {
        conditions := conditions + [NotDistinct(terms[prefix].column, prefix + 1)];
      }
      var comparison := CursorComparison(terms[index], values[index], index + 1, before);
      if comparison == FalseLiteral {
        continue;
      }
      conditions := conditions + [comparison];
      groups := groups + [Conj(conditions)];
    }
    if groups == [] {
      return FalseLiteral;
    }
    return Disj(groups);
  }

  function SeekQuery(terms: seq<OrderTerm>, values: seq<Value>, before: bool, limit: nat): Query
    requires |values| == 0 || |values| == |terms|
  {
    Query(if values == [] then FalseLiteral else Seek(terms, values, before), values != [],
          OrderBy(terms, before), limit, values)
  }

  method KeysetQuery(terms: seq<OrderTerm>, values: seq<Value>, direction: PageDirection, limit: nat)
    returns (q: Query)
    requires |values| == 0 || |values| == |terms|
    ensures q == SeekQuery(terms, values, direction == Previous, limit)
  {
    var filter := FalseLiteral;
    if |values| > 0 {
      filter := SeekPredicate(terms, values, direction);
    }
    var order := [];
    for index := 0 to |terms|
      invariant order == OrderBy(terms[..index], direction == Previous)
    {
      order := order + [OrderSuffix(terms[index], direction == Previous)];
    }
    assert terms[..|terms|] == terms;
    q := Query(filter, |values| > 0, order, limit, values);
  }

  // ----- what the seek predicate means -----

  /** Which side of the cursor a value lies on in the order the ORDER BY defines. */
  predicate Beyond(item: OrderItem, field: Value, cursor: Value, before: bool) {
    if before then Precedes(item, field, cursor) else Precedes(item, cursor, field)
  }

  lemma ComparisonMeansBeyond(term: OrderTerm, row: Row, args: seq<Value>, parameter: nat, before: bool)
    requires 1 <= parameter <= |args|
    ensures Eval(CursorComparison(term, args[parameter - 1], parameter, before), row, args) == True <==>
            Beyond(OrderSuffix(term, false), Field(row, term.column), args[parameter - 1], before)
  {
    var value := args[parameter - 1];
    var either := [GreaterThan(term.column, parameter), IsNull(term.column)];
    if term.ascending != before && value.Val? {
      assert CursorComparison(term, value, parameter, before) == Disj(either);
      assert Eval(either[0], row, args) == Compare(Field(row, term.column), value, false);
      assert Eval(either[1], row, args) == if Field(row, term.column).Null? then True else False;
    }
  }

  lemma GroupMeansDiffersAt(terms: seq<OrderTerm>, values: seq<Value>, before: bool, k: nat, row: Row)
    requires k < |terms| == |values|
    ensures Eval(SeekGroup(terms, values, before, k), row, values) == True <==>
            Beyond(OrderSuffix(terms[k], false), Field(row, terms[k].column), values[k], before) &&
            forall j :: 0 <= j < k ==> Field(row, terms[j].column) == values[j]
  {
    var prefix := EqualPrefix(terms, k);
    var comparison := CursorComparison(terms[k], values[k], k + 1, before);
    var parts := prefix + [comparison];
    ComparisonMeansBeyond(terms[k], row, values, k + 1, before);
    assert parts[k] == comparison;
    forall j | 0 <= j < k
      ensures Eval(parts[j], row, values) == if Field(row, terms[j].column) == values[j] then True else False
    {
      assert parts[j] == NotDistinct(terms[j].column, j + 1);
    }
    assert Eval(Conj(parts), row, values) == True <==>
      forall i :: 0 <= i < |parts| ==> Eval(parts[i], row, values) == True;
    if forall j :: 0 <= j < k ==> Field(row, terms[j].column) == values[j] {
      assert forall i :: 0 <= i < k ==> Eval(parts[i], row, values) == True;
    } else {
      var j :| 0 <= j < k && Field(row, terms[j].column) != values[j];
      assert Eval(parts[j], row, values) == False;
    }
  }

  predicate GroupShown(terms: seq<OrderTerm>, values: seq<Value>, before: bool, n: nat)
    requires 0 < n <= |terms| == |values|
  {
    CursorComparison(terms[n - 1], values[n - 1], n, before) != FalseLiteral
  }

  /** A group that is left out could not be true. */
  lemma HiddenGroupIsFalse(terms: seq<OrderTerm>, values: seq<Value>, before: bool, n: nat, row: Row)
    requires 0 < n <= |terms| == |values| && !GroupShown(terms, values, before, n)
    ensures Eval(SeekGroup(terms, values, before, n - 1), row, values) != True
  {
    GroupMeansDiffersAt(terms, values, before, n - 1, row);
    ComparisonMeansBeyond(terms[n - 1], row, values, n, before);
  }

  /** One of the first `n` groups, shown or not, is true of the row. */
  predicate SomeGroupHolds(terms: seq<OrderTerm>, values: seq<Value>, before: bool, n: nat, row: Row)
    requires n <= |terms| == |values|
  {
    n > 0 &&
    (SomeGroupHolds(terms, values, before, n - 1, row) ||
     Eval(SeekGroup(terms, values, before, n - 1), row, values) == True)
  }

  ghost predicate AnyTrue(groups: seq<Expr>, row: Row, args: seq<Value>) {
    exists g :: g in groups && Eval(g, row, args) == True
  }

  lemma AnyTrueAppend(groups: seq<Expr>, last: Expr, row: Row, args: seq<Value>)
    ensures AnyTrue(groups + [last], row, args) <==> AnyTrue(groups, row, args) || Eval(last, row, args) == True
  {
    if AnyTrue(groups, row, args) {
      var g :| g in groups && Eval(g, row, args) == True;
      assert g in groups + [last];
    }
    assert last in groups + [last];
  }

  lemma {:induction false} GroupsMeanSomeHolds(
    terms: seq<OrderTerm>, values: seq<Value>, before: bool, n: nat, row: Row)
    requires n <= |terms| == |values|
    ensures SomeGroupHolds(terms, values, before, n, row) <==>
            AnyTrue(SeekGroups(terms, values, before, n), row, values)
  {
    if n > 0 {
      GroupsMeanSomeHolds(terms, values, before, n - 1, row);
      if GroupShown(terms, values, before, n) {
        AnyTrueAppend(SeekGroups(terms, values, before, n - 1), SeekGroup(terms, values, before, n - 1), row, values);
      } else {
        HiddenGroupIsFalse(terms, values, before, n, row);
      }
    }
  }

  lemma {:induction false} SomeDifferenceHolds(
    terms: seq<OrderTerm>, values: seq<Value>, before: bool, n: nat, row: Row)
    requires n <= |terms| == |values|
    ensures SomeGroupHolds(terms, values, before, n, row) <==>
            exists k :: 0 <= k < n && Eval(SeekGroup(terms, values, before, k), row, values) == True
  {
    if n > 0 { SomeDifferenceHolds(terms, values, before, n - 1, row); }
  }

  lemma GroupsMeanSomeDifference(terms: seq<OrderTerm>, values: seq<Value>, before: bool, n: nat, row: Row)
    requires n <= |terms| == |values|
    ensures AnyTrue(SeekGroups(terms, values, before, n), row, values) <==>
            exists k :: 0 <= k < n && Eval(SeekGroup(terms, values, before, k), row, values) == True
  {
    GroupsMeanSomeHolds(terms, values, before, n, row);
    SomeDifferenceHolds(terms, values, before, n, row);
  }

  /** The seek predicate holds, in three-valued logic, of exactly the rows strictly after
      (or before) the cursor in the order that ORDER BY and its NULLS placement define. */
  lemma SeekSelectsBeyondCursor(terms: seq<OrderTerm>, values: seq<Value>, before: bool, row: Row)
    requires |terms| == |values|
    ensures Eval(Seek(terms, values, before), row, values) == True <==>
            if before then KeyPrecedes(OrderBy(terms, false), SortKey(OrderBy(terms, false), row), values)
            else KeyPrecedes(OrderBy(terms, false), values, SortKey(OrderBy(terms, false), row))
  {
    var n := |terms|;
    var order := OrderBy(terms, false);
    var key := SortKey(order, row);
    SeekMeansSomeGroup(terms, values, before, row);
    GroupsMeanSomeDifference(terms, values, before, n, row);
    KeyPrecedesByFirstDifference(order, key, values);
    KeyPrecedesByFirstDifference(order, values, key);
    forall k | 0 <= k < n
      ensures Eval(SeekGroup(terms, values, before, k), row, values) == True <==>
              if before then DiffersFirstAt(order, key, values, k) else DiffersFirstAt(order, values, key, k)
    {
      GroupMeansFirstDifference(terms, values, before, k, row);
    }
  }

  lemma SeekMeansSomeGroup(terms: seq<OrderTerm>, values: seq<Value>, before: bool, row: Row)
    requires |terms| == |values|
    ensures Eval(Seek(terms, values, before), row, values) == True <==>
            AnyTrue(SeekGroups(terms, values, before, |terms|), row, values)
  {
    var groups := SeekGroups(terms, values, before, |terms|);
    assert Eval(Seek(terms, values, before), row, values) == True <==>
      exists g :: g in groups && Eval(g, row, values) == True;
  }

  lemma GroupMeansFirstDifference(terms: seq<OrderTerm>, values: seq<Value>, before: bool, k: nat, row: Row)
    requires k < |terms| == |values|
    ensures
      var order := OrderBy(terms, false);
      var key := SortKey(order, row);
      Eval(SeekGroup(terms, values, before, k), row, values) == True <==>
      if before then DiffersFirstAt(order, key, values, k) else DiffersFirstAt(order, values, key, k)
  {
    var key := SortKey(OrderBy(terms, false), row);
    GroupMeansDiffersAt(terms, values, before, k, row);
    assert forall j :: 0 <= j <= k ==> key[j] == Field(row, terms[j].column);
  }

  // ----- every bound parameter is referenced -----

  lemma GroupReferences(terms: seq<OrderTerm>, values: seq<Value>, before: bool, k: nat, p: nat)
    requires k < |terms| == |values|
    ensures References(SeekGroup(terms, values, before, k), p) <==>
            1 <= p <= k || (p == k + 1 && values[k].Val?)
  {
    var prefix := EqualPrefix(terms, k);
    var comparison := CursorComparison(terms[k], values[k], k + 1, before);
    var parts := prefix + [comparison];
    assert parts[k] == comparison;
    assert References(comparison, p) <==> p == k + 1 && values[k].Val? by {
      var either := [GreaterThan(terms[k].column, k + 1), IsNull(terms[k].column)];
      assert References(either[0], p) <==> p == k + 1;
      assert References(Disj(either), p) <==> References(either[0], p) || References(either[1], p);
    }
    if 1 <= p <= k {
      assert parts[p - 1] == NotDistinct(terms[p - 1].column, p);
      assert References(parts[p - 1], p);
    }
    assert forall i :: 0 <= i < k ==> parts[i] == NotDistinct(terms[i].column, i + 1);
  }

  lemma {:induction false} GroupsReferenceOnly(
    terms: seq<OrderTerm>, values: seq<Value>, before: bool, n: nat, p: nat, g: Expr)
    requires n <= |terms| == |values|
    requires g in SeekGroups(terms, values, before, n) && References(g, p)
    ensures 1 <= p <= n && (p == n ==> values[n - 1].Val?)
  {
    if g in SeekGroups(terms, values, before, n - 1) {
      GroupsReferenceOnly(terms, values, before, n - 1, p, g);
    } else {
      GroupReferences(terms, values, before, n - 1, p);
    }
  }

  /** A prepared statement must use every parameter it binds. The seek predicate references
      exactly `$1..$n` if and only if the last cursor value, an identity column, is not null. */
  lemma SeekReferencesEveryParameter(terms: seq<OrderTerm>, values: seq<Value>, before: bool)
    requires |terms| == |values| > 0
    ensures (forall p: nat :: References(Seek(terms, values, before), p) <==> 1 <= p <= |values|) <==>
            values[|values| - 1].Val?
  {
    var n := |terms|;
    var groups := SeekGroups(terms, values, before, n);
    forall p: nat | References(Seek(terms, values, before), p)
      ensures 1 <= p <= n && (p == n ==> values[n - 1].Val?)
    {
      var i :| 0 <= i < |groups| && References(groups[i], p);
      assert groups[i] in groups;
      GroupsReferenceOnly(terms, values, before, n, p, groups[i]);
    }
    if values[n - 1].Val? {
      var last := SeekGroup(terms, values, before, n - 1);
      assert groups[|groups| - 1] == last;
      forall p: nat | 1 <= p <= n ensures References(Seek(terms, values, before), p) {
        GroupReferences(terms, values, before, n - 1, p);
        assert References(groups[|groups| - 1], p);
      }
    } else {
      assert !References(Seek(terms, values, before), n);
    }
  }
}
