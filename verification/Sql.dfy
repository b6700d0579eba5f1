/** The fragment of SQL that table browsing relies on: nullable values, predicates
    evaluated in three-valued logic, and ORDER BY with explicit NULL placement. */
module Sql {

  /** A column value. Every countable linear order embeds in the reals, so `real` stands
      for whatever ordered type the column has. */
  datatype Value = Null | Val(key: real)

  type Row = map<string, Value>

  datatype Truth = True | False | Unknown

  /** WHERE expressions. A parameter `n` is the placeholder `$n`, counted from one. */
  datatype Expr =
    | FalseLiteral
    | IsNull(column: string)
    | IsNotNull(column: string)
    | LessThan(column: string, parameter: nat)
    | GreaterThan(column: string, parameter: nat)
    | NotDistinct(column: string, parameter: nat)
    | Conj(parts: seq<Expr>)
    | Disj(parts: seq<Expr>)

  /** One ORDER BY item with both its direction and its NULLS placement spelled out. */
  datatype OrderItem = OrderItem(column: string, descending: bool, nullsFirst: bool)

  datatype Query = Query(filter: Expr, filtered: bool, order: seq<OrderItem>, limit: nat, args: seq<Value>)

  function Field(row: Row, column: string): Value {
    if column in row then row[column] else Null
  }

  function Argument(args: seq<Value>, parameter: nat): Value {
    if 1 <= parameter <= |args| then args[parameter - 1] else Null
  }

  function Compare(a: Value, b: Value, less: bool): Truth {
    if a.Null? || b.Null? then Unknown
    else if less then (if a.key < b.key then True else False)
    else if a.key > b.key then True else False
  }

  function Eval(e: Expr, row: Row, args: seq<Value>): Truth {
    match e
    case FalseLiteral => False
    case IsNull(c) => if Field(row, c).Null? then True else False
    case IsNotNull(c) => if Field(row, c).Null? then False else True
    case LessThan(c, p) => Compare(Field(row, c), Argument(args, p), true)
    case GreaterThan(c, p) => Compare(Field(row, c), Argument(args, p), false)
    case NotDistinct(c, p) => if Field(row, c) == Argument(args, p) then True else False
    case Conj(parts) =>
      if exists i :: 0 <= i < |parts| && Eval(parts[i], row, args) == False then False
      else if exists i :: 0 <= i < |parts| && Eval(parts[i], row, args) == Unknown then Unknown
      else True
    case Disj(parts) =>
      if exists i :: 0 <= i < |parts| && Eval(parts[i], row, args) == True then True
      else if exists i :: 0 <= i < |parts| && Eval(parts[i], row, args) == Unknown then Unknown
      else False
  }

  /** Whether the placeholder `$p` occurs in an expression. */
  predicate References(e: Expr, p: nat) {
    match e
    case LessThan(_, q) => p == q
    case GreaterThan(_, q) => p == q
    case NotDistinct(_, q) => p == q
    case Conj(parts) => exists i :: 0 <= i < |parts| && References(parts[i], p)
    case Disj(parts) => exists i :: 0 <= i < |parts| && References(parts[i], p)
    case _ => false
  }

  /** `a` strictly precedes `b` under one ORDER BY item; two NULLs are peers. */
  predicate Precedes(item: OrderItem, a: Value, b: Value) {
    match (a, b)
    case (Null, Null) => false
    case (Null, Val(_)) => item.nullsFirst
    case (Val(_), Null) => !item.nullsFirst
    case (Val(x), Val(y)) => if item.descending then x > y else x < y
  }

  /** Lexicographic order of ORDER BY on the rows' sort keys. */
  predicate KeyPrecedes(order: seq<OrderItem>, a: seq<Value>, b: seq<Value>)
    requires |a| == |b| == |order|
  {
    order != [] &&
    (Precedes(order[0], a[0], b[0]) || (a[0] == b[0] && KeyPrecedes(order[1..], a[1..], b[1..])))
  }

  function SortKey(order: seq<OrderItem>, row: Row): (k: seq<Value>)
    ensures |k| == |order|
  {
    seq(|order|, i requires 0 <= i < |order| => Field(row, order[i].column))
  }

  predicate RowPrecedes(order: seq<OrderItem>, r: Row, s: Row) {
    KeyPrecedes(order, SortKey(order, r), SortKey(order, s))
  }

  // ----- what a query returns -----

  function Where(filter: Expr, args: seq<Value>, table: seq<Row>): seq<Row> {
    if table == [] then []
    else (if Eval(filter, table[0], args) == True then [table[0]] else []) + Where(filter, args, table[1..])
  }

  function Take<T>(s: seq<T>, n: nat): (t: seq<T>) {
    if |s| <= n then s else s[..n]
  }

  function Found(table: seq<Row>, q: Query): seq<Row> {
    if q.filtered then Where(q.filter, q.args, table) else table
  }

  /** Sorted by an ORDER BY list; rows that are peers under it may come in any order. */
  ghost predicate Sorted(order: seq<OrderItem>, s: seq<Row>) {
    forall i, j {:trigger RowPrecedes(order, s[j], s[i])} :: 0 <= i < j < |s| ==> !RowPrecedes(order, s[j], s[i])
  }

  /** What a server may return: the rows that pass the filter, sorted, cut to the limit. */
  ghost predicate IsAnswer(table: seq<Row>, q: Query, rows: seq<Row>) {
    exists full :: Sorted(q.order, full) && multiset(full) == multiset(Found(table, q)) && rows == Take(full, q.limit)
  }

  // ----- the order is strict and total on distinguishable rows -----

  lemma {:induction false} KeyPrecedesIrreflexive(order: seq<OrderItem>, a: seq<Value>)
    requires |a| == |order|
    ensures !KeyPrecedes(order, a, a)
  {
    if order != [] { KeyPrecedesIrreflexive(order[1..], a[1..]); }
  }

  lemma {:induction false} KeyPrecedesTransitive(order: seq<OrderItem>, a: seq<Value>, b: seq<Value>, c: seq<Value>)
    requires |a| == |b| == |c| == |order|
    requires KeyPrecedes(order, a, b) && KeyPrecedes(order, b, c)
    ensures KeyPrecedes(order, a, c)
  {
    if a[0] == b[0] && b[0] == c[0] && !Precedes(order[0], a[0], b[0]) {
      KeyPrecedesTransitive(order[1..], a[1..], b[1..], c[1..]);
    }
  }

  lemma {:induction false} KeyPrecedesTotal(order: seq<OrderItem>, a: seq<Value>, b: seq<Value>)
    requires |a| == |b| == |order|
    ensures KeyPrecedes(order, a, b) || KeyPrecedes(order, b, a) || a == b
  {
    if order != [] && a[0] == b[0] {
      KeyPrecedesTotal(order[1..], a[1..], b[1..]);
      assert a == [a[0]] + a[1..] && b == [b[0]] + b[1..];
    }
  }

  /** Lexicographic order, read off the first position where the keys differ. */
  ghost predicate DiffersFirstAt(order: seq<OrderItem>, a: seq<Value>, b: seq<Value>, k: int)
    requires |a| == |b| == |order|
  {
    0 <= k < |order| && Precedes(order[k], a[k], b[k]) && forall j :: 0 <= j < k ==> a[j] == b[j]
  }

  lemma {:induction false} KeyPrecedesByFirstDifference(order: seq<OrderItem>, a: seq<Value>, b: seq<Value>)
    requires |a| == |b| == |order|
    ensures KeyPrecedes(order, a, b) <==> exists k :: DiffersFirstAt(order, a, b, k)
  {
    if order != [] {
      KeyPrecedesByFirstDifference(order[1..], a[1..], b[1..]);
      if KeyPrecedes(order, a, b) {
        if Precedes(order[0], a[0], b[0]) {
          assert DiffersFirstAt(order, a, b, 0);
        } else {
          var k :| DiffersFirstAt(order[1..], a[1..], b[1..], k);
          forall j | 0 <= j < k + 1 ensures a[j] == b[j] {
            if j > 0 { assert a[1..][j - 1] == b[1..][j - 1]; }
          }
          assert DiffersFirstAt(order, a, b, k + 1);
        }
      }
      if k :| DiffersFirstAt(order, a, b, k) {
        if k > 0 {
          assert a[0] == b[0];
          assert DiffersFirstAt(order[1..], a[1..], b[1..], k - 1);
        }
      }
    }
  }

  // ----- every query has an answer -----

  function InsertRow(order: seq<OrderItem>, r: Row, s: seq<Row>): seq<Row> {
    if s == [] then [r]
    else if RowPrecedes(order, s[0], r) then [s[0]] + InsertRow(order, r, s[1..])
    else [r] + s
  }

  function SortRows(order: seq<OrderItem>, table: seq<Row>): seq<Row> {
    if table == [] then [] else InsertRow(order, table[0], SortRows(order, table[1..]))
  }

  lemma {:induction false} InsertAddsOne(order: seq<OrderItem>, r: Row, s: seq<Row>)
    ensures multiset(InsertRow(order, r, s)) == multiset(s) + multiset{r}
  {
    if s != [] {
      assert s == [s[0]] + s[1..];
      if RowPrecedes(order, s[0], r) { InsertAddsOne(order, r, s[1..]); }
    }
  }

  /** Putting `r` before a sorted sequence none of whose rows precedes it keeps it sorted. */
  lemma ConsKeepsOrder(order: seq<OrderItem>, r: Row, s: seq<Row>)
    requires Sorted(order, s)
    requires forall x :: x in s ==> !RowPrecedes(order, x, r)
    ensures Sorted(order, [r] + s)
  {
    var out := [r] + s;
    forall i, j | 0 <= i < j < |out| ensures !RowPrecedes(order, out[j], out[i]) {
      assert out[j] == s[j - 1];
      if i == 0 { assert s[j - 1] in s; } else { assert out[i] == s[i - 1]; }
    }
  }

  lemma SortedTail(order: seq<OrderItem>, s: seq<Row>)
    requires s != [] && Sorted(order, s)
    ensures Sorted(order, s[1..])
    ensures forall x :: x in s[1..] ==> !RowPrecedes(order, x, s[0])
  {
    forall x | x in s[1..] ensures !RowPrecedes(order, x, s[0]) {
      var k :| 0 <= k < |s[1..]| && s[1..][k] == x;
      assert s[k + 1] == x;
    }
  }

  lemma {:induction false} InsertKeepsOrder(order: seq<OrderItem>, r: Row, s: seq<Row>)
    requires Sorted(order, s)
    ensures Sorted(order, InsertRow(order, r, s))
  {
    if s == [] {
    } else if RowPrecedes(order, s[0], r) {
      var tail := InsertRow(order, r, s[1..]);
      SortedTail(order, s);
      InsertKeepsOrder(order, r, s[1..]);
      InsertAddsOne(order, r, s[1..]);
      forall x | x in tail ensures !RowPrecedes(order, x, s[0]) {
        assert x in multiset(s[1..]) + multiset{r};
        if x == r { Asymmetric(order, s[0], r); }
      }
      ConsKeepsOrder(order, s[0], tail);
    } else {
      SortedTail(order, s);
      assert s == [s[0]] + s[1..];
      forall x | x in s ensures !RowPrecedes(order, x, r) {
        if x != s[0] && RowPrecedes(order, x, r) { Negative(order, x, s[0], r); }
      }
      ConsKeepsOrder(order, r, s);
    }
  }

  lemma Asymmetric(order: seq<OrderItem>, r: Row, s: Row)
    requires RowPrecedes(order, r, s)
    ensures !RowPrecedes(order, s, r)
  {
    if RowPrecedes(order, s, r) {
      KeyPrecedesTransitive(order, SortKey(order, r), SortKey(order, s), SortKey(order, r));
      KeyPrecedesIrreflexive(order, SortKey(order, r));
    }
  }

  /** If `x` precedes `r`, any row precedes `r` or is preceded by `x`. */
  lemma Negative(order: seq<OrderItem>, x: Row, y: Row, r: Row)
    requires RowPrecedes(order, x, r)
    ensures RowPrecedes(order, x, y) || RowPrecedes(order, y, r)
  {
    var a, b, c := SortKey(order, x), SortKey(order, y), SortKey(order, r);
    KeyPrecedesTotal(order, a, b);
    if KeyPrecedes(order, b, a) { KeyPrecedesTransitive(order, b, a, c); }
  }

  lemma {:induction false} SortSorts(order: seq<OrderItem>, table: seq<Row>)
    ensures Sorted(order, SortRows(order, table))
    ensures multiset(SortRows(order, table)) == multiset(table)
  {
    if table != [] {
      SortSorts(order, table[1..]);
      InsertKeepsOrder(order, table[0], SortRows(order, table[1..]));
      InsertAddsOne(order, table[0], SortRows(order, table[1..]));
      assert table == [table[0]] + table[1..];
    }
  }

  /** Every query has an answer, so a server that answers every query exists. */
  lemma AnswerExists(table: seq<Row>, q: Query)
    ensures IsAnswer(table, q, Take(SortRows(q.order, Found(table, q)), q.limit))
  {
    SortSorts(q.order, Found(table, q));
  }

  // ----- answers over distinguishable rows are unique -----

  ghost predicate StrictlySorted(order: seq<OrderItem>, s: seq<Row>) {
    forall i, j {:trigger RowPrecedes(order, s[i], s[j])} :: 0 <= i < j < |s| ==> RowPrecedes(order, s[i], s[j])
  }

  /** No two rows agree on every ORDER BY column, and no row occurs twice. */
  ghost predicate Distinguishes(order: seq<OrderItem>, rows: multiset<Row>) {
    (forall r :: r in rows ==> rows[r] == 1) &&
    forall r, s :: r in rows && s in rows && r != s ==> SortKey(order, r) != SortKey(order, s)
  }

  lemma OccursTwice(s: seq<Row>, i: nat, j: nat)
    requires i < j < |s| && s[i] == s[j]
    ensures multiset(s)[s[i]] >= 2
  {
    var a, b := s[..j], s[j..];
    assert s == a + b;
    assert a[i] in multiset(a) && b[0] in multiset(b);
  }

  lemma SortedIsStrict(order: seq<OrderItem>, s: seq<Row>)
    requires Sorted(order, s) && Distinguishes(order, multiset(s))
    ensures StrictlySorted(order, s)
  {
    forall i, j | 0 <= i < j < |s| ensures RowPrecedes(order, s[i], s[j]) {
      if s[i] == s[j] { OccursTwice(s, i, j); }
      SortedPair(order, s, i, j);
      assert s[i] in multiset(s) && s[j] in multiset(s);
      KeyPrecedesTotal(order, SortKey(order, s[i]), SortKey(order, s[j]));
    }
  }

  lemma {:induction false} SortedIsUnique(order: seq<OrderItem>, s: seq<Row>, t: seq<Row>)
    requires Sorted(order, s) && StrictlySorted(order, t) && multiset(s) == multiset(t)
    ensures s == t
  {
    assert |s| == |multiset(s)| == |multiset(t)| == |t|;
    if s != [] {
      HeadsAgree(order, s, t);
      assert s == [s[0]] + s[1..] && t == [t[0]] + t[1..];
      assert multiset(s[1..]) == multiset(s) - multiset{s[0]};
      assert multiset(t[1..]) == multiset(t) - multiset{t[0]};
      SortedTail(order, s);
      assert forall i :: 0 <= i < |t[1..]| ==> t[1..][i] == t[i + 1];
      SortedIsUnique(order, s[1..], t[1..]);
    }
  }

  lemma HeadsAgree(order: seq<OrderItem>, s: seq<Row>, t: seq<Row>)
    requires Sorted(order, s) && StrictlySorted(order, t) && multiset(s) == multiset(t) && s != [] && t != []
    ensures s[0] == t[0]
  {
    assert s[0] in multiset(t) && t[0] in multiset(s);
    SortedHead(order, s, t[0]);
    StrictHead(order, t, s[0]);
  }

  lemma SortedHead(order: seq<OrderItem>, s: seq<Row>, x: Row)
    requires Sorted(order, s) && x in s
    ensures x == s[0] || !RowPrecedes(order, x, s[0])
  {
    var j :| 0 <= j < |s| && s[j] == x;
    if j > 0 { SortedPair(order, s, 0, j); }
  }

  lemma StrictHead(order: seq<OrderItem>, t: seq<Row>, x: Row)
    requires StrictlySorted(order, t) && x in t
    ensures x == t[0] || RowPrecedes(order, t[0], x)
  {
    var j :| 0 <= j < |t| && t[j] == x;
    if j > 0 { StrictPair(order, t, 0, j); }
  }

  lemma SortedPair(order: seq<OrderItem>, s: seq<Row>, i: nat, j: nat)
    requires Sorted(order, s) && i < j < |s|
    ensures !RowPrecedes(order, s[j], s[i])
  {
  }

  lemma StrictPair(order: seq<OrderItem>, s: seq<Row>, i: nat, j: nat)
    requires StrictlySorted(order, s) && i < j < |s|
    ensures RowPrecedes(order, s[i], s[j])
  {
  }

  // ----- filtering -----

  lemma {:induction false} WhereAll(filter: Expr, args: seq<Value>, s: seq<Row>)
    requires forall i :: 0 <= i < |s| ==> Eval(filter, s[i], args) == True
    ensures Where(filter, args, s) == s
  {
    if s != [] { WhereAll(filter, args, s[1..]); }
  }

  lemma {:induction false} WhereNone(filter: Expr, args: seq<Value>, s: seq<Row>)
    requires forall i :: 0 <= i < |s| ==> Eval(filter, s[i], args) != True
    ensures Where(filter, args, s) == []
  {
    if s != [] { WhereNone(filter, args, s[1..]); }
  }

  lemma {:induction false} WhereSuffix(filter: Expr, args: seq<Value>, s: seq<Row>, cut: nat)
    requires cut <= |s|
    requires forall i :: 0 <= i < |s| ==> (Eval(filter, s[i], args) == True <==> cut <= i)
    ensures Where(filter, args, s) == s[cut..]
  {
    if cut == 0 {
      WhereAll(filter, args, s);
    } else {
      WhereSuffix(filter, args, s[1..], cut - 1);
      assert s[1..][cut - 1..] == s[cut..];
    }
  }

  lemma {:induction false} WherePrefix(filter: Expr, args: seq<Value>, s: seq<Row>, cut: nat)
    requires cut <= |s|
    requires forall i :: 0 <= i < |s| ==> (Eval(filter, s[i], args) == True <==> i < cut)
    ensures Where(filter, args, s) == s[..cut]
  {
    if cut == 0 {
      WhereNone(filter, args, s);
    } else {
      WherePrefix(filter, args, s[1..], cut - 1);
      assert s[..cut] == [s[0]] + s[1..][..cut - 1];
    }
  }

  lemma {:induction false} WhereMultiset(filter: Expr, args: seq<Value>, s: seq<Row>, x: Row)
    ensures multiset(Where(filter, args, s))[x] == if Eval(filter, x, args) == True then multiset(s)[x] else 0
  {
    if s != [] {
      WhereMultiset(filter, args, s[1..], x);
      assert s == [s[0]] + s[1..];
    }
  }

  /** Filtering depends only on the bag of rows. */
  lemma WherePermutes(filter: Expr, args: seq<Value>, s: seq<Row>, t: seq<Row>)
    requires multiset(s) == multiset(t)
    ensures multiset(Where(filter, args, s)) == multiset(Where(filter, args, t))
  {
    forall x ensures multiset(Where(filter, args, s))[x] == multiset(Where(filter, args, t))[x] {
      WhereMultiset(filter, args, s, x);
      WhereMultiset(filter, args, t, x);
    }
  }
}
