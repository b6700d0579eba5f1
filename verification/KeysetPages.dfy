/** Fetching keyset pages and walking them: every page is a window of the sorted table,
    a complete walk is the whole table, and Previous undoes Next. */
module KeysetPages {
  import opened Relations
  import opened Sql
  import opened Keyset

  /** What a page hands out for resuming at one of its ends. */
  datatype PageCursor = PageCursor(version: int, relation: RelationId, sort: Sort, terms: seq<string>,
      values: seq<Value>)

  /** An encoded cursor; `NoToken` is the empty string. */
  datatype Token = NoToken | Token(cursor: PageCursor)

  datatype Page = Page(rows: seq<Row>, prev: Token, next: Token)

  /** A static table, the server's answers to queries on it, and the length a cursor takes
      once encoded. */
  datatype Server = Server(table: seq<Row>, select: Query -> seq<Row>, encodedLength: PageCursor -> nat)

  ghost predicate AnswersQuery(server: Server, q: Query) {
    IsAnswer(server.table, q, server.select(q))
  }

  /** The server answers every query as SQL says. */
  ghost predicate Answers(server: Server) {
    forall q :: AnswersQuery(server, q)
  }

  const MAX_ENCODED_CURSOR := 65536

  function TermNames(terms: seq<OrderTerm>): seq<string> {
    seq(|terms|, i requires 0 <= i < |terms| => terms[i].column)
  }

  function CursorValues(terms: seq<OrderTerm>, row: Row): (v: seq<Value>)
    ensures |v| == |terms|
  {
    seq(|terms|, i requires 0 <= i < |terms| => Field(row, terms[i].column))
  }

  function CursorAt(relation: Relation, sort: Sort, row: Row): PageCursor {
    var terms := EffectiveTerms(relation.identity, sort);
    PageCursor(1, relation.id, sort, TermNames(terms), CursorValues(terms, row))
  }

  function DecodeCursor(server: Server, token: Token): Result<PageCursor, Failure> {
    if token.NoToken? || server.encodedLength(token.cursor) > MAX_ENCODED_CURSOR || token.cursor.version != 1
    then Result.Failure(InvalidCursor)
    else Success(token.cursor)
  }

  /** A cursor is accepted only for the relation, sort and effective order it was made for. */
  predicate CursorFits(cursor: PageCursor, relation: RelationId, sort: Sort, terms: seq<OrderTerm>) {
    cursor.relation == relation && cursor.sort == sort &&
    |cursor.terms| == |terms| && |cursor.values| == |terms| &&
    forall i :: 0 <= i < |terms| ==> cursor.terms[i] == terms[i].column
  }

  method ValidateKeysetCursor(cursor: PageCursor, relation: RelationId, sort: Sort, terms: seq<OrderTerm>)
    returns (ok: bool)
    ensures ok == CursorFits(cursor, relation, sort, terms)
  {
    if cursor.relation != relation || cursor.sort != sort || |cursor.terms| != |terms| || |cursor.values| != |terms| {
      return false;
    }
    for index := 0 to |terms|
      invariant forall i :: 0 <= i < index ==> cursor.terms[i] == terms[i].column
    {
      if cursor.terms[index] != terms[index].column {
        return false;
      }
    }
    return true;
  }

  function Reversed<T>(s: seq<T>): (r: seq<T>)
    ensures |r| == |s| && forall i :: 0 <= i < |s| ==> r[i] == s[|s| - 1 - i]
  {
    seq(|s|, i requires 0 <= i < |s| => s[|s| - 1 - i])
  }

  /** Rows with a cursor at each end that is asked for; an empty page has none. */
  function PageWithEnds(relation: Relation, sort: Sort, rows: seq<Row>, hasPrevious: bool, hasNext: bool): Page {
    Page(rows,
         if rows != [] && hasPrevious then Token(CursorAt(relation, sort, rows[0])) else NoToken,
         if rows != [] && hasNext then Token(CursorAt(relation, sort, rows[|rows| - 1])) else NoToken)
  }

  /** A page from the rows fetched with a limit one larger than the page. */
  function Assemble(relation: Relation, sort: Sort, fetched: seq<Row>, direction: PageDirection, limit: nat): Page {
    var extra := |fetched| > limit;
    var kept := if extra then fetched[..limit] else fetched;
    var rows := if direction == Previous then Reversed(kept) else kept;
    var hasPrevious := direction == Next || (direction == Previous && extra);
    var hasNext := extra || direction == Previous;
    PageWithEnds(relation, sort, rows, hasPrevious, hasNext)
  }

  method NamesOf(terms: seq<OrderTerm>) returns (names: seq<string>)
    ensures names == TermNames(terms)
  {
    names := [];
    for index := 0 to |terms|
      invariant names == TermNames(terms[..index])
    {
      names := names + [terms[index].column];
    }
    assert terms[..|terms|] == terms;
  }

  method AssemblePage(relation: Relation, sort: Sort, terms: seq<OrderTerm>, rows: seq<Row>,
                      direction: PageDirection, limit: nat)
    returns (page: Page)
    requires terms == EffectiveTerms(relation.identity, sort)
    ensures page == Assemble(relation, sort, rows, direction, limit)
  {
    var fetched := rows;
    var extra := |fetched| > limit;
    if extra {
      fetched := fetched[..limit];
    }
    if direction == Previous {
      fetched := Reversed(fetched);
    }
    page := Page(fetched, NoToken, NoToken);
    var hasPrevious := direction == Next || (direction == Previous && extra);
    var hasNext := (direction != Previous && extra) || direction == Previous;
    var termNames := NamesOf(terms);
    if |fetched| > 0 && hasPrevious {
      page := page.(prev := Token(PageCursor(1, relation.id, sort, termNames, CursorValues(terms, fetched[0]))));
    }
    if |fetched| > 0 && hasNext {
      page := page.(next :=
        Token(PageCursor(1, relation.id, sort, termNames, CursorValues(terms, fetched[|fetched| - 1]))));
    }
  }

  /** The page a request yields, given the values to seek from (none on the first page). */
  function PageOf(
    server: Server, relation: Relation, sort: Sort, values: seq<Value>, direction: PageDirection, limit: nat): Page
    requires values == [] || |values| == |EffectiveTerms(relation.identity, sort)|
  {
    var terms := EffectiveTerms(relation.identity, sort);
    Assemble(relation, sort, server.select(SeekQuery(terms, values, direction == Previous, limit + 1)), direction,
      limit)
  }

  function KeysetPage(
    server: Server, relation: Relation, request: PageRequest<Token>, limit: nat): Result<Page, Failure> {
    var terms := EffectiveTerms(relation.identity, request.sort);
    if !SortSupported(relation, request.sort) then Result.Failure(UnsortableColumn)
    else if request.direction == First then
      Success(PageOf(server, relation, request.sort, [], First, limit))
    else
      var decoded := DecodeCursor(server, request.cursor);
      if decoded.Failure? then Result.Failure(decoded.error)
      else if !CursorFits(decoded.value, relation.id, request.sort, terms) then Result.Failure(InvalidCursor)
      else Success(PageOf(server, relation, request.sort, decoded.value.values, request.direction, limit))
  }

  method FetchKeysetPage(server: Server, relation: Relation, request: PageRequest<Token>, limit: nat)
    returns (r: Result<Page, Failure>)
    ensures r == KeysetPage(server, relation, request, limit)
  {
    var order := EffectiveOrder(relation, request.sort);
    if order.Failure? {
      return Result.Failure(order.error);
    }
    var terms := order.value;
    var cursor := PageCursor(1, relation.id, request.sort, [], []);
    if request.direction != First {
      var decoded := DecodeCursor(server, request.cursor);
      if decoded.Failure? {
        return Result.Failure(decoded.error);
      }
      cursor := decoded.value;
      var valid := ValidateKeysetCursor(cursor, relation.id, request.sort, terms);
      if !valid {
        return Result.Failure(InvalidCursor);
      }
    }
    var query := KeysetQuery(terms, cursor.values, request.direction, limit + 1);
    var fetched := server.select(query);
    var page := AssemblePage(relation, request.sort, terms, fetched, request.direction, limit);
    return Success(page);
  }

  /** The public entry for keyed relations: limits and directions are normalised first. */
  function FetchPage(server: Server, relation: Relation, request: PageRequest<Token>): Result<Page, Failure>
    requires relation.identity != []
  {
    var limit := if request.limit <= 0 then DEFAULT_PAGE_SIZE else request.limit;
    if relation.id != request.relation then Result.Failure(RelationMismatch)
    else if relation.columns == [] then Result.Failure(NoReadableColumns)
    else if limit > 500 then Result.Failure(PageTooLarge)
    else
      var direction := if request.direction == Unspecified then First else request.direction;
      if direction.Unrecognized? then Result.Failure(InvalidDirection)
      else KeysetPage(server, relation, request.(direction := direction), limit)
  }

  // ----- pages are windows of the sorted table -----

  /** What relation metadata guarantees about the rows: the identity is unique and not null.
      Column names are never empty, since the empty name spells "no sort". */
  ghost predicate Keyed(table: seq<Row>, identity: seq<string>) {
    identity != [] && "" !in identity && KeyedRows(table, identity)
  }

  ghost predicate KeyedRows(table: seq<Row>, identity: seq<string>) {
    table == [] ||
    ((forall c :: c in identity ==> Field(table[0], c).Val?) &&
     (forall r :: r in table[1..] ==> exists c :: c in identity && Field(table[0], c) != Field(r, c)) &&
     KeyedRows(table[1..], identity))
  }

  lemma {:induction false} KeyedRowNotNull(table: seq<Row>, identity: seq<string>, r: Row, c: string)
    requires KeyedRows(table, identity) && r in table && c in identity
    ensures Field(r, c).Val?
  {
    if r != table[0] {
      assert table == [table[0]] + table[1..];
      KeyedRowNotNull(table[1..], identity, r, c);
    }
  }

  lemma {:induction false} KeyedRowsDiffer(table: seq<Row>, identity: seq<string>, r: Row, t: Row)
    requires KeyedRows(table, identity) && r in table && t in table && r != t
    ensures exists c :: c in identity && Field(r, c) != Field(t, c)
  {
    assert table == [table[0]] + table[1..];
    if r in table[1..] && t in table[1..] { KeyedRowsDiffer(table[1..], identity, r, t); }
  }

  lemma {:induction false} KeyedRowOnce(table: seq<Row>, identity: seq<string>, r: Row)
    requires KeyedRows(table, identity)
    ensures multiset(table)[r] <= 1
  {
    if table != [] {
      assert table == [table[0]] + table[1..];
      KeyedRowOnce(table[1..], identity, r);
      assert table[0] !in table[1..];
    }
  }

  function Order(relation: Relation, sort: Sort): seq<OrderItem> {
    OrderBy(EffectiveTerms(relation.identity, sort), false)
  }

  /** `all` is the whole table, each row once, in the order. There is exactly one such sequence. */
  ghost predicate Arranges(order: seq<OrderItem>, table: seq<Row>, all: seq<Row>) {
    StrictlySorted(order, all) && multiset(all) == multiset(table)
  }

  /** The page showing rows `a..b` of the sorted table, with a cursor on a side
      exactly when rows exist there. */
  function Window(all: seq<Row>, relation: Relation, sort: Sort, a: nat, b: nat): Page
    requires a <= b <= |all|
  {
    PageWithEnds(relation, sort, all[a..b], a > 0, b < |all|)
  }

  lemma {:induction false} TieBreakersCoverIdentity(identity: seq<string>, sortColumn: string, c: string)
    requires c in identity
    ensures c == sortColumn || OrderTerm(c, true) in TieBreakers(identity, sortColumn)
  {
    var front := identity[..|identity| - 1];
    assert identity == front + [identity[|identity| - 1]];
    if c in front { TieBreakersCoverIdentity(front, sortColumn, c); }
  }

  lemma {:induction false} TieBreakersAreIdentity(identity: seq<string>, sortColumn: string)
    ensures forall t :: t in TieBreakers(identity, sortColumn) ==> t.column in identity
    ensures TieBreakers(identity, sortColumn) == [] ==> forall c :: c in identity ==> c == sortColumn
  {
    if identity != [] {
      var front := identity[..|identity| - 1];
      assert identity == front + [identity[|identity| - 1]];
      TieBreakersAreIdentity(front, sortColumn);
    }
  }

  lemma OrderCoversIdentity(identity: seq<string>, sort: Sort, c: string) returns (k: nat)
    requires c in identity && c != ""
    ensures k < |EffectiveTerms(identity, sort)| && EffectiveTerms(identity, sort)[k].column == c
  {
    var terms := EffectiveTerms(identity, sort);
    TieBreakersCoverIdentity(identity, sort.column, c);
    if c == sort.column {
      k := 0;
    } else {
      assert OrderTerm(c, true) in terms;
      k :| 0 <= k < |terms| && terms[k] == OrderTerm(c, true);
    }
  }

  /** The effective order ends in an identity column, whatever the sort choice. */
  lemma OrderEndsInIdentity(identity: seq<string>, sort: Sort)
    requires identity != [] && "" !in identity
    ensures EffectiveTerms(identity, sort) != []
    ensures EffectiveTerms(identity, sort)[|EffectiveTerms(identity, sort)| - 1].column in identity
  {
    TieBreakersAreIdentity(identity, sort.column);
    assert identity[0] in identity;
    var tail := TieBreakers(identity, sort.column);
    if tail != [] {
      assert tail[|tail| - 1] in tail;
    }
  }

  lemma OrderDistinguishes(table: seq<Row>, relation: Relation, sort: Sort)
    requires Keyed(table, relation.identity)
    ensures Distinguishes(Order(relation, sort), multiset(table))
  {
    var order := Order(relation, sort);
    forall r | r in multiset(table) ensures multiset(table)[r] == 1 {
      KeyedRowOnce(table, relation.identity, r);
    }
    forall r, t | r in multiset(table) && t in multiset(table) && r != t
      ensures SortKey(order, r) != SortKey(order, t)
    {
      KeyedRowsDiffer(table, relation.identity, r, t);
      var c :| c in relation.identity && Field(r, c) != Field(t, c);
      var k := OrderCoversIdentity(relation.identity, sort, c);
      assert SortKey(order, r)[k] != SortKey(order, t)[k];
    }
  }

  /** A keyed table has one arrangement under the effective order of any sort choice. */
  lemma TableIsArranged(table: seq<Row>, relation: Relation, sort: Sort) returns (all: seq<Row>)
    requires Keyed(table, relation.identity)
    ensures Arranges(Order(relation, sort), table, all)
    ensures forall other :: Arranges(Order(relation, sort), table, other) ==> other == all
  {
    var order := Order(relation, sort);
    all := SortRows(order, table);
    SortSorts(order, table);
    OrderDistinguishes(table, relation, sort);
    SortedIsStrict(order, all);
    forall other | Arranges(order, table, other) ensures other == all {
      SortedIsUnique(order, all, other);
    }
  }

  lemma CursorValuesAreSortKey(terms: seq<OrderTerm>, reverse: bool, row: Row)
    ensures SortKey(OrderBy(terms, reverse), row) == CursorValues(terms, row)
  {
  }

  /** Reversing every direction together with its NULLS placement reverses the whole order. */
  lemma ReverseOrderReverses(terms: seq<OrderTerm>, r: Row, s: Row)
    ensures RowPrecedes(OrderBy(terms, true), r, s) <==> RowPrecedes(OrderBy(terms, false), s, r)
  {
    var forward, backward := OrderBy(terms, false), OrderBy(terms, true);
    var a, b := CursorValues(terms, r), CursorValues(terms, s);
    CursorValuesAreSortKey(terms, false, r);
    CursorValuesAreSortKey(terms, false, s);
    CursorValuesAreSortKey(terms, true, r);
    CursorValuesAreSortKey(terms, true, s);
    KeyPrecedesByFirstDifference(backward, a, b);
    KeyPrecedesByFirstDifference(forward, b, a);
    forall k | 0 <= k < |terms| ensures DiffersFirstAt(backward, a, b, k) <==> DiffersFirstAt(forward, b, a, k) {
      assert Precedes(OrderSuffix(terms[k], true), a[k], b[k]) <==> Precedes(OrderSuffix(terms[k], false), b[k], a[k]);
    }
  }

  /** Position in a strictly sorted sequence is decided by the order. */
  lemma PositionByOrder(order: seq<OrderItem>, all: seq<Row>, i: nat, j: nat)
    requires StrictlySorted(order, all) && i < |all| && j < |all|
    ensures RowPrecedes(order, all[i], all[j]) <==> i < j
  {
    if j <= i && RowPrecedes(order, all[i], all[j]) {
      if j < i {
        StrictPair(order, all, j, i);
        KeyPrecedesTransitive(order, SortKey(order, all[i]), SortKey(order, all[j]), SortKey(order, all[i]));
      }
      KeyPrecedesIrreflexive(order, SortKey(order, all[i]));
    }
  }

  lemma AnswerIsUnique(table: seq<Row>, q: Query, rows: seq<Row>, target: seq<Row>)
    requires IsAnswer(table, q, rows)
    requires StrictlySorted(q.order, target) && multiset(target) == multiset(Found(table, q))
    ensures rows == Take(target, q.limit)
  {
    var full :| Sorted(q.order, full) && multiset(full) == multiset(Found(table, q)) && rows == Take(full, q.limit);
    SortedIsUnique(q.order, full, target);
  }

  /** In an arranged table the seek predicate separates the rows by their position. */
  lemma SeekByPosition(terms: seq<OrderTerm>, all: seq<Row>, k: nat, i: nat, before: bool)
    requires StrictlySorted(OrderBy(terms, false), all) && k < |all| && i < |all|
    ensures
      var values := CursorValues(terms, all[k]);
      Eval(Seek(terms, values, before), all[i], values) == True <==> if before then i < k else k < i
  {
    var order := OrderBy(terms, false);
    CursorValuesAreSortKey(terms, false, all[k]);
    SeekSelectsBeyondCursor(terms, CursorValues(terms, all[k]), before, all[i]);
    PositionByOrder(order, all, i, k);
    PositionByOrder(order, all, k, i);
  }

  lemma SeekPassesAfter(terms: seq<OrderTerm>, all: seq<Row>, k: nat)
    requires StrictlySorted(OrderBy(terms, false), all) && k < |all|
    ensures Where(Seek(terms, CursorValues(terms, all[k]), false), CursorValues(terms, all[k]), all) == all[k + 1..]
  {
    var values := CursorValues(terms, all[k]);
    var filter := Seek(terms, values, false);
    forall i | 0 <= i < |all| ensures Eval(filter, all[i], values) == True <==> k + 1 <= i {
      SeekByPosition(terms, all, k, i, false);
    }
    WhereSuffix(filter, values, all, k + 1);
  }

  lemma SeekPassesBefore(terms: seq<OrderTerm>, all: seq<Row>, k: nat)
    requires StrictlySorted(OrderBy(terms, false), all) && k < |all|
    ensures Where(Seek(terms, CursorValues(terms, all[k]), true), CursorValues(terms, all[k]), all) == all[..k]
  {
    var values := CursorValues(terms, all[k]);
    var filter := Seek(terms, values, true);
    forall i | 0 <= i < |all| ensures Eval(filter, all[i], values) == True <==> i < k {
      SeekByPosition(terms, all, k, i, true);
    }
    WherePrefix(filter, values, all, k);
  }

  lemma {:induction false} ReversedPermutes(s: seq<Row>)
    ensures multiset(Reversed(s)) == multiset(s)
  {
    if s != [] {
      ReversedPermutes(s[1..]);
      assert Reversed(s) == Reversed(s[1..]) + [s[0]];
      assert s == [s[0]] + s[1..];
    }
  }

  lemma ReversedSorted(terms: seq<OrderTerm>, s: seq<Row>)
    requires StrictlySorted(OrderBy(terms, false), s)
    ensures StrictlySorted(OrderBy(terms, true), Reversed(s))
  {
    var target := Reversed(s);
    forall i, j | 0 <= i < j < |target| ensures RowPrecedes(OrderBy(terms, true), target[i], target[j]) {
      ReverseOrderReverses(terms, target[i], target[j]);
    }
  }

  // ----- what the server returns for the three queries -----

  lemma FetchedFirst(server: Server, terms: seq<OrderTerm>, all: seq<Row>, limit: nat)
    requires Answers(server) && Arranges(OrderBy(terms, false), server.table, all)
    ensures server.select(SeekQuery(terms, [], false, limit)) == Take(all, limit)
  {
    var q := SeekQuery(terms, [], false, limit);
    assert AnswersQuery(server, q);
    AnswerIsUnique(server.table, q, server.select(q), all);
  }

  lemma FetchedAfter(server: Server, terms: seq<OrderTerm>, all: seq<Row>, k: nat, limit: nat)
    requires Answers(server) && Arranges(OrderBy(terms, false), server.table, all) && k < |all| && terms != []
    ensures server.select(SeekQuery(terms, CursorValues(terms, all[k]), false, limit)) == Take(all[k + 1..], limit)
  {
    var values := CursorValues(terms, all[k]);
    var q := SeekQuery(terms, values, false, limit);
    SeekPassesAfter(terms, all, k);
    WherePermutes(Seek(terms, values, false), values, all, server.table);
    var rest := all[k + 1..];
    assert forall i :: 0 <= i < |rest| ==> rest[i] == all[i + k + 1];
    assert AnswersQuery(server, q);
    AnswerIsUnique(server.table, q, server.select(q), rest);
  }

  lemma FetchedBefore(server: Server, terms: seq<OrderTerm>, all: seq<Row>, k: nat, limit: nat)
    requires Answers(server) && Arranges(OrderBy(terms, false), server.table, all) && k < |all| && terms != []
    ensures server.select(SeekQuery(terms, CursorValues(terms, all[k]), true, limit)) == Take(Reversed(all[..k]), limit)
  {
    var values := CursorValues(terms, all[k]);
    var q := SeekQuery(terms, values, true, limit);
    SeekPassesBefore(terms, all, k);
    WherePermutes(Seek(terms, values, true), values, all, server.table);
    ReversedSorted(terms, all[..k]);
    ReversedPermutes(all[..k]);
    assert AnswersQuery(server, q);
    AnswerIsUnique(server.table, q, server.select(q), Reversed(all[..k]));
  }

  // ----- the three directions -----

  lemma AssembleForward(relation: Relation, sort: Sort, all: seq<Row>, k: nat, direction: PageDirection, limit: nat)
    requires k <= |all| && limit > 0 && (if k == 0 then direction == First else direction == Next)
    ensures Assemble(relation, sort, Take(all[k..], limit + 1), direction, limit)
      == Window(all, relation, sort, k, Min(k + limit, |all|))
  {
    var fetched := Take(all[k..], limit + 1);
    var kept := if |fetched| > limit then fetched[..limit] else fetched;
    assert kept == all[k..Min(k + limit, |all|)];
  }

  lemma KeptReversed(all: seq<Row>, k: nat, limit: nat)
    requires k < |all| && limit > 0
    ensures
      var fetched := Take(Reversed(all[..k]), limit + 1);
      (|fetched| > limit <==> k > limit) &&
      Reversed(if |fetched| > limit then fetched[..limit] else fetched) == all[Max(0, k - limit)..k]
  {
    var fetched := Take(Reversed(all[..k]), limit + 1);
    var kept := if |fetched| > limit then fetched[..limit] else fetched;
    var a := Max(0, k - limit);
    assert |kept| == k - a;
    forall i | 0 <= i < |kept| ensures Reversed(kept)[i] == all[a..k][i] {
      assert kept[|kept| - 1 - i] == Reversed(all[..k])[|kept| - 1 - i];
    }
  }

  lemma AssembleReversed(relation: Relation, sort: Sort, all: seq<Row>, k: nat, limit: nat)
    requires k < |all| && limit > 0
    ensures Assemble(relation, sort, Take(Reversed(all[..k]), limit + 1), Previous, limit)
      == Window(all, relation, sort, Max(0, k - limit), k)
  {
    KeptReversed(all, k, limit);
  }

  lemma FirstPageIsWindow(server: Server, relation: Relation, sort: Sort, all: seq<Row>, limit: nat)
    requires Answers(server) && Arranges(Order(relation, sort), server.table, all) && limit > 0
    ensures PageOf(server, relation, sort, [], First, limit) == Window(all, relation, sort, 0, Min(limit, |all|))
  {
    FetchedFirst(server, EffectiveTerms(relation.identity, sort), all, limit + 1);
    assert all[0..] == all;
    AssembleForward(relation, sort, all, 0, First, limit);
  }

  lemma NextPageIsWindow(server: Server, relation: Relation, sort: Sort, all: seq<Row>, k: nat, limit: nat)
    requires Answers(server) && Arranges(Order(relation, sort), server.table, all)
    requires EffectiveTerms(relation.identity, sort) != [] && 0 < k <= |all| && limit > 0
    ensures
      PageOf(server, relation, sort, CursorValues(EffectiveTerms(relation.identity, sort), all[k - 1]), Next, limit)
      == Window(all, relation, sort, k, Min(k + limit, |all|))
  {
    FetchedAfter(server, EffectiveTerms(relation.identity, sort), all, k - 1, limit + 1);
    AssembleForward(relation, sort, all, k, Next, limit);
  }

  lemma PreviousPageIsWindow(server: Server, relation: Relation, sort: Sort, all: seq<Row>, k: nat, limit: nat)
    requires Answers(server) && Arranges(Order(relation, sort), server.table, all)
    requires EffectiveTerms(relation.identity, sort) != [] && k < |all| && limit > 0
    ensures
      PageOf(server, relation, sort, CursorValues(EffectiveTerms(relation.identity, sort), all[k]), Previous, limit)
      == Window(all, relation, sort, Max(0, k - limit), k)
  {
    FetchedBefore(server, EffectiveTerms(relation.identity, sort), all, k, limit + 1);
    AssembleReversed(relation, sort, all, k, limit);
  }
}
