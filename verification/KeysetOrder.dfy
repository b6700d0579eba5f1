/** The order in which browsing lists a table, in the user's terms: the chosen column in the
    chosen direction, then the key. */
module KeysetOrder {
  import opened Relations
  import opened Sql
  import opened Keyset
  import opened KeysetPages
  import opened KeysetSpans
  import opened KeysetWalk

  /** A smaller value, or a value before a null. */
  predicate Smaller(a: Value, b: Value) { a.Val? && (b.Null? || a.key < b.key) }

  /** On the first key column where the rows differ, `r` has the smaller value. */
  predicate SmallerAt(identity: seq<string>, r: Row, t: Row, k: int) {
    0 <= k < |identity| && Field(r, identity[k]).Val? && Field(t, identity[k]).Val? &&
    Field(r, identity[k]).key < Field(t, identity[k]).key &&
    forall m :: 0 <= m < k ==> Field(r, identity[m]) == Field(t, identity[m])
  }

  ghost predicate SmallerKey(identity: seq<string>, r: Row, t: Row) { exists k :: SmallerAt(identity, r, t, k) }

  /** `r` is listed before `t`: by the chosen column, nulls last ascending and first descending,
      and by the key where that does not decide. */
  ghost predicate AsChosen(identity: seq<string>, sort: Sort, r: Row, t: Row) {
    var a, b := Field(r, sort.column), Field(t, sort.column);
    if sort.column == "" || a == b then SmallerKey(identity, r, t)
    else if sort.ascending then Smaller(a, b)
    else Smaller(b, a)
  }

  /** A tie breaker is an identity column, and every identity column before it is the sort
      column or an earlier tie breaker. */
  lemma {:induction false} TieBreakerAt(identity: seq<string>, sortColumn: string, j: nat) returns (p: nat)
    requires j < |TieBreakers(identity, sortColumn)|
    ensures p < |identity| && TieBreakers(identity, sortColumn)[j] == OrderTerm(identity[p], true)
    ensures forall m :: 0 <= m < p ==> EarlierTie(identity, sortColumn, j, m)
  {
    var front := identity[..|identity| - 1];
    var ties := TieBreakers(front, sortColumn);
    if j < |ties| {
      p := TieBreakerAt(front, sortColumn, j);
      forall m | 0 <= m < p ensures EarlierTie(identity, sortColumn, j, m) {
        assert EarlierTie(front, sortColumn, j, m);
        if front[m] != sortColumn {
          var i :| 0 <= i < |ties| && i < j && ties[i].column == front[m];
          assert TieBreakers(identity, sortColumn)[i] == ties[i];
        }
      }
    } else {
      p := |identity| - 1;
      forall m | 0 <= m < p ensures EarlierTie(identity, sortColumn, j, m) {
        TieBreakersCoverIdentity(front, sortColumn, front[m]);
        if front[m] != sortColumn {
          var i :| 0 <= i < |ties| && ties[i] == OrderTerm(front[m], true);
          assert TieBreakers(identity, sortColumn)[i] == ties[i];
        }
      }
    }
  }

  ghost predicate EarlierTie(identity: seq<string>, sortColumn: string, j: nat, m: int) {
    0 <= m < |identity| &&
    (identity[m] == sortColumn ||
     exists i :: 0 <= i < |TieBreakers(identity, sortColumn)| && i < j &&
                 TieBreakers(identity, sortColumn)[i].column == identity[m])
  }

  /** Where the rows agree on the chosen column and first differ at a tie breaker. */
  lemma KeyDecides(identity: seq<string>, sortColumn: string, r: Row, t: Row, j: nat)
    requires forall c :: c in identity ==> Field(r, c).Val? && Field(t, c).Val?
    requires j < |TieBreakers(identity, sortColumn)|
    requires sortColumn in identity ==> Field(r, sortColumn) == Field(t, sortColumn)
    requires forall i :: 0 <= i < j ==> SameAt(TieBreakers(identity, sortColumn), r, t, i)
    requires
      var term := TieBreakers(identity, sortColumn)[j];
      var a, b := Field(r, term.column), Field(t, term.column);
      if term.ascending then Smaller(a, b) else Smaller(b, a)
    ensures SmallerKey(identity, r, t)
  {
    var p := TieBreakerAt(identity, sortColumn, j);
    forall m | 0 <= m < p ensures Field(r, identity[m]) == Field(t, identity[m]) {
      assert EarlierTie(identity, sortColumn, j, m) && identity[m] in identity;
      if identity[m] != sortColumn {
        var i :| 0 <= i < |TieBreakers(identity, sortColumn)| && i < j &&
                 TieBreakers(identity, sortColumn)[i].column == identity[m];
        assert SameAt(TieBreakers(identity, sortColumn), r, t, i);
      }
    }
    assert identity[p] in identity;
    assert SmallerAt(identity, r, t, p);
  }

  predicate SameAt(terms: seq<OrderTerm>, r: Row, t: Row, i: int) {
    0 <= i < |terms| && Field(r, terms[i].column) == Field(t, terms[i].column)
  }

  /** The term at which two rows first differ, and that `r` precedes `t` there. */
  ghost predicate TermDecides(terms: seq<OrderTerm>, r: Row, t: Row, k: int) {
    0 <= k < |terms| && (forall i :: 0 <= i < k ==> SameAt(terms, r, t, i)) &&
    var a, b := Field(r, terms[k].column), Field(t, terms[k].column);
    if terms[k].ascending then Smaller(a, b) else Smaller(b, a)
  }

  lemma SomeTermDecides(terms: seq<OrderTerm>, r: Row, t: Row) returns (k: nat)
    requires RowPrecedes(OrderBy(terms, false), r, t)
    ensures TermDecides(terms, r, t, k)
  {
    var order := OrderBy(terms, false);
    KeyPrecedesByFirstDifference(order, SortKey(order, r), SortKey(order, t));
    k :| DiffersFirstAt(order, SortKey(order, r), SortKey(order, t), k);
    forall i | 0 <= i < k ensures SameAt(terms, r, t, i) {
      assert SortKey(order, r)[i] == SortKey(order, t)[i];
    }
  }

  lemma TermDecidesAsChosen(identity: seq<string>, sort: Sort, r: Row, t: Row, k: nat)
    requires forall c :: c in identity ==> Field(r, c).Val? && Field(t, c).Val?
    requires "" !in identity && TermDecides(EffectiveTerms(identity, sort), r, t, k)
    ensures AsChosen(identity, sort, r, t)
  {
    var terms := EffectiveTerms(identity, sort);
    var ties := TieBreakers(identity, sort.column);
    if sort.column == "" {
      assert terms == ties;
      KeyDecides(identity, sort.column, r, t, k);
    } else if k > 0 {
      assert SameAt(terms, r, t, 0) && forall i :: 0 <= i < |ties| ==> terms[i + 1] == ties[i];
      forall i | 0 <= i < k - 1 ensures SameAt(ties, r, t, i) {
        assert SameAt(terms, r, t, i + 1);
      }
      KeyDecides(identity, sort.column, r, t, k - 1);
    }
  }

  lemma PrecedesAsChosen(table: seq<Row>, relation: Relation, sort: Sort, r: Row, t: Row)
    requires Keyed(table, relation.identity) && r in table && t in table
    requires RowPrecedes(Order(relation, sort), r, t)
    ensures AsChosen(relation.identity, sort, r, t)
  {
    var k := SomeTermDecides(EffectiveTerms(relation.identity, sort), r, t);
    forall c | c in relation.identity ensures Field(r, c).Val? && Field(t, c).Val? {
      KeyedRowNotNull(table, relation.identity, r, c);
      KeyedRowNotNull(table, relation.identity, t, c);
    }
    TermDecidesAsChosen(relation.identity, sort, r, t, k);
  }

  /** The table as browsing arranges it is listed as chosen. */
  lemma ArrangedAsChosen(source: Source, all: seq<Row>, i: nat, j: nat)
    requires source.Valid() && source.Lists(all) && i < j < |all|
    ensures AsChosen(source.relation.identity, source.sort, all[i], all[j])
  {
    assert RowPrecedes(Order(source.relation, source.sort), all[i], all[j]);
    assert all[i] in multiset(all) && all[j] in multiset(all);
    PrecedesAsChosen(source.server.table, source.relation, source.sort, all[i], all[j]);
  }

  /** A finished forward walk has shown every row of the table once, and any two in the order
      the user chose. */
  lemma WalkListsAsChosen(source: Source, steps: seq<Step>, pages: seq<Page>)
    requires Trail(source, steps, pages) && Forward(steps) && pages[|pages| - 1].next.NoToken?
    ensures
      var rows := Concat(RowsShown(pages), |pages|);
      multiset(rows) == multiset(source.server.table) &&
      forall i, j :: 0 <= i < j < |rows| ==> AsChosen(source.relation.identity, source.sort, rows[i], rows[j])
  {
    var rows := Concat(RowsShown(pages), |pages|);
    WalkCoversTable(source, steps, pages);
    forall i, j | 0 <= i < j < |rows| ensures AsChosen(source.relation.identity, source.sort, rows[i], rows[j]) {
      ArrangedAsChosen(source, rows, i, j);
    }
  }

  // ----- which sorts can be browsed -----

  /** No sort, or one by a column that PostgreSQL can sort. */
  predicate Sortable(relation: Relation, sort: Sort) {
    sort.column == "" ||
    exists i :: 0 <= i < |relation.columns| && relation.columns[i].name == sort.column && relation.columns[i].sortable
  }

  lemma SortableIsSupported(relation: Relation, sort: Sort)
    requires DistinctNames(relation.columns)
    ensures SortSupported(relation, sort) <==> Sortable(relation, sort)
  {
  }

  /** Browsing a table with First and then Next while there is a cursor lists each of its rows
      once, in the order chosen, for every sort by a column that can be sorted. */
  lemma BrowsingListsAsChosen(source: Source, limit: int) returns (steps: seq<Step>, pages: seq<Page>)
    requires Answers(source.server) && Keyed(source.server.table, source.relation.identity)
    requires source.relation.columns != [] && DistinctNames(source.relation.columns)
    requires Sortable(source.relation, source.sort) && limit <= 500 && CursorsShort(source)
    ensures Trail(source, steps, pages) && Forward(steps) && pages[|pages| - 1].next.NoToken?
    ensures
      var rows := Concat(RowsShown(pages), |pages|);
      multiset(rows) == multiset(source.server.table) &&
      forall i, j :: 0 <= i < j < |rows| ==> AsChosen(source.relation.identity, source.sort, rows[i], rows[j])
  {
    SortableIsSupported(source.relation, source.sort);
    steps, pages := BrowsingShowsWholeTable(source, limit);
    WalkListsAsChosen(source, steps, pages);
  }

  /** Any other sort is refused, whatever else the request says. */
  lemma OtherSortsAreRefused(source: Source, token: Token, step: Step)
    requires source.relation.identity != [] && source.relation.columns != [] && DistinctNames(source.relation.columns)
    requires !Sortable(source.relation, source.sort)
    ensures source.Fetch(token, step).Failure?
  {
    SortableIsSupported(source.relation, source.sort);
  }

  // ----- which requests are answered -----

  /** The columns a cursor has values for: the sorted one, then the other key columns. */
  function CursorColumns(identity: seq<string>, sort: Sort): seq<string> {
    (if sort.column == "" then [] else [sort.column]) + OtherThan(identity, sort.column)
  }

  function OtherThan(names: seq<string>, name: string): seq<string> {
    if names == [] then [] else (if names[0] == name then [] else [names[0]]) + OtherThan(names[1..], name)
  }

  lemma {:induction false} OtherThanAppend(names: seq<string>, last: string, name: string)
    ensures OtherThan(names + [last], name) == OtherThan(names, name) + if last == name then [] else [last]
  {
    if names != [] {
      assert (names + [last])[1..] == names[1..] + [last];
      OtherThanAppend(names[1..], last, name);
    }
  }

  lemma {:induction false} TieBreakerNames(identity: seq<string>, sortColumn: string)
    ensures TermNames(TieBreakers(identity, sortColumn)) == OtherThan(identity, sortColumn)
  {
    if identity != [] {
      var front, last := identity[..|identity| - 1], identity[|identity| - 1];
      assert identity == front + [last];
      TieBreakerNames(front, sortColumn);
      OtherThanAppend(front, last, sortColumn);
    }
  }

  lemma OrderNames(identity: seq<string>, sort: Sort)
    ensures TermNames(EffectiveTerms(identity, sort)) == CursorColumns(identity, sort)
  {
    TieBreakerNames(identity, sort.column);
  }

  /** A cursor that can be read, and was made for this relation and this order. */
  predicate Usable(server: Server, relation: Relation, sort: Sort, token: Token) {
    token.Token? && server.encodedLength(token.cursor) <= 65536 && token.cursor.version == 1 &&
    token.cursor.relation == relation.id && token.cursor.sort == sort &&
    token.cursor.terms == CursorColumns(relation.identity, sort) &&
    |token.cursor.values| == |CursorColumns(relation.identity, sort)|
  }

  lemma UsableFits(server: Server, relation: Relation, sort: Sort, token: Token)
    ensures Usable(server, relation, sort, token) <==>
      DecodeCursor(server, token).Success? &&
      CursorFits(DecodeCursor(server, token).value, relation.id, sort, EffectiveTerms(relation.identity, sort))
  {
    var terms := EffectiveTerms(relation.identity, sort);
    OrderNames(relation.identity, sort);
    assert |TermNames(terms)| == |terms|;
    if token.Token? && |token.cursor.terms| == |terms| &&
       forall i :: 0 <= i < |terms| ==> token.cursor.terms[i] == terms[i].column {
      assert token.cursor.terms == TermNames(terms);
    }
    if token.Token? && token.cursor.terms == TermNames(terms) {
      forall i | 0 <= i < |terms| ensures token.cursor.terms[i] == terms[i].column {
        assert TermNames(terms)[i] == terms[i].column;
      }
    }
  }

  /** A request is answered exactly if it is for this relation, which has readable columns, asks
      for at most 500 rows in a direction there is, under a sort that can be sorted by, and, to go
      on from somewhere, with a cursor that can be used. The first reason not to is reported. */
  lemma AnsweredExactly(server: Server, relation: Relation, request: PageRequest<Token>)
    requires relation.identity != [] && DistinctNames(relation.columns)
    ensures
      var answer := FetchPage(server, relation, request);
      var starts := request.direction == First || request.direction == Unspecified;
      if relation.id != request.relation then answer == Result.Failure(RelationMismatch)
      else if relation.columns == [] then answer == Result.Failure(NoReadableColumns)
      else if request.limit > 500 then answer == Result.Failure(PageTooLarge)
      else if request.direction.Unrecognized? then answer == Result.Failure(InvalidDirection)
      else if !Sortable(relation, request.sort) then answer == Result.Failure(UnsortableColumn)
      else if !starts && !Usable(server, relation, request.sort, request.cursor)
      then answer == Result.Failure(InvalidCursor)
      else answer.Success?
  {
    SortableIsSupported(relation, request.sort);
    UsableFits(server, relation, request.sort, request.cursor);
  }

  /** Not saying a direction is asking for the first page. */
  lemma UnspecifiedIsFirst(server: Server, relation: Relation, request: PageRequest<Token>)
    requires relation.identity != [] && request.direction == Unspecified
    ensures FetchPage(server, relation, request) == FetchPage(server, relation, request.(direction := First))
  {
  }

  /** A page has at most as many rows as were asked for, a hundred if no number was given, and
      exactly that many if more follow. */
  lemma PagesHaveTheirSize(source: Source, steps: seq<Step>, pages: seq<Page>, i: nat)
    requires Trail(source, steps, pages) && i < |pages|
    ensures
      var size := if steps[i].limit <= 0 then 100 else steps[i].limit;
      |pages[i].rows| <= size &&
      (steps[i].direction != Previous && pages[i].next.Token? ==> |pages[i].rows| == size) &&
      (steps[i].direction == Previous && pages[i].prev.Token? ==> |pages[i].rows| == size)
  {
    var all := TableIsArranged(source.server.table, source.relation, source.sort);
    var spans := TrailSpans(source, all, steps, pages);
    assert ShowsSpan(source, all, pages[i], spans[i]);
    ShownPage(source, all, spans[i]);
    SpanSize(|all|, steps, spans, i);
  }

  lemma SpanSize(n: nat, steps: seq<Step>, spans: seq<Span>, i: nat)
    requires SpanRun(n, steps, spans) && i < |spans|
    ensures
      var size := if steps[i].limit <= 0 then 100 else steps[i].limit;
      spans[i].b - spans[i].a <= size &&
      (steps[i].direction != Previous && spans[i].b < n ==> spans[i].b - spans[i].a == size) &&
      (steps[i].direction == Previous && spans[i].a > 0 ==> spans[i].b - spans[i].a == size)
  {
    if i > 0 { assert SpanMoved(n, steps, spans, i); }
  }
}
