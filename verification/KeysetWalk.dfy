/** Runs of First, Next and Previous over a static keyed table. */
module KeysetWalk {
  import opened Relations
  import opened Sql
  import opened Keyset
  import opened KeysetPages
  import opened KeysetSpans

  /** A static table browsed under one sort choice. */
  datatype Source = Source(server: Server, relation: Relation, sort: Sort)
  {
    function Terms(): seq<OrderTerm> { EffectiveTerms(relation.identity, sort) }

    ghost predicate Valid() {
      Answers(server) && Keyed(server.table, relation.identity) && relation.columns != [] &&
      SortSupported(relation, sort)
    }

    /** `all` is the whole table in the effective order. */
    ghost predicate Lists(all: seq<Row>) { Arranges(Order(relation, sort), server.table, all) }

    function Fetch(token: Token, step: Step): Result<Page, Failure>
      requires relation.identity != []
    {
      FetchPage(server, relation, PageRequest(relation.id, token, step.direction, sort, step.limit))
    }

    function Shown(all: seq<Row>, s: Span): Page
      requires s.a <= s.b <= |all|
    {
      Window(all, relation, sort, s.a, s.b)
    }
  }

  function TokenFor(page: Page, step: Step): Token {
    if step.direction == Next then page.next else if step.direction == Previous then page.prev else NoToken
  }

  /** Next and Previous are only requested where the page handed out a cursor. */
  predicate Legal(page: Page, step: Step) {
    step.limit <= 500 &&
    (step.direction == First || ((step.direction == Next || step.direction == Previous) && TokenFor(page, step).Token?))
  }

  /** `pages[i]` is what `steps[i]` returned on the page before it. */
  ghost predicate Moved(source: Source, steps: seq<Step>, pages: seq<Page>, i: int)
    requires source.relation.identity != []
  {
    0 < i < |pages| == |steps| && Legal(pages[i - 1], steps[i]) &&
    source.Fetch(TokenFor(pages[i - 1], steps[i]), steps[i]) == Success(pages[i])
  }

  ghost predicate Started(source: Source, steps: seq<Step>, pages: seq<Page>)
    requires source.relation.identity != []
  {
    0 < |pages| == |steps| && steps[0].direction == First && steps[0].limit <= 500 &&
    source.Fetch(NoToken, steps[0]) == Success(pages[0])
  }

  /** A run starts on the first page and moves from page to page. */
  ghost predicate Trail(source: Source, steps: seq<Step>, pages: seq<Page>) {
    source.Valid() && Started(source, steps, pages) &&
    forall i :: 0 < i < |pages| ==> Moved(source, steps, pages, i)
  }

  // ----- one request -----

  lemma FirstFetch(source: Source, all: seq<Row>, step: Step)
    requires source.Valid() && source.Lists(all) && step.direction == First && step.limit <= 500
    ensures source.Fetch(NoToken, step) ==
      Success(source.Shown(all, Span(0, Min(EffectiveLimit(step), |all|))))
  {
    FirstPageIsWindow(source.server, source.relation, source.sort, all, EffectiveLimit(step));
  }

  lemma OwnCursorFits(source: Source, row: Row)
    ensures CursorFits(CursorAt(source.relation, source.sort, row), source.relation.id, source.sort, source.Terms())
  {
  }

  /** A request resuming at one of the table's own rows is decoded, validated and answered. */
  lemma ResumeFetch(source: Source, row: Row, step: Step)
    requires source.Valid() && step.limit <= 500 && (step.direction == Next || step.direction == Previous)
    ensures
      var cursor := CursorAt(source.relation, source.sort, row);
      source.Fetch(Token(cursor), step) ==
        if source.server.encodedLength(cursor) > MAX_ENCODED_CURSOR then Result.Failure(InvalidCursor)
        else Success(PageOf(source.server, source.relation, source.sort, CursorValues(source.Terms(), row),
                            step.direction, EffectiveLimit(step)))
  {
    OwnCursorFits(source, row);
  }

  lemma NextFetch(source: Source, all: seq<Row>, k: nat, step: Step)
    requires source.Valid() && source.Lists(all)
    requires 0 < k <= |all| && step.direction == Next && step.limit <= 500
    ensures
      var cursor := CursorAt(source.relation, source.sort, all[k - 1]);
      source.Fetch(Token(cursor), step) ==
        if source.server.encodedLength(cursor) > MAX_ENCODED_CURSOR then Result.Failure(InvalidCursor)
        else Success(source.Shown(all, Span(k, Min(k + EffectiveLimit(step), |all|))))
  {
    ResumeFetch(source, all[k - 1], step);
    OrderEndsInIdentity(source.relation.identity, source.sort);
    NextPageIsWindow(source.server, source.relation, source.sort, all, k, EffectiveLimit(step));
  }

  lemma PreviousFetch(source: Source, all: seq<Row>, k: nat, step: Step)
    requires source.Valid() && source.Lists(all)
    requires k < |all| && step.direction == Previous && step.limit <= 500
    ensures
      var cursor := CursorAt(source.relation, source.sort, all[k]);
      source.Fetch(Token(cursor), step) ==
        if source.server.encodedLength(cursor) > MAX_ENCODED_CURSOR then Result.Failure(InvalidCursor)
        else Success(source.Shown(all, Span(Max(0, k - EffectiveLimit(step)), k)))
  {
    ResumeFetch(source, all[k], step);
    OrderEndsInIdentity(source.relation.identity, source.sort);
    PreviousPageIsWindow(source.server, source.relation, source.sort, all, k, EffectiveLimit(step));
  }

  lemma ShownPage(source: Source, all: seq<Row>, s: Span)
    requires s.a <= s.b <= |all|
    ensures source.Shown(all, s).rows == all[s.a..s.b]
    ensures source.Shown(all, s).prev ==
      if 0 < s.a < s.b then Token(CursorAt(source.relation, source.sort, all[s.a])) else NoToken
    ensures source.Shown(all, s).next ==
      if s.a < s.b < |all| then Token(CursorAt(source.relation, source.sort, all[s.b - 1])) else NoToken
  {
  }

  lemma MoveNext(source: Source, all: seq<Row>, s: Span, step: Step)
    requires source.Valid() && source.Lists(all) && s.a < s.b < |all| && step.direction == Next && step.limit <= 500
    ensures
      var token := source.Shown(all, s).next;
      token.Token? && source.Fetch(token, step) ==
        if source.server.encodedLength(token.cursor) > MAX_ENCODED_CURSOR then Result.Failure(InvalidCursor)
        else Success(source.Shown(all, Landing(|all|, s, step)))
  {
    assert source.Shown(all, s).next == Token(CursorAt(source.relation, source.sort, all[s.b - 1])) by {
      ShownPage(source, all, s);
    }
    NextFetch(source, all, s.b, step);
  }

  lemma MovePrevious(source: Source, all: seq<Row>, s: Span, step: Step)
    requires source.Valid() && source.Lists(all) && 0 < s.a < s.b <= |all| && step.direction == Previous &&
      step.limit <= 500
    ensures
      var token := source.Shown(all, s).prev;
      token.Token? && source.Fetch(token, step) ==
        if source.server.encodedLength(token.cursor) > MAX_ENCODED_CURSOR then Result.Failure(InvalidCursor)
        else Success(source.Shown(all, Landing(|all|, s, step)))
  {
    assert source.Shown(all, s).prev == Token(CursorAt(source.relation, source.sort, all[s.a])) by {
      ShownPage(source, all, s);
    }
    PreviousFetch(source, all, s.a, step);
  }

  lemma LegalMoves(source: Source, all: seq<Row>, s: Span, step: Step)
    requires s.a <= s.b <= |all|
    ensures Legal(source.Shown(all, s), step) <==> CanMove(|all|, s, step)
  {
  }

  /** One Next or Previous: it moves the span, unless the cursor is too long to be decoded. */
  lemma MoveFetch(source: Source, all: seq<Row>, s: Span, step: Step)
    requires source.Valid() && source.Lists(all) && CanMove(|all|, s, step) && step.direction != First
    ensures
      var token := TokenFor(source.Shown(all, s), step);
      token.Token? && source.Fetch(token, step) ==
        if source.server.encodedLength(token.cursor) > MAX_ENCODED_CURSOR then Result.Failure(InvalidCursor)
        else Success(source.Shown(all, Landing(|all|, s, step)))
  {
    if step.direction == Next { MoveNext(source, all, s, step); } else { MovePrevious(source, all, s, step); }
  }

  // ----- whole runs -----

  /** A step that succeeds moves the page as it moves the span. */
  lemma StepMovesSpan(source: Source, all: seq<Row>, s: Span, page: Page, step: Step, next: Page)
    requires source.Valid() && source.Lists(all) && s.a <= s.b <= |all| && page == source.Shown(all, s)
    requires Legal(page, step) && source.Fetch(TokenFor(page, step), step) == Success(next)
    ensures CanMove(|all|, s, step) && next == source.Shown(all, Landing(|all|, s, step))
  {
    LegalMoves(source, all, s, step);
    if step.direction == First { FirstFetch(source, all, step); } else { MoveFetch(source, all, s, step); }
  }

  ghost predicate ShowsSpan(source: Source, all: seq<Row>, page: Page, s: Span) {
    s.a <= s.b <= |all| && page == source.Shown(all, s)
  }

  lemma StartShowsSpan(source: Source, all: seq<Row>, steps: seq<Step>, pages: seq<Page>)
    requires source.Valid() && source.Lists(all) && Started(source, steps, pages)
    ensures ShowsSpan(source, all, pages[0], Span(0, Min(EffectiveLimit(steps[0]), |all|)))
  {
    FirstFetch(source, all, steps[0]);
  }

  lemma MoveShowsSpan(source: Source, all: seq<Row>, steps: seq<Step>, pages: seq<Page>, i: nat, s: Span)
    requires source.Valid() && source.Lists(all) && Moved(source, steps, pages, i)
    requires ShowsSpan(source, all, pages[i - 1], s)
    ensures CanMove(|all|, s, steps[i]) && ShowsSpan(source, all, pages[i], Landing(|all|, s, steps[i]))
  {
    StepMovesSpan(source, all, s, pages[i - 1], steps[i], pages[i]);
  }

  /** Every page of every run is a span of the sorted table, moved as positions move. */
  lemma TrailSpans(source: Source, all: seq<Row>, steps: seq<Step>, pages: seq<Page>) returns (spans: seq<Span>)
    requires Trail(source, steps, pages) && source.Lists(all)
    ensures |spans| == |pages| > 0 && |pages| == |steps| && SpanRun(|all|, steps, spans)
    ensures forall i :: 0 <= i < |pages| ==> ShowsSpan(source, all, pages[i], spans[i])
  {
    var at := (i, s) => 0 <= i < |pages| && ShowsSpan(source, all, pages[i], s);
    StartShowsSpan(source, all, steps, pages);
    forall i, s | 0 < i < |pages| ensures Carries(|all|, steps, at, i, s) {
      assert Moved(source, steps, pages, i);
      if at(i - 1, s) { MoveShowsSpan(source, all, steps, pages, i, s); }
    }
    spans := FollowRun(|all|, steps, at, |pages|);
    assert forall i :: 0 <= i < |pages| ==> at(i, spans[i]);
  }

  /** On every page of every run a cursor is present exactly when the table has rows on that
      side of the page, and it is one that page requests of this relation and sort accept. */
  lemma CursorsTellTheTruth(source: Source, steps: seq<Step>, pages: seq<Page>, i: nat)
    requires Trail(source, steps, pages) && i < |pages|
    ensures
      var page := pages[i];
      var order := Order(source.relation, source.sort);
      (page.rows == [] <==> source.server.table == []) &&
      (page.prev.Token? <==>
       page.rows != [] && exists r :: r in source.server.table && RowPrecedes(order, r, page.rows[0])) &&
      (page.next.Token? <==>
        page.rows != [] && exists r :: r in source.server.table && RowPrecedes(order, page.rows[|page.rows| - 1], r)) &&
      (page.prev.Token? ==> CursorFits(page.prev.cursor, source.relation.id, source.sort, source.Terms())) &&
      (page.next.Token? ==> CursorFits(page.next.cursor, source.relation.id, source.sort, source.Terms()))
  {
    var all := TableIsArranged(source.server.table, source.relation, source.sort);
    var spans := TrailSpans(source, all, steps, pages);
    SpansInside(|all|, steps, spans, i);
    var s := spans[i];
    assert ShowsSpan(source, all, pages[i], s);
    ShownPage(source, all, s);
    if s.a < s.b {
      OwnCursorFits(source, all[s.a]);
      OwnCursorFits(source, all[s.b - 1]);
      RowsBeforeAndAfter(Order(source.relation, source.sort), source.server.table, all, s.a);
      RowsBeforeAndAfter(Order(source.relation, source.sort), source.server.table, all, s.b - 1);
    }
  }

  lemma RowsBeforeAndAfter(order: seq<OrderItem>, table: seq<Row>, all: seq<Row>, k: nat)
    requires StrictlySorted(order, all) && multiset(all) == multiset(table) && k < |all|
    ensures k > 0 <==> exists r :: r in table && RowPrecedes(order, r, all[k])
    ensures k + 1 < |all| <==> exists r :: r in table && RowPrecedes(order, all[k], r)
  {
    assert forall r :: r in table <==> r in multiset(all);
    if k > 0 { assert all[0] in table && RowPrecedes(order, all[0], all[k]); }
    if k + 1 < |all| { assert all[k + 1] in table && RowPrecedes(order, all[k], all[k + 1]); }
    if r :| r in table && RowPrecedes(order, r, all[k]) {
      var j :| 0 <= j < |all| && all[j] == r;
      PositionByOrder(order, all, j, k);
    }
    if r :| r in table && RowPrecedes(order, all[k], r) {
      var j :| 0 <= j < |all| && all[j] == r;
      PositionByOrder(order, all, k, j);
    }
  }

  /** A run continues with Next or Previous wherever the page has the cursor: the request
      succeeds if and only if the encoded cursor is at most 65536 bytes long. */
  lemma HandedOutCursorIsAccepted(source: Source, steps: seq<Step>, pages: seq<Page>, step: Step)
    requires Trail(source, steps, pages) && Legal(pages[|pages| - 1], step) && step.direction != First
    ensures
      var token := TokenFor(pages[|pages| - 1], step);
      source.Fetch(token, step).Success? <==> source.server.encodedLength(token.cursor) <= MAX_ENCODED_CURSOR
  {
    var all := TableIsArranged(source.server.table, source.relation, source.sort);
    var spans := TrailSpans(source, all, steps, pages);
    assert ShowsSpan(source, all, pages[|pages| - 1], spans[|pages| - 1]);
    LegalMoves(source, all, spans[|pages| - 1], step);
    MoveFetch(source, all, spans[|pages| - 1], step);
  }

  /** Let the first row of a table have keys so long that its cursor encodes to more than the
      limit. With a page size of one that cursor is handed out and then refused. */
  lemma OversizedCursorIsRefused(source: Source, all: seq<Row>)
    requires source.Valid() && source.Lists(all) && |all| >= 2
    requires source.server.encodedLength(CursorAt(source.relation, source.sort, all[0])) > MAX_ENCODED_CURSOR
    ensures source.Fetch(NoToken, Step(First, 1)).Success?
    ensures source.Fetch(NoToken, Step(First, 1)).value.next.Token?
    ensures source.Fetch(source.Fetch(NoToken, Step(First, 1)).value.next, Step(Next, 1)) ==
      Result.Failure(InvalidCursor)
  {
    FirstFetch(source, all, Step(First, 1));
    ShownPage(source, all, Span(0, 1));
    MoveFetch(source, all, Span(0, 1), Step(Next, 1));
  }

  // ----- the forward walk -----

  /** Sequences of rows, one after the other. */
  function Concat(parts: seq<seq<Row>>, n: nat): seq<Row>
    requires n <= |parts|
  {
    if n == 0 then [] else Concat(parts, n - 1) + parts[n - 1]
  }

  function RowsShown(pages: seq<Page>): (rows: seq<seq<Row>>)
    ensures |rows| == |pages|
  {
    seq(|pages|, i requires 0 <= i < |pages| => pages[i].rows)
  }

  ghost predicate RowsAt(all: seq<Row>, rows: seq<Row>, s: Span) {
    s.a <= s.b <= |all| && rows == all[s.a..s.b]
  }

  /** Contiguous spans from zero concatenate to a prefix. */
  lemma {:induction false} ConcatIsPrefix(
    all: seq<Row>, steps: seq<Step>, spans: seq<Span>, parts: seq<seq<Row>>, n: nat)
    requires SpanRun(|all|, steps, spans) && Forward(steps) && 0 < n <= |spans| == |parts|
    requires forall i :: 0 <= i < |parts| ==> RowsAt(all, parts[i], spans[i])
    ensures spans[n - 1].b <= |all| && Concat(parts, n) == all[..spans[n - 1].b]
  {
    ForwardAdvances(|all|, steps, spans, n - 1);
    var s := spans[n - 1];
    assert RowsAt(all, parts[n - 1], s);
    if n > 1 { ConcatIsPrefix(all, steps, spans, parts, n - 1); }
    assert all[..s.a] + all[s.a..s.b] == all[..s.b];
  }

  lemma RowsOfShown(source: Source, all: seq<Row>, page: Page, s: Span)
    requires ShowsSpan(source, all, page, s)
    ensures RowsAt(all, page.rows, s)
  {
  }

  lemma PagesShowRows(source: Source, all: seq<Row>, pages: seq<Page>, spans: seq<Span>)
    requires |spans| == |pages| && forall i :: 0 <= i < |pages| ==> ShowsSpan(source, all, pages[i], spans[i])
    ensures forall i :: 0 <= i < |pages| ==> RowsAt(all, RowsShown(pages)[i], spans[i])
  {
    forall i | 0 <= i < |pages| ensures RowsAt(all, RowsShown(pages)[i], spans[i]) {
      RowsOfShown(source, all, pages[i], spans[i]);
    }
  }

  /** Walking forward until no cursor is left returns the whole table, sorted by the effective
      order, each row exactly once, whatever the page limits were. */
  lemma WalkCoversTable(source: Source, steps: seq<Step>, pages: seq<Page>)
    requires Trail(source, steps, pages) && pages != [] && Forward(steps) && pages[|pages| - 1].next.NoToken?
    ensures Arranges(Order(source.relation, source.sort), source.server.table, Concat(RowsShown(pages), |pages|))
  {
    var all := TableIsArranged(source.server.table, source.relation, source.sort);
    var spans := TrailSpans(source, all, steps, pages);
    PagesShowRows(source, all, pages, spans);
    ConcatIsPrefix(all, steps, spans, RowsShown(pages), |pages|);
    LastSpanReachesEnd(source, all, steps, pages, spans);
    assert all[..|all|] == all;
  }

  lemma LastSpanReachesEnd(source: Source, all: seq<Row>, steps: seq<Step>, pages: seq<Page>, spans: seq<Span>)
    requires SpanRun(|all|, steps, spans) && |spans| == |pages|
    requires forall i :: 0 <= i < |pages| ==> ShowsSpan(source, all, pages[i], spans[i])
    requires pages[|pages| - 1].next.NoToken?
    ensures spans[|pages| - 1].b == |all|
  {
    var s := spans[|pages| - 1];
    assert ShowsSpan(source, all, pages[|pages| - 1], s);
    SpansInside(|all|, steps, spans, |pages| - 1);
    ShownPage(source, all, s);
  }

  /** Following Next always ends: a walk has at most one page per row, or the one empty page. */
  lemma WalkTerminates(source: Source, steps: seq<Step>, pages: seq<Page>)
    requires Trail(source, steps, pages) && Forward(steps)
    ensures |pages| <= Max(1, |source.server.table|)
  {
    var all := TableIsArranged(source.server.table, source.relation, source.sort);
    var spans := TrailSpans(source, all, steps, pages);
    ForwardAdvances(|all|, steps, spans, |pages| - 1);
    assert |all| == |multiset(all)| == |multiset(source.server.table)|;
  }

  lemma ExtendTrail(source: Source, steps: seq<Step>, pages: seq<Page>, step: Step, page: Page)
    requires Trail(source, steps, pages) && Legal(pages[|pages| - 1], step)
    requires source.Fetch(TokenFor(pages[|pages| - 1], step), step) == Success(page)
    ensures Trail(source, steps + [step], pages + [page])
  {
    forall i | 0 < i < |pages| + 1 ensures Moved(source, steps + [step], pages + [page], i) {
      if i < |pages| { assert Moved(source, steps, pages, i); }
    }
  }

  /** Encoded cursors of rows of the table are short enough to be accepted. */
  ghost predicate CursorsShort(source: Source) {
    forall r :: r in source.server.table ==>
      source.server.encodedLength(CursorAt(source.relation, source.sort, r)) <= MAX_ENCODED_CURSOR
  }

  lemma NextCursorIsOfRow(source: Source, steps: seq<Step>, pages: seq<Page>) returns (row: Row)
    requires Trail(source, steps, pages) && pages[|pages| - 1].next.Token?
    ensures row in source.server.table && pages[|pages| - 1].next.cursor == CursorAt(source.relation, source.sort, row)
  {
    var all := TableIsArranged(source.server.table, source.relation, source.sort);
    var spans := TrailSpans(source, all, steps, pages);
    var s := spans[|pages| - 1];
    assert ShowsSpan(source, all, pages[|pages| - 1], s);
    ShownPage(source, all, s);
    row := all[s.b - 1];
    assert row in multiset(all);
  }

  /** A walk whose last page has a next cursor can be extended by a page. */
  lemma NextIsFetched(source: Source, steps: seq<Step>, pages: seq<Page>, limit: int) returns (page: Page)
    requires Trail(source, steps, pages) && limit <= 500 && CursorsShort(source) && pages[|pages| - 1].next.Token?
    ensures Trail(source, steps + [Step(Next, limit)], pages + [page])
  {
    var step := Step(Next, limit);
    HandedOutCursorIsAccepted(source, steps, pages, step);
    var row := NextCursorIsOfRow(source, steps, pages);
    page := source.Fetch(pages[|pages| - 1].next, step).value;
    ExtendTrail(source, steps, pages, step, page);
  }

  /** Every forward walk can be carried on, with any page size from 1 to 500, until no cursor is
      left, in at most as many pages as the table has rows. */
  lemma {:induction false} FinishWalk(source: Source, steps: seq<Step>, pages: seq<Page>, limit: int)
    returns (allSteps: seq<Step>, allPages: seq<Page>)
    requires Trail(source, steps, pages) && Forward(steps) && limit <= 500 && CursorsShort(source)
    ensures Trail(source, allSteps, allPages) && Forward(allSteps) && pages <= allPages && steps <= allSteps
    ensures allPages[|allPages| - 1].next.NoToken? && |allPages| <= Max(1, |source.server.table|)
    decreases Max(1, |source.server.table|) - |pages|
  {
    WalkTerminates(source, steps, pages);
    if pages[|pages| - 1].next.NoToken? {
      allSteps, allPages := steps, pages;
    } else {
      var step := Step(Next, limit);
      var page := NextIsFetched(source, steps, pages, limit);
      WalkTerminates(source, steps + [step], pages + [page]);
      allSteps, allPages := FinishWalk(source, steps + [step], pages + [page], limit);
    }
  }

  /** First and then Next while there is a cursor returns the whole table, sorted by the effective
      order, each row exactly once: for every sort choice and every page size up to 500. */
  lemma BrowsingShowsWholeTable(source: Source, limit: int) returns (steps: seq<Step>, pages: seq<Page>)
    requires source.Valid() && limit <= 500 && CursorsShort(source)
    ensures Trail(source, steps, pages) && Forward(steps) && pages[|pages| - 1].next.NoToken?
    ensures |pages| <= Max(1, |source.server.table|)
    ensures Arranges(Order(source.relation, source.sort), source.server.table, Concat(RowsShown(pages), |pages|))
  {
    var first := Step(First, limit);
    var all := TableIsArranged(source.server.table, source.relation, source.sort);
    FirstFetch(source, all, first);
    var page := source.Fetch(NoToken, first).value;
    steps, pages := FinishWalk(source, [first], [page], limit);
    WalkCoversTable(source, steps, pages);
  }

  // ----- Previous undoes Next -----

  /** A page determines the span it shows, when it shows any rows. */
  lemma SpanOfPage(source: Source, all: seq<Row>, s: Span, t: Span)
    requires s.a <= s.b <= |all| && t.a <= t.b <= |all|
    requires s.b == t.b
    ensures source.Shown(all, s) == source.Shown(all, t) <==> s == t
  {
  }

  /** After Next and then Previous the page before is back, rows and cursors alike, if and
      only if it was a full page of the limit or a first page no larger than the limit. */
  lemma PreviousUndoesNext(source: Source, steps: seq<Step>, pages: seq<Page>, i: nat)
    requires Trail(source, steps, pages) && i + 2 < |pages|
    requires steps[i + 1].direction == Next && steps[i + 2].direction == Previous
    ensures
      var limit := EffectiveLimit(steps[i + 2]);
      pages[i + 2] == pages[i] <==>
      (|pages[i].rows| == limit || (pages[i].prev.NoToken? && |pages[i].rows| <= limit))
  {
    var all := TableIsArranged(source.server.table, source.relation, source.sort);
    var spans := TrailSpans(source, all, steps, pages);
    PreviousReturns(|all|, steps, spans, i);
    assert ShowsSpan(source, all, pages[i], spans[i]) && ShowsSpan(source, all, pages[i + 2], spans[i + 2]);
    ShownPage(source, all, spans[i]);
    SpanOfPage(source, all, spans[i + 2], spans[i]);
  }

  /** In a run with one page size Previous always undoes Next, and Next undoes Previous. */
  lemma PreviousAndNextAreInverse(source: Source, steps: seq<Step>, pages: seq<Page>, limit: nat, i: nat)
    requires Trail(source, steps, pages) && Uniform(steps, limit) && i + 2 < |pages|
    requires (steps[i + 1].direction == Next && steps[i + 2].direction == Previous) ||
             (steps[i + 1].direction == Previous && steps[i + 2].direction == Next)
    ensures pages[i + 2] == pages[i]
  {
    var all := TableIsArranged(source.server.table, source.relation, source.sort);
    var spans := TrailSpans(source, all, steps, pages);
    UniformInverse(|all|, steps, spans, limit, i);
    assert ShowsSpan(source, all, pages[i], spans[i]) && ShowsSpan(source, all, pages[i + 2], spans[i + 2]);
  }

  // ----- the queries behind the pages are well formed -----

  lemma LastSortColumnNotNull(source: Source, row: Row)
    requires source.Valid() && row in source.server.table && source.Terms() != []
    requires source.Terms()[|source.Terms()| - 1].column in source.relation.identity
    ensures Field(row, source.Terms()[|source.Terms()| - 1].column).Val?
  {
    KeyedRowNotNull(source.server.table, source.relation.identity, row, source.Terms()[|source.Terms()| - 1].column);
  }

  /** Every query a run sends uses exactly the parameters it binds: the last sort key column
      is an identity column, which is never null. */
  lemma CursorQueriesUseTheirParameters(source: Source, steps: seq<Step>, pages: seq<Page>, i: nat, before: bool)
    requires Trail(source, steps, pages) && i < |pages|
    requires if before then pages[i].prev.Token? else pages[i].next.Token?
    ensures
      var values := (if before then pages[i].prev else pages[i].next).cursor.values;
      |values| == |source.Terms()| &&
      forall p: nat :: References(Seek(source.Terms(), values, before), p) <==> 1 <= p <= |values|
  {
    var all := TableIsArranged(source.server.table, source.relation, source.sort);
    var spans := TrailSpans(source, all, steps, pages);
    assert ShowsSpan(source, all, pages[i], spans[i]);
    ShownPage(source, all, spans[i]);
    var row := if before then all[spans[i].a] else all[spans[i].b - 1];
    assert row in multiset(all);
    RowQueryUsesItsParameters(source, row, before);
  }

  lemma RowQueryUsesItsParameters(source: Source, row: Row, before: bool)
    requires source.Valid() && row in source.server.table
    ensures
      var values := CursorValues(source.Terms(), row);
      forall p: nat :: References(Seek(source.Terms(), values, before), p) <==> 1 <= p <= |values|
  {
    var terms := source.Terms();
    var values := CursorValues(terms, row);
    OrderEndsInIdentity(source.relation.identity, source.sort);
    LastSortColumnNotNull(source, row);
    assert values[|values| - 1] == Field(row, terms[|terms| - 1].column);
    SeekReferencesEveryParameter(terms, values, before);
  }
}
