/** Browsing runs seen only as positions: each page of a table of `n` rows is a span `a..b`. */
module KeysetSpans {
  import opened Relations

  /** One page request of a browsing run; its cursor comes from the page shown before it. */
  datatype Step = Step(direction: PageDirection, limit: int)

  datatype Span = Span(a: nat, b: nat)

  function EffectiveLimit(step: Step): (limit: nat)
    ensures limit > 0
  {
    if step.limit <= 0 then DEFAULT_PAGE_SIZE else step.limit
  }

  /** Where a request lands, started from a span. */
  function Landing(n: nat, s: Span, step: Step): Span
    requires s.a <= s.b <= n
  {
    if step.direction == Next then Span(s.b, Min(s.b + EffectiveLimit(step), n))
    else if step.direction == Previous then Span(Max(0, s.a - EffectiveLimit(step)), s.a)
    else Span(0, Min(EffectiveLimit(step), n))
  }

  /** Next and Previous are only requested where rows remain on that side. */
  predicate CanMove(n: nat, s: Span, step: Step) {
    s.a <= s.b <= n && step.limit <= 500 &&
    (step.direction == First || (step.direction == Next && s.a < s.b < n) ||
      (step.direction == Previous && 0 < s.a < s.b))
  }

  ghost predicate SpanMoved(n: nat, steps: seq<Step>, spans: seq<Span>, i: int) {
    0 < i < |spans| <= |steps| && CanMove(n, spans[i - 1], steps[i]) && spans[i] == Landing(n, spans[i - 1], steps[i])
  }

  /** The spans of the first requests of a run. */
  ghost predicate SpanRun(n: nat, steps: seq<Step>, spans: seq<Span>) {
    0 < |spans| <= |steps| && steps[0].direction == First && spans[0] == Span(0, Min(EffectiveLimit(steps[0]), n)) &&
    forall i :: 0 < i < |spans| ==> SpanMoved(n, steps, spans, i)
  }

  lemma ExtendRun(n: nat, steps: seq<Step>, spans: seq<Span>, next: Span)
    requires SpanRun(n, steps, spans) && |spans| < |steps|
    requires CanMove(n, spans[|spans| - 1], steps[|spans|])
    requires next == Landing(n, spans[|spans| - 1], steps[|spans|])
    ensures SpanRun(n, steps, spans + [next])
  {
    forall i | 0 < i < |spans| + 1 ensures SpanMoved(n, steps, spans + [next], i) {
      if i < |spans| { assert SpanMoved(n, steps, spans, i); }
    }
  }

  ghost predicate Carries(n: nat, steps: seq<Step>, at: (int, Span) -> bool, i: int, s: Span) {
    0 < i < |steps| && at(i - 1, s) ==> CanMove(n, s, steps[i]) && at(i, Landing(n, s, steps[i]))
  }

  /** If whatever `at(i, s)` says about request `i` is true of the first span and carried along
      by every move, it is true of a whole run of spans. */
  lemma {:induction false} FollowRun(
    n: nat, steps: seq<Step>, at: (int, Span) -> bool, m: nat) returns (spans: seq<Span>)
    requires 0 < m <= |steps| && steps[0].direction == First && at(0, Span(0, Min(EffectiveLimit(steps[0]), n)))
    requires forall i, s :: 0 < i < m ==> Carries(n, steps, at, i, s)
    ensures |spans| == m && SpanRun(n, steps, spans) && forall i :: 0 <= i < m ==> at(i, spans[i])
  {
    if m == 1 {
      spans := [Span(0, Min(EffectiveLimit(steps[0]), n))];
    } else {
      var shorter := FollowRun(n, steps, at, m - 1);
      var s := shorter[m - 2];
      assert Carries(n, steps, at, m - 1, s);
      var next := Landing(n, s, steps[m - 1]);
      ExtendRun(n, steps, shorter, next);
      spans := shorter + [next];
    }
  }

  /** Every span of a run lies within the table, is no longer than its limit, and is empty
      only if the table is. */
  lemma SpansInside(n: nat, steps: seq<Step>, spans: seq<Span>, i: nat)
    requires SpanRun(n, steps, spans) && i < |spans|
    ensures spans[i].a <= spans[i].b <= n && spans[i].b - spans[i].a <= EffectiveLimit(steps[i])
    ensures spans[i].a == spans[i].b ==> n == 0
  {
    if i > 0 { assert SpanMoved(n, steps, spans, i); }
  }

  ghost predicate Forward(steps: seq<Step>) {
    forall i :: 0 < i < |steps| ==> steps[i].direction == Next
  }

  /** A forward run is contiguous, starts at zero, and moves on at every step. */
  lemma {:induction false} ForwardAdvances(n: nat, steps: seq<Step>, spans: seq<Span>, i: nat)
    requires SpanRun(n, steps, spans) && Forward(steps) && i < |spans|
    ensures spans[i].a == (if i == 0 then 0 else spans[i - 1].b)
    ensures i <= spans[i].a
    ensures i > 0 ==> spans[i].a < n
  {
    if i > 0 {
      ForwardAdvances(n, steps, spans, i - 1);
      assert SpanMoved(n, steps, spans, i);
    }
  }

  /** After Next and then Previous the span before is back if and only if it had the length of
      the limit, or started at zero and was no longer. */
  lemma PreviousReturns(n: nat, steps: seq<Step>, spans: seq<Span>, i: nat)
    requires SpanRun(n, steps, spans) && i + 2 < |spans|
    requires steps[i + 1].direction == Next && steps[i + 2].direction == Previous
    ensures
      var limit := EffectiveLimit(steps[i + 2]);
      var length := spans[i].b - spans[i].a;
      spans[i + 2] == spans[i] <==> length == limit || (spans[i].a == 0 && length <= limit)
    ensures spans[i + 2].b == spans[i].b && spans[i].a < spans[i].b
  {
    assert SpanMoved(n, steps, spans, i + 1) && SpanMoved(n, steps, spans, i + 2);
  }

  /** All requests of the run use one page size, as the grid's do. */
  ghost predicate Uniform(steps: seq<Step>, limit: nat) {
    limit > 0 && forall i :: 0 <= i < |steps| ==> EffectiveLimit(steps[i]) == limit
  }

  /** Page number `q` of size `limit` over `n` rows. */
  function Aligned(q: nat, limit: nat, n: nat): Span {
    Span(q * limit, Min(q * limit + limit, n))
  }

  /** With one page size, every page starts at a multiple of it and is full unless it is last. */
  lemma {:induction false} UniformAligned(
    n: nat, steps: seq<Step>, spans: seq<Span>, limit: nat, i: nat) returns (q: nat)
    requires SpanRun(n, steps, spans) && Uniform(steps, limit) && i < |spans|
    ensures spans[i] == Aligned(q, limit, n)
    decreases i
  {
    if i == 0 || steps[i].direction == First {
      q := 0;
      if i > 0 { assert SpanMoved(n, steps, spans, i); }
    } else {
      var p := UniformAligned(n, steps, spans, limit, i - 1);
      assert SpanMoved(n, steps, spans, i);
      if steps[i].direction == Next {
        q := p + 1;
        assert q * limit == p * limit + limit;
      } else {
        q := p - 1;
        assert q * limit == p * limit - limit;
      }
    }
  }

  /** With one page size Previous undoes Next and Next undoes Previous. */
  lemma UniformInverse(n: nat, steps: seq<Step>, spans: seq<Span>, limit: nat, i: nat)
    requires SpanRun(n, steps, spans) && Uniform(steps, limit) && i + 2 < |spans|
    requires (steps[i + 1].direction == Next && steps[i + 2].direction == Previous) ||
             (steps[i + 1].direction == Previous && steps[i + 2].direction == Next)
    ensures spans[i + 2] == spans[i]
  {
    var q := UniformAligned(n, steps, spans, limit, i);
    assert SpanMoved(n, steps, spans, i + 1) && SpanMoved(n, steps, spans, i + 2);
    if steps[i + 1].direction == Previous {
      assert q * limit == (q - 1) * limit + limit;
    }
  }
}
