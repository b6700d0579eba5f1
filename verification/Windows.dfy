/** Windows over columns and tabs: as many as fit, always with the selected one. */
module Windows {
  import opened Relations

  /** The width of items `a` to `b`, with one cell between neighbours. */
  function Spread(widths: seq<nat>, a: nat, b: nat): nat
    requires b <= |widths|
    decreases b
  {
    if b <= a then 0 else Spread(widths, a, b - 1) + widths[b - 1] + if b - 1 > a then 1 else 0
  }

  lemma {:induction false} SpreadGrows(widths: seq<nat>, a: nat, b: nat, c: nat)
    requires a <= b <= c <= |widths|
    ensures Spread(widths, a, b) <= Spread(widths, a, c)
    decreases c
  {
    if b < c { SpreadGrows(widths, a, b, c - 1); }
  }

  /** One more item in front adds its width and a gap. */
  lemma {:induction false} SpreadFront(widths: seq<nat>, a: nat, b: nat)
    requires a + 1 < b <= |widths|
    ensures Spread(widths, a, b) == widths[a] + 1 + Spread(widths, a + 1, b)
    decreases b
  {
    if b > a + 2 { SpreadFront(widths, a, b - 1); } else { assert Spread(widths, a, a + 1) == widths[a]; }
  }

  function Sum(widths: seq<nat>): nat {
    if widths == [] then 0 else widths[0] + Sum(widths[1..])
  }

  /** The widths, and a cell between any two neighbours. */
  lemma {:induction false} SpreadIsSum(widths: seq<nat>, a: nat, b: nat)
    requires a < b <= |widths|
    ensures Spread(widths, a, b) == Sum(widths[a..b]) + (b - a - 1)
    decreases b - a
  {
    assert widths[a..b][1..] == widths[a + 1..b];
    if a + 1 < b {
      SpreadFront(widths, a, b);
      SpreadIsSum(widths, a + 1, b);
    } else {
      assert Spread(widths, a, a + 1) == widths[a];
    }
  }

  function Available(width: int): nat { Max(1, width - 2) }

  // ----- columns -----

  /** The selected column and the ones from the offset to it fit, or it is the first shown. */
  predicate Reaches(widths: seq<nat>, offset: nat, selected: nat, available: nat)
    requires selected < |widths|
  {
    offset == selected || (offset < selected && Spread(widths, offset, selected + 1) <= available)
  }

  predicate TooWide(widths: seq<nat>, offset: nat, selected: nat, available: nat)
    requires selected < |widths|
  {
    Spread(widths, offset, selected + 1) > available
  }

  /** Moves the offset left to the selection, or right as little as shows the selection; without
      columns it starts over. */
  method EnsureColumnVisible(widths: seq<nat>, width: int, offset: nat, selected: nat) returns (r: nat)
    requires widths == [] || selected < |widths|
    ensures widths == [] ==> r == 0
    ensures widths != [] ==>
              Reaches(widths, r, selected, Available(width)) && (offset <= selected ==> offset <= r) &&
              forall o :: offset <= o < r ==> TooWide(widths, o, selected, Available(width))
  {
    if widths == [] {
      return 0;
    }
    r := offset;
    if selected < r {
      r := selected;
    }
    while r < selected
      invariant r <= selected && (offset <= selected ==> offset <= r)
      invariant forall o :: offset <= o < r ==> TooWide(widths, o, selected, Available(width))
      decreases selected - r
    {
      var used := 0;
      for index := r to selected + 1
        invariant used == Spread(widths, r, index)
      {
        if index > r {
          used := used + 1;
        }
        used := used + widths[index];
      }
      if used <= Available(width) {
        break;
      }
      r := r + 1;
    }
  }

  /** A window from the offset on: what fits, but at least one, and nothing more would fit. */
  predicate IsWindow(widths: seq<nat>, offset: nat, end: nat, available: nat) {
    offset <= end <= |widths| && (end == offset <==> offset == |widths|) &&
    (end > offset + 1 ==> Spread(widths, offset, end) <= available) &&
    (end < |widths| ==> Spread(widths, offset, end + 1) > available)
  }

  function Indices(a: nat, b: nat): (r: seq<nat>)
    requires a <= b
    ensures |r| == b - a
  {
    seq(b - a, i requires 0 <= i < b - a => a + i)
  }

  method VisibleColumns(widths: seq<nat>, width: int, offset: nat) returns (indices: seq<nat>, end: nat)
    requires offset <= |widths|
    ensures IsWindow(widths, offset, end, Available(width)) && indices == Indices(offset, end)
  {
    var used := 0;
    indices := [];
    var index := offset;
    while index < |widths|
      invariant offset <= index <= |widths| && indices == Indices(offset, index) &&
        used == Spread(widths, offset, index)
      invariant index > offset + 1 ==> used <= Available(width)
    {
      var next := widths[index];
      if |indices| > 0 {
        next := next + 1;
      }
      if used + next > Available(width) && |indices| > 0 {
        break;
      }
      indices := indices + [index];
      used := used + next;
      index := index + 1;
    }
    end := index;
  }

  /** Whatever the widths and the screen: once the offset reaches the selection, every window
      from that offset contains the selection. */
  lemma WindowContainsSelection(widths: seq<nat>, offset: nat, selected: nat, end: nat, available: nat)
    requires selected < |widths| && Reaches(widths, offset, selected, available) &&
      IsWindow(widths, offset, end, available)
    ensures offset <= selected < end && selected in Indices(offset, end)
  {
    if end <= selected {
      SpreadGrows(widths, offset, end + 1, selected + 1);
    } else {
      assert Indices(offset, end)[selected - offset] == selected;
    }
  }

  /** Scrolling the selection into view and then listing the columns lists the selection. */
  method ShowSelection(widths: seq<nat>, width: int, offset: nat, selected: nat) returns (indices: seq<nat>)
    requires selected < |widths|
    ensures selected in indices
  {
    var r := EnsureColumnVisible(widths, width, offset, selected);
    var end;
    indices, end := VisibleColumns(widths, width, r);
    WindowContainsSelection(widths, r, selected, end, Available(width));
  }

  /** On a screen of three cells or more, two or more columns shown leave two cells for the
      edges, and the column after them would not fit. */
  lemma ColumnsFit(widths: seq<nat>, width: int, offset: nat, end: nat)
    requires IsWindow(widths, offset, end, Available(width)) && width >= 3
    ensures end > offset + 1 ==> Sum(widths[offset..end]) + (end - offset - 1) + 2 <= width
    ensures end < |widths| ==> Sum(widths[offset..end + 1]) + (end - offset) + 2 > width
  {
    if end > offset { SpreadIsSum(widths, offset, end); }
    if end < |widths| { SpreadIsSum(widths, offset, end + 1); }
  }

  // ----- tabs -----

  function TabBudget(width: int): nat { Max(4, width - 9) }

  /** A run of tabs around the active one that fits the budget, unless it is the active tab
      alone, and that no neighbour could join. */
  ghost predicate IsTabWindow(widths: seq<nat>, active: nat, start: nat, end: nat, budget: nat) {
    start <= active < end <= |widths| &&
    (Spread(widths, start, end) <= budget || (start == active && end == active + 1)) &&
    (start > 0 ==> Spread(widths, start - 1, end) > budget) &&
    (end < |widths| ==> Spread(widths, start, end + 1) > budget)
  }

  /** On a screen of thirteen cells or more, two or more tabs shown leave nine cells, and no
      neighbour would fit. */
  lemma TabsFit(widths: seq<nat>, width: int, active: nat, start: nat, end: nat)
    requires IsTabWindow(widths, active, start, end, TabBudget(width)) && width >= 13
    ensures end > start + 1 ==> Sum(widths[start..end]) + (end - start - 1) + 9 <= width
    ensures start > 0 ==> Sum(widths[start - 1..end]) + (end - start) + 9 > width
    ensures end < |widths| ==> Sum(widths[start..end + 1]) + (end - start) + 9 > width
  {
    SpreadIsSum(widths, start, end);
    if start > 0 { SpreadIsSum(widths, start - 1, end); }
    if end < |widths| { SpreadIsSum(widths, start, end + 1); }
  }

  method TotalWidth(widths: seq<nat>) returns (total: nat)
    ensures total == Spread(widths, 0, |widths|)
  {
    total := 0;
    for index := 0 to |widths|
      invariant total == Spread(widths, 0, index)
    {
      if index > 0 {
        total := total + 1;
      }
      total := total + widths[index];
    }
  }

  /** Grows the window from the active tab to the left as far as it fits. */
  method GrowLeft(widths: seq<nat>, active: nat, budget: nat) returns (start: nat, used: nat)
    requires active < |widths|
    ensures start <= active && used == Spread(widths, start, active + 1) && (used <= budget || start == active)
    ensures start > 0 ==> Spread(widths, start - 1, active + 1) > budget
  {
    start := active;
    used := widths[active];
    assert used == Spread(widths, active, active + 1);
    while start > 0
      invariant start <= active && used == Spread(widths, start, active + 1) && (used <= budget || start == active)
    {
      SpreadFront(widths, start - 1, active + 1);
      var candidate := widths[start - 1] + 1;
      if used + candidate > budget {
        break;
      }
      start := start - 1;
      used := used + candidate;
    }
  }

  /** Grows it to the right. */
  method GrowRight(widths: seq<nat>, start: nat, active: nat, budget: nat, before: nat) returns (end: nat)
    requires start <= active < |widths| && before == Spread(widths, start, active + 1) &&
      (before <= budget || start == active)
    ensures active < end <= |widths| && (Spread(widths, start, end) <= budget || (start == active && end == active + 1))
    ensures end < |widths| ==> Spread(widths, start, end + 1) > budget
  {
    end := active + 1;
    var used := before;
    while end < |widths|
      invariant active < end <= |widths| && used == Spread(widths, start, end)
      invariant used <= budget || (start == active && end == active + 1)
    {
      var candidate := widths[end] + 1;
      if used + candidate > budget {
        break;
      }
      end := end + 1;
      used := used + candidate;
    }
  }

  /** The tabs shown: all when they fit, none without room, else a window around the active tab
      (the first tab when none is active). */
  method VisibleTabIndices(
    widths: seq<nat>, activeIndex: int, width: int) returns (indices: seq<nat>, start: nat, end: nat)
    requires activeIndex < |widths|
    ensures |widths| == 0 || width <= 0 ==> indices == []
    ensures |widths| > 0 && width > 0 ==>
      start <= end && indices == Indices(start, end) &&
      IsTabWindow(widths, Max(0, activeIndex), start, end, TabBudget(width))
    ensures |widths| > 0 && width > 0 && Spread(widths, 0, |widths|) <= TabBudget(width) ==> |indices| == |widths|
  {
    indices, start, end := [], 0, 0;
    if |widths| == 0 || width <= 0 {
      return;
    }
    var budget := TabBudget(width);
    var all := TotalWidth(widths);
    if all <= budget {
      indices, start, end := Indices(0, |widths|), 0, |widths|;
      return;
    }
    var active := Max(0, activeIndex);
    var from, used := GrowLeft(widths, active, budget);
    var to := GrowRight(widths, from, active, budget, used);
    if from > 0 {
      SpreadGrows(widths, from - 1, active + 1, to);
    }
    indices, start, end := Indices(from, to), from, to;
  }
}
