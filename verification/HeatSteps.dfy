/** Shading the heat grid: every used cell gets one of four steps by its rank among the used cells. */
module HeatSteps {
  import opened HeatGrid
  import opened Sorting
  import opened Wrappers

  const HEAT_STEPS := 4

  /* Sorting the percentages */

  function Lighter(): (int, int) -> bool {
    (a: int, b: int) => a < b
  }

  function SortValues(s: seq<int>): (r: seq<int>)
    ensures multiset(r) == multiset(s) && InOrder(r, Lighter())
  {
    SortByOrders(s, Lighter());
    SortBy(s, Lighter())
  }

  /* Ranks and steps */

  // list.index
  function IndexOf(s: seq<int>, v: int): (i: nat)
    requires v in s
    ensures i < |s| && s[i] == v && forall j :: 0 <= j < i ==> s[j] != v
  {
    if s[0] == v then 0 else 1 + IndexOf(s[1..], v)
  }

  function Rank(used: seq<int>, v: int): nat
    requires v in used
  {
    IndexOf(used, v) + multiset(used)[v]
  }

  // ceil(rank * 4 / total), as negated floor division.
  function Quarter(rank: int, total: int): int
    requires total > 0
  {
    -((-rank) * HEAT_STEPS / total)
  }

  function Clamped(step: int): int {
    var high := if step < HEAT_STEPS then step else HEAT_STEPS;
    if high < 1 then 1 else high
  }

  // The shade of a timetabled cell that reads v, when the used cells read used, sorted.
  function StepOf(used: seq<int>, v: int): int {
    if v in used then Clamped(Quarter(Rank(used, v), |used|)) else 0
  }

  class CellBox {
    const cell: HeatCell
    var step: Option<int>

    constructor (cell: HeatCell)
      ensures this.cell == cell && step == None
    {
      this.cell := cell;
      step := None;
    }
  }

  predicate Reads(x: HeatCell) {
    x.timetabled && x.percent != 0
  }

  function RowValues(row: seq<CellBox>): seq<int> {
    if row == [] then []
    else
      var x := row[|row| - 1].cell;
      RowValues(row[..|row| - 1]) + if Reads(x) then [x.percent] else []
  }

  // The percentages of the timetabled and used cells, row by row.
  function GridValues(grid: seq<seq<CellBox>>): seq<int> {
    if grid == [] then [] else GridValues(grid[..|grid| - 1]) + RowValues(grid[|grid| - 1])
  }

  function ShadeOf(used: seq<int>, x: HeatCell): Option<int> {
    if x.timetabled then Some(StepOf(used, x.percent)) else None
  }

  method StepsByValue(used: seq<int>) returns (steps: map<int, int>)
    ensures forall v :: v in steps <==> v in used
    ensures forall v :: v in steps ==> steps[v] == StepOf(used, v)
  {
    steps := map[];
    for i := 0 to |used|
      invariant forall v :: v in steps <==> v in used[..i]
      invariant forall v :: v in steps ==> steps[v] == StepOf(used, v)
    {
      if used[i] !in steps {
        steps := steps[used[i] := Clamped(Quarter(Rank(used, used[i]), |used|))];
      }
    }
  }

  method ShadeRow(row: seq<CellBox>, steps: map<int, int>, ghost used: seq<int>)
    requires forall v :: v in steps <==> v in used
    requires forall v :: v in steps ==> steps[v] == StepOf(used, v)
    modifies set x | x in row
    ensures forall x :: x in row ==> x.step == ShadeOf(used, x.cell)
  {
    for j := 0 to |row|
      invariant forall k :: 0 <= k < j ==> row[k].step == ShadeOf(used, row[k].cell)
    {
      var x := row[j];
      if !x.cell.timetabled {
        x.step := None;
      } else {
        x.step := Some(if x.cell.percent in steps then steps[x.cell.percent] else 0);
      }
    }
  }

  method AnnotateHeatSteps(grid: seq<seq<CellBox>>)
    modifies set row, x | row in grid && x in row :: x
    ensures
      var used := SortValues(GridValues(grid));
      forall row, x :: row in grid && x in row ==> x.step == ShadeOf(used, x.cell)
  {
    hide ShadeOf;
    var used := SortValues(GridValues(grid));
    var steps := StepsByValue(used);
    for i := 0 to |grid|
      invariant forall k, x :: 0 <= k < i && x in grid[k] ==> x.step == ShadeOf(used, x.cell)
    {
      ShadeRow(grid[i], steps, used);
    }
  }

  /* What the shades mean */

  // How many of the values are v or less.
  function AtMost(s: seq<int>, v: int): (n: nat)
    ensures n <= |s|
  {
    if s == [] then 0 else AtMost(s[..|s| - 1], v) + if s[|s| - 1] <= v then 1 else 0
  }

  // In sorted order, the first index plus the number of equals counts the cells at or below.
  lemma {:induction false} RankCountsAtMost(s: seq<int>, v: int)
    requires InOrder(s, Lighter()) && v in s
    ensures Rank(s, v) == AtMost(s, v)
  {
    var n := |s| - 1;
    var front := s[..n];
    assert s == front + [s[n]];
    if v in front {
      RankCountsAtMost(front, v);
      SameIndex(front, s[n], v);
    } else {
      assert IndexOf(s, v) == n;
      NoneAbove(front, v);
    }
  }

  lemma SameIndex(front: seq<int>, last: int, v: int)
    requires v in front
    ensures IndexOf(front + [last], v) == IndexOf(front, v)
  {
    var i, j := IndexOf(front + [last], v), IndexOf(front, v);
    assert (front + [last])[j] == v;
    assert i < |front| ==> front[i] == v;
  }

  lemma {:induction false} NoneAbove(s: seq<int>, v: int)
    requires forall x :: x in s ==> x <= v
    ensures AtMost(s, v) == |s|
  {
    if s != [] {
      var n := |s| - 1;
      assert s[n] in s && forall x :: x in s[..n] ==> x in s;
      NoneAbove(s[..n], v);
    }
  }

  lemma {:induction false} AtMostGrows(s: seq<int>, v: int, w: int)
    requires v <= w
    ensures AtMost(s, v) <= AtMost(s, w)
    ensures v in s ==> AtMost(s, v) >= 1
  {
    if s != [] {
      AtMostGrows(s[..|s| - 1], v, w);
    }
  }

  lemma QuarterIsCeiling(rank: int, total: int, k: int)
    requires 1 <= rank <= total
    ensures 1 <= Quarter(rank, total) <= HEAT_STEPS
    ensures Quarter(rank, total) <= k <==> HEAT_STEPS * rank <= k * total
  {
    var q := Quarter(rank, total);
    CeilingBounds(HEAT_STEPS * rank, total);
    assert (-rank) * HEAT_STEPS == -(HEAT_STEPS * rank);
    Between(HEAT_STEPS * rank, total, q, k);
    Between(HEAT_STEPS * rank, total, q, 0);
    Between(HEAT_STEPS * rank, total, q, HEAT_STEPS);
  }

  lemma CeilingBounds(x: int, t: int)
    requires t > 0
    ensures (-((-x) / t) - 1) * t < x <= -((-x) / t) * t
  {
    var d := (-x) / t;
    assert -x == d * t + (-x) % t;
    assert (-d - 1) * t == -(d * t) - t;
  }

  lemma Between(x: int, t: int, q: int, k: int)
    requires t > 0 && (q - 1) * t < x <= q * t
    ensures q <= k <==> x <= k * t
  {
    if q <= k {
      Product(k - q, t);
      assert (k - q) * t == k * t - q * t;
    } else {
      Product(q - 1 - k, t);
      assert (q - 1 - k) * t == (q - 1) * t - k * t;
    }
  }

  lemma Product(d: int, t: int)
    requires d >= 0 && t >= 0
    ensures d * t >= 0
  {
  }

  // Four times as many used cells as read v or less fit into k times all of them.
  predicate WithinQuarters(used: seq<int>, v: int, k: int) {
    HEAT_STEPS * AtMost(used, v) <= k * |used|
  }

  // The clamp never bites, and a used cell is on step k or lower exactly when no more than k
  // quarters of the used cells read the same or less.
  lemma StepIsQuarter(values: seq<int>, v: int, k: int)
    requires v in values
    ensures
      var used := SortValues(values);
      && v in used
      && StepOf(used, v) == Quarter(Rank(used, v), |used|) && 1 <= StepOf(used, v) <= HEAT_STEPS
      && (StepOf(used, v) <= k <==> WithinQuarters(used, v, k))
  {
    hide Quarter;
    var used := SortValues(values);
    assert v in multiset(values);
    RankCountsAtMost(used, v);
    AtMostGrows(used, v, v);
    QuarterIsCeiling(AtMost(used, v), |used|, k);
  }

  // A cell that reads more is never painted lighter.
  lemma StepsFollowReadings(values: seq<int>, v: int, w: int)
    requires v in values && w in values && v <= w
    ensures StepOf(SortValues(values), v) <= StepOf(SortValues(values), w)
  {
    var used := SortValues(values);
    var k := StepOf(used, w);
    AtMostGrows(used, v, w);
    assert WithinQuarters(used, w, k) ==> WithinQuarters(used, v, k);
    hide StepOf;
    hide WithinQuarters;
    hide Rank;
    StepIsQuarter(values, w, k);
    StepIsQuarter(values, v, k);
  }

  // The highest reading is painted darkest.
  lemma HighestIsDarkest(values: seq<int>, w: int)
    requires w in values && forall x :: x in values ==> x <= w
    ensures StepOf(SortValues(values), w) == HEAT_STEPS
  {
    hide StepOf;
    hide Rank;
    var used := SortValues(values);
    SameMembers(values);
    NoneAbove(used, w);
    StepIsQuarter(values, w, HEAT_STEPS - 1);
  }

  lemma SameMembers(values: seq<int>)
    ensures forall x :: x in SortValues(values) <==> x in values
    ensures |SortValues(values)| == |values|
  {
    assert forall x :: x in SortValues(values) <==> x in multiset(SortValues(values));
    assert forall x :: x in values <==> x in multiset(values);
    assert |multiset(SortValues(values))| == |multiset(values)|;
  }

  lemma Unread(used: seq<int>)
    requires 0 !in used
    ensures StepOf(used, 0) == 0
  {
  }

  lemma {:induction false} GridValuesAreReadings(grid: seq<seq<CellBox>>)
    ensures 0 !in GridValues(grid)
    ensures forall row, x :: row in grid && x in row && Reads(x.cell) ==> x.cell.percent in GridValues(grid)
  {
    if grid != [] {
      var n := |grid| - 1;
      GridValuesAreReadings(grid[..n]);
      RowValuesAreReadings(grid[n]);
      assert grid == grid[..n] + [grid[n]];
    }
  }

  lemma {:induction false} RowValuesAreReadings(row: seq<CellBox>)
    ensures 0 !in RowValues(row)
    ensures forall x :: x in row && Reads(x.cell) ==> x.cell.percent in RowValues(row)
  {
    if row != [] {
      var n := |row| - 1;
      RowValuesAreReadings(row[..n]);
      assert row == row[..n] + [row[n]];
    }
  }

  // Over a whole grid: of two timetabled cells the one that reads more is at least as dark, a
  // cell that reads zero is on step 0 and any other on a step from 1 to 4.
  lemma ShadesFollowReadings(grid: seq<seq<CellBox>>, a: HeatCell, b: HeatCell, rowA: seq<CellBox>, rowB: seq<CellBox>)
    requires rowA in grid && rowB in grid
    requires (exists x :: x in rowA && x.cell == a) && (exists y :: y in rowB && y.cell == b)
    requires a.timetabled && b.timetabled && 0 <= a.percent <= b.percent
    ensures
      var used := SortValues(GridValues(grid));
      && ShadeOf(used, a).Some? && ShadeOf(used, b).Some?
      && ShadeOf(used, a).value <= ShadeOf(used, b).value
      && (if b.percent == 0 then ShadeOf(used, b).value == 0 else 1 <= ShadeOf(used, b).value <= HEAT_STEPS)
  {
    hide StepOf;
    hide WithinQuarters;
    hide Rank;
    hide Quarter;
    var values := GridValues(grid);
    GridValuesAreReadings(grid);
    SameMembers(values);
    Unread(SortValues(values));
    if b.percent != 0 {
      StepIsQuarter(values, b.percent, 0);
    }
    if a.percent != 0 {
      StepsFollowReadings(values, a.percent, b.percent);
    }
  }
}
