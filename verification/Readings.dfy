/** What the percentages of the reports, their order and their shades say about used time. */
module Readings {
  import opened CellMeaning
  import opened HeatGrid
  import opened HeatSteps
  import opened Percentage
  import opened Ladder
  import opened Queries
  import opened Rollup
  import opened RoomReports
  import opened Tables
  import opened Text
  import opened Utilization
  import opened Wrappers

  // percent is the whole number nearest to the used share, or zero where there is no capacity.
  predicate Shows(percent: int, used: int, available: int) {
    if available <= 0 then percent == 0
    else -available <= 200 * used - 2 * available * percent < available
  }

  lemma PercentShows(used: int, available: int)
    ensures Shows(Percent(used, available), used, available)
  {
    if available > 0 {
      PercentIsNearest(used, available, Percent(used, available));
    }
  }

  // Every cell of the grid shows its own used share.
  lemma GridShowsUse(c: Campus, ss: seq<Session>, q: Query, i: nat, d: nat)
    requires i < |GridOf(c, ss, q)| && d < 7
    ensures
      var x := GridOf(c, ss, q)[i].cells[d];
      && Shows(x.percent, x.used, x.available)
      && (x.timetabled && x.available > 0 ==> CellShows(x))
  {
    CellMeans(c, ss, q, i, d);
    hide Rungs;
    var x := GridOf(c, ss, q)[i].cells[d];
    PercentShows(x.used, x.available);
  }

  // Every room row shows its room's used share of the one capacity all rooms have.
  lemma RoomsShowUse(c: Campus, ss: seq<Session>, q: Query, x: RoomLoad)
    requires Linked(c) && x in Breakdown(c, ss, q)
    ensures Shows(x.percent, x.used, CellSeconds(c, q)) && x.percent == Percent(x.used, CellSeconds(c, q))
  {
    hide CellSeconds;
    PhysicalKeys(c);
    BreakdownIsComplete(c, ss, q, PhysicalRooms(c));
    PercentShows(x.used, CellSeconds(c, q));
  }

  // Rows come by used time: of two rows that do not show the same percentage, the earlier one was
  // used less; and rows that do come by code.
  lemma LeastUsedComeFirst(c: Campus, ss: seq<Session>, q: Query, a: nat, b: nat)
    requires Linked(c) && a < b < |Breakdown(c, ss, q)|
    ensures
      var x, y := Breakdown(c, ss, q)[a], Breakdown(c, ss, q)[b];
      if x.percent == y.percent then !CodeLess(y.code, x.code) else x.used < y.used
  {
    hide CellSeconds;
    hide RowsFor;
    hide Percent;
    PhysicalKeys(c);
    BreakdownIsComplete(c, ss, q, PhysicalRooms(c));
    var rows, available := Breakdown(c, ss, q), CellSeconds(c, q);
    var x, y := rows[a], rows[b];
    RoomsShowUse(c, ss, q, x);
    RoomsShowUse(c, ss, q, y);
    assert !ByUse()(y, x);
    if available > 0 && y.used <= x.used {
      NonNegative(x.used - y.used, available);
      assert (x.used - y.used) * available == x.used * available - y.used * available;
      PercentFollowsShare(y.used, available, x.used, available);
    }
  }

  // Every building and floor row shows the used share of as many rooms as it counts.
  lemma ScopesShowUse(loads: seq<RoomLoad>, perRoom: int, x: ScopeLoad)
    requires x in RollupOf(loads, perRoom)
    ensures x.available == x.total.rooms * perRoom && Shows(x.percent, x.total.used, x.available)
  {
    hide SortedBuildings;
    BuildingRowsShowUse(loads, SortedBuildings(loads), perRoom, x);
  }

  predicate ScopeShows(x: ScopeLoad, perRoom: int) {
    x.available == x.total.rooms * perRoom && Shows(x.percent, x.total.used, x.available)
  }

  lemma RowForShows(b: Id, floor: Option<int>, total: Scope, perRoom: int)
    ensures ScopeShows(RowFor(b, floor, total, perRoom), perRoom)
  {
    PercentShows(total.used, total.rooms * perRoom);
  }

  lemma {:induction false} FloorRowsShowUse(loads: seq<RoomLoad>, b: Id, numbers: seq<int>, perRoom: int, x: ScopeLoad)
    requires x in FloorRows(loads, b, numbers, perRoom)
    ensures ScopeShows(x, perRoom)
  {
    hide ScopeShows;
    hide FloorScope;
    var n := |numbers| - 1;
    RowForShows(b, Some(numbers[n]), FloorScope(loads, b, numbers[n]), perRoom);
    if x in FloorRows(loads, b, numbers[..n], perRoom) {
      FloorRowsShowUse(loads, b, numbers[..n], perRoom, x);
    }
  }

  lemma {:induction false} BuildingRowsShowUse(loads: seq<RoomLoad>, buildings: seq<Id>, perRoom: int, x: ScopeLoad)
    requires x in BuildingRows(loads, buildings, perRoom)
    ensures ScopeShows(x, perRoom)
  {
    hide ScopeShows;
    hide RowFor;
    hide BuildingScope;
    hide FloorRows;
    hide FloorsIn;
    var n := |buildings| - 1;
    var b := buildings[n];
    RowForShows(b, None, BuildingScope(loads, b), perRoom);
    if x in BuildingRows(loads, buildings[..n], perRoom) {
      BuildingRowsShowUse(loads, buildings[..n], perRoom, x);
    } else if x in FloorRows(loads, b, Sorted(FloorsIn(loads, b)), perRoom) {
      FloorRowsShowUse(loads, b, Sorted(FloorsIn(loads, b)), perRoom, x);
    }
  }

  predicate CellShows(x: HeatCell) {
    x.timetabled && x.used >= 0 && x.available > 0 && Shows(x.percent, x.used, x.available)
  }

  predicate CellIn(x: HeatCell, row: seq<CellBox>) {
    exists box :: box in row && box.cell == x
  }

  // Of two timetabled cells, the one used for a larger share of its capacity is at least as dark,
  // and one never used is on step 0.
  lemma ShadesFollowUse(grid: seq<seq<CellBox>>, a: HeatCell, b: HeatCell, rowA: seq<CellBox>, rowB: seq<CellBox>)
    requires rowA in grid && rowB in grid && CellIn(a, rowA) && CellIn(b, rowB)
    requires CellShows(a) && CellShows(b) && a.used * b.available <= b.used * a.available
    ensures
      var used := SortValues(GridValues(grid));
      && ShadeOf(used, a).Some? && ShadeOf(used, b).Some?
      && ShadeOf(used, a).value <= ShadeOf(used, b).value
      && (b.used == 0 ==> ShadeOf(used, b).value == 0)
  {
    hide ShadeOf;
    hide Percent;
    PercentIsNearest(a.used, a.available, a.percent);
    PercentIsNearest(b.used, b.available, b.percent);
    PercentEnds(a.available);
    PercentEnds(b.available);
    NonNegative(a.used, a.available);
    PercentFollowsShare(0, a.available, a.used, a.available);
    PercentFollowsShare(a.used, a.available, b.used, b.available);
    ShadesFollowReadings(grid, a, b, rowA, rowB);
  }
}
