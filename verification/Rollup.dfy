/** Room rows reduced to floor and building rows. */
module Rollup {
  import opened Buckets
  import opened Percentage
  import opened Queries
  import opened RoomReports
  import opened Tables
  import opened Utilization
  import opened Wrappers

  /* Accumulating by building and, inside it, by floor */

  datatype Scope = Scope(rooms: int, used: int, booked: int, wasted: int)

  datatype Building = Building(total: Scope, floors: map<int, Scope>)

  function AddLoad(s: Scope, x: RoomLoad): Scope {
    Scope(s.rooms + 1, s.used + x.used, s.booked + x.booked, s.wasted + x.wasted)
  }

  const NOTHING := Scope(0, 0, 0, 0)

  function OfScope(m: Measure, s: Scope): int {
    match m
    case Rooms => s.rooms
    case UsedTime => s.used
    case BookedTime => s.booked
    case WastedRoomTime => s.wasted
  }

  // What the rows of a building, and of one of its floors, add up to.
  function BuildingScope(loads: seq<RoomLoad>, b: Id): Scope {
    if loads == [] then NOTHING
    else
      var x := loads[|loads| - 1];
      if x.building == b then AddLoad(BuildingScope(loads[..|loads| - 1], b), x) else BuildingScope(loads[..|loads| - 1], b)
  }

  function FloorScope(loads: seq<RoomLoad>, b: Id, number: int): Scope {
    if loads == [] then NOTHING
    else
      var x := loads[|loads| - 1];
      if x.building == b && x.floor == number then AddLoad(FloorScope(loads[..|loads| - 1], b, number), x)
      else FloorScope(loads[..|loads| - 1], b, number)
  }

  function BuildingsIn(loads: seq<RoomLoad>): set<int> {
    set x | x in loads :: x.building
  }

  function FloorsIn(loads: seq<RoomLoad>, b: Id): set<int> {
    set x | x in loads && x.building == b :: x.floor
  }

  ghost predicate Reduced(loads: seq<RoomLoad>, buildings: map<Id, Building>) {
    && (forall b: Id :: b in buildings <==> b in BuildingsIn(loads))
    && (forall b :: b in buildings ==> buildings[b].total == BuildingScope(loads, b))
    && (forall b, n: int :: b in buildings ==> (n in buildings[b].floors <==> n in FloorsIn(loads, b)))
    && (forall b, n :: b in buildings && n in buildings[b].floors ==>
          buildings[b].floors[n] == FloorScope(loads, b, n))
  }

  // setdefault on both levels, then add the row to both scopes.
  function AddRow(buildings: map<Id, Building>, x: RoomLoad): map<Id, Building> {
    var b := if x.building in buildings then buildings[x.building] else Building(NOTHING, map[]);
    var f := if x.floor in b.floors then b.floors[x.floor] else NOTHING;
    buildings[x.building := Building(AddLoad(b.total, x), b.floors[x.floor := AddLoad(f, x)])]
  }

  lemma {:induction false} NoRowsNoScope(loads: seq<RoomLoad>, b: Id, n: int)
    ensures b !in BuildingsIn(loads) ==> BuildingScope(loads, b) == NOTHING
    ensures n !in FloorsIn(loads, b) ==> FloorScope(loads, b, n) == NOTHING
  {
    if loads != [] {
      var k := |loads| - 1;
      NoRowsNoScope(loads[..k], b, n);
      assert loads[k] in loads;
      assert BuildingsIn(loads[..k]) <= BuildingsIn(loads) && FloorsIn(loads[..k], b) <= FloorsIn(loads, b);
    }
  }

  lemma OneMoreRow(loads: seq<RoomLoad>, x: RoomLoad, b: Id, n: int)
    ensures b in BuildingsIn(loads + [x]) <==> b in BuildingsIn(loads) || b == x.building
    ensures n in FloorsIn(loads + [x], b) <==> n in FloorsIn(loads, b) || (b == x.building && n == x.floor)
    ensures BuildingScope(loads + [x], b)
      == if x.building == b then AddLoad(BuildingScope(loads, b), x) else BuildingScope(loads, b)
    ensures FloorScope(loads + [x], b, n)
      == if x.building == b && x.floor == n then AddLoad(FloorScope(loads, b, n), x) else FloorScope(loads, b, n)
  {
    assert (loads + [x])[..|loads|] == loads;
    assert forall y :: y in loads + [x] <==> y in loads || y == x;
  }

  lemma ReducedStep(loads: seq<RoomLoad>, x: RoomLoad, buildings: map<Id, Building>)
    requires Reduced(loads, buildings)
    ensures Reduced(loads + [x], AddRow(buildings, x))
  {
    hide BuildingsIn;
    hide FloorsIn;
    hide BuildingScope;
    hide FloorScope;
    hide AddLoad;
    var after := AddRow(buildings, x);
    forall b: Id
      ensures b in after <==> b in BuildingsIn(loads + [x])
      ensures b in after ==> after[b].total == BuildingScope(loads + [x], b)
    {
      OneMoreRow(loads, x, b, 0);
      NoRowsNoScope(loads, b, 0);
    }
    forall b: Id, n: int
      ensures b in after ==> (n in after[b].floors <==> n in FloorsIn(loads + [x], b))
      ensures b in after && n in after[b].floors ==> after[b].floors[n] == FloorScope(loads + [x], b, n)
    {
      OneMoreRow(loads, x, b, n);
      NoRowsNoScope(loads, b, n);
      NoBuildingNoFloor(loads, b, n);
    }
  }

  lemma NoBuildingNoFloor(loads: seq<RoomLoad>, b: Id, n: int)
    ensures n in FloorsIn(loads, b) ==> b in BuildingsIn(loads)
  {
    if n in FloorsIn(loads, b) {
      var x :| x in loads && x.building == b && x.floor == n;
      assert x.building in BuildingsIn(loads);
    }
  }

  method ReduceRows(loads: seq<RoomLoad>) returns (buildings: map<Id, Building>)
    ensures Reduced(loads, buildings)
  {
    buildings := map[];
    ReducedStart();
    assert loads[..0] == [];
    hide Reduced;
    for i := 0 to |loads|
      invariant Reduced(loads[..i], buildings)
    {
      ReducedStep(loads[..i], loads[i], buildings);
      assert loads[..i + 1] == loads[..i] + [loads[i]];
      buildings := AddRow(buildings, loads[i]);
    }
    assert loads[..|loads|] == loads;
  }

  lemma ReducedStart()
    ensures Reduced([], map[])
  {
  }

  /* The flat list */

  // A building's row has no floor number.
  datatype ScopeLoad = ScopeLoad(building: Id, floor: Option<int>, total: Scope, available: int, percent: int)

  function RowFor(b: Id, floor: Option<int>, total: Scope, perRoom: int): ScopeLoad {
    ScopeLoad(b, floor, total, total.rooms * perRoom, Percent(total.used, total.rooms * perRoom))
  }

  function FloorRows(loads: seq<RoomLoad>, b: Id, numbers: seq<int>, perRoom: int): seq<ScopeLoad> {
    if numbers == [] then []
    else
      var n := numbers[|numbers| - 1];
      FloorRows(loads, b, numbers[..|numbers| - 1], perRoom) + [RowFor(b, Some(n), FloorScope(loads, b, n), perRoom)]
  }

  // A building's row and then its floors by number.
  function RowsOfBuilding(loads: seq<RoomLoad>, b: Id, perRoom: int): seq<ScopeLoad> {
    [RowFor(b, None, BuildingScope(loads, b), perRoom)] + FloorRows(loads, b, Sorted(FloorsIn(loads, b)), perRoom)
  }

  function BuildingRows(loads: seq<RoomLoad>, buildings: seq<Id>, perRoom: int): seq<ScopeLoad> {
    if buildings == [] then []
    else
      var b := buildings[|buildings| - 1];
      BuildingRows(loads, buildings[..|buildings| - 1], perRoom) + RowsOfBuilding(loads, b, perRoom)
  }

  function SortedBuildings(loads: seq<RoomLoad>): (r: seq<Id>)
    ensures forall b: Id :: b in r <==> b in BuildingsIn(loads)
    ensures Distinct(r)
  {
    Sorted(BuildingsIn(loads))
  }

  function RollupOf(loads: seq<RoomLoad>, perRoom: int): seq<ScopeLoad> {
    BuildingRows(loads, SortedBuildings(loads), perRoom)
  }

  method RowsOfFloors(loads: seq<RoomLoad>, b: Id, floors: map<int, Scope>, perRoom: int) returns (rows: seq<ScopeLoad>)
    requires floors.Keys == FloorsIn(loads, b)
    requires forall n :: n in floors ==> floors[n] == FloorScope(loads, b, n)
    ensures rows == FloorRows(loads, b, Sorted(FloorsIn(loads, b)), perRoom)
  {
    hide FloorScope;
    hide FloorsIn;
    hide Sorted;
    hide RowFor;
    var numbers := Sorted(floors.Keys);
    rows := [];
    for j := 0 to |numbers|
      invariant rows == FloorRows(loads, b, numbers[..j], perRoom)
    {
      assert numbers[j] in numbers && numbers[..j + 1][..j] == numbers[..j];
      rows := rows + [RowFor(b, Some(numbers[j]), floors[numbers[j]], perRoom)];
    }
    assert numbers[..|numbers|] == numbers;
  }

  method BuildingRow(loads: seq<RoomLoad>, buildings: map<Id, Building>, b: Id, perRoom: int)
    returns (rows: seq<ScopeLoad>)
    requires Reduced(loads, buildings) && b in buildings
    ensures rows == RowsOfBuilding(loads, b, perRoom)
  {
    hide FloorScope;
    hide BuildingScope;
    hide RowFor;
    hide BuildingsIn;
    hide FloorsIn;
    hide FloorRows;
    hide Sorted;
    assert forall n: int :: n in buildings[b].floors.Keys <==> n in FloorsIn(loads, b);
    var floors := RowsOfFloors(loads, b, buildings[b].floors, perRoom);
    return [RowFor(b, None, buildings[b].total, perRoom)] + floors;
  }

  lemma BuildingRowsStep(loads: seq<RoomLoad>, codes: seq<Id>, i: nat, perRoom: int)
    requires i < |codes|
    ensures codes[i] in codes
    ensures BuildingRows(loads, codes[..i + 1], perRoom)
      == BuildingRows(loads, codes[..i], perRoom) + RowsOfBuilding(loads, codes[i], perRoom)
  {
    hide RowsOfBuilding;
    assert codes[..i + 1][..i] == codes[..i];
  }

  lemma KnownBuilding(loads: seq<RoomLoad>, buildings: map<Id, Building>, b: Id)
    requires Reduced(loads, buildings)
    ensures b in BuildingsIn(loads) <==> b in buildings
  {
  }

  method BuildingFloorRollup(loads: seq<RoomLoad>, perRoom: int) returns (out: seq<ScopeLoad>)
    ensures out == RollupOf(loads, perRoom)
  {
    hide BuildingsIn;
    hide RowsOfBuilding;
    hide Reduced;
    hide SortedBuildings;
    var buildings := ReduceRows(loads);
    var codes := SortedBuildings(loads);
    out := [];
    assert codes[..0] == [];
    for i := 0 to |codes|
      invariant out == BuildingRows(loads, codes[..i], perRoom)
    {
      BuildingRowsStep(loads, codes, i, perRoom);
      KnownBuilding(loads, buildings, codes[i]);
      var rows := BuildingRow(loads, buildings, codes[i], perRoom);
      out := out + rows;
    }
    assert codes[..|codes|] == codes;
  }

  /* Conservation */

  // The sum of one measure over the building rows, or over the floor rows of one building.
  function BuildingsTotal(rows: seq<ScopeLoad>, m: Measure): int {
    if rows == [] then 0
    else
      var row := rows[|rows| - 1];
      BuildingsTotal(rows[..|rows| - 1], m) + if row.floor.None? then OfScope(m, row.total) else 0
  }

  function FloorsTotal(rows: seq<ScopeLoad>, b: Id, m: Measure): int {
    if rows == [] then 0
    else
      var row := rows[|rows| - 1];
      FloorsTotal(rows[..|rows| - 1], b, m)
      + if row.floor.Some? && row.building == b then OfScope(m, row.total) else 0
  }

  function ByBuilding(loads: seq<RoomLoad>, m: Measure): (es: seq<Entry<Id>>)
    ensures forall e :: e in es ==> e.key in BuildingsIn(loads)
  {
    if loads == [] then []
    else
      var x := loads[|loads| - 1];
      assert x in loads;
      ByBuilding(loads[..|loads| - 1], m) + [Entry(x.building, OfLoad(m, x))]
  }

  function ByFloor(loads: seq<RoomLoad>, b: Id, m: Measure): (es: seq<Entry<int>>)
    ensures forall e :: e in es ==> e.key in FloorsIn(loads, b)
  {
    if loads == [] then []
    else
      var x := loads[|loads| - 1];
      assert x in loads;
      if x.building == b then ByFloor(loads[..|loads| - 1], b, m) + [Entry(x.floor, OfLoad(m, x))]
      else ByFloor(loads[..|loads| - 1], b, m)
  }

  lemma {:induction false} BuildingsAreBuckets(loads: seq<RoomLoad>, b: Id, m: Measure)
    ensures OfScope(m, BuildingScope(loads, b)) == Bucket(ByBuilding(loads, m), b) == Total(ByFloor(loads, b, m))
    ensures Total(ByBuilding(loads, m)) == RowsTotal(loads, m)
  {
    hide BuildingsIn;
    hide FloorsIn;
    if loads != [] {
      var k := |loads| - 1;
      BuildingsAreBuckets(loads[..k], b, m);
    }
  }

  lemma {:induction false} FloorsAreBuckets(loads: seq<RoomLoad>, b: Id, n: int, m: Measure)
    ensures OfScope(m, FloorScope(loads, b, n)) == Bucket(ByFloor(loads, b, m), n)
  {
    hide FloorsIn;
    if loads != [] {
      FloorsAreBuckets(loads[..|loads| - 1], b, n, m);
    }
  }

  lemma {:induction false} TotalsAppend(xs: seq<ScopeLoad>, ys: seq<ScopeLoad>, b: Id, m: Measure)
    ensures BuildingsTotal(xs + ys, m) == BuildingsTotal(xs, m) + BuildingsTotal(ys, m)
    ensures FloorsTotal(xs + ys, b, m) == FloorsTotal(xs, b, m) + FloorsTotal(ys, b, m)
  {
    if ys == [] {
      assert xs + ys == xs;
    } else {
      var n := |ys| - 1;
      TotalsAppend(xs, ys[..n], b, m);
      assert (xs + ys)[..|xs| + n] == xs + ys[..n];
    }
  }

  lemma {:induction false} FloorRowsTotal(loads: seq<RoomLoad>, a: Id, numbers: seq<int>, perRoom: int, b: Id, m: Measure)
    ensures BuildingsTotal(FloorRows(loads, a, numbers, perRoom), m) == 0
    ensures FloorsTotal(FloorRows(loads, a, numbers, perRoom), b, m)
      == if a == b then Across(numbers, BucketOf(ByFloor(loads, b, m))) else 0
  {
    if numbers != [] {
      FloorRowsTotal(loads, a, numbers[..|numbers| - 1], perRoom, b, m);
      FloorsAreBuckets(loads, a, numbers[|numbers| - 1], m);
    }
  }

  lemma FloorsOfBuilding(loads: seq<RoomLoad>, b: Id, m: Measure)
    ensures Across(Sorted(FloorsIn(loads, b)), BucketOf(ByFloor(loads, b, m))) == OfScope(m, BuildingScope(loads, b))
  {
    hide ByFloor;
    hide FloorsIn;
    hide BuildingScope;
    var es, numbers := ByFloor(loads, b, m), Sorted(FloorsIn(loads, b));
    BucketsConserve(es, numbers);
    AllWithin(es, numbers);
    BuildingsAreBuckets(loads, b, m);
  }

  lemma RowsOfBuildingTotal(loads: seq<RoomLoad>, a: Id, perRoom: int, b: Id, m: Measure)
    ensures BuildingsTotal(RowsOfBuilding(loads, a, perRoom), m) == Bucket(ByBuilding(loads, m), a)
    ensures FloorsTotal(RowsOfBuilding(loads, a, perRoom), b, m)
      == if a == b then OfScope(m, BuildingScope(loads, a)) else 0
  {
    hide FloorsIn;
    hide ByFloor;
    hide ByBuilding;
    hide FloorRows;
    hide BuildingScope;
    hide Sorted;
    var head := [RowFor(a, None, BuildingScope(loads, a), perRoom)];
    var numbers := Sorted(FloorsIn(loads, a));
    BuildingsAreBuckets(loads, a, m);
    FloorRowsTotal(loads, a, numbers, perRoom, b, m);
    FloorsOfBuilding(loads, a, m);
    TotalsAppend(head, FloorRows(loads, a, numbers, perRoom), b, m);
    assert head[..0] == [];
  }

  lemma {:induction false} BuildingRowsTotal(loads: seq<RoomLoad>, codes: seq<Id>, perRoom: int, b: Id, m: Measure)
    requires Distinct(codes)
    ensures BuildingsTotal(BuildingRows(loads, codes, perRoom), m) == Across(codes, BucketOf(ByBuilding(loads, m)))
    ensures FloorsTotal(BuildingRows(loads, codes, perRoom), b, m)
      == if b in codes then OfScope(m, BuildingScope(loads, b)) else 0
  {
    hide ByBuilding;
    hide RowsOfBuilding;
    hide BuildingScope;
    if codes != [] {
      var k := |codes| - 1;
      BuildingRowsTotal(loads, codes[..k], perRoom, b, m);
      RowsOfBuildingTotal(loads, codes[k], perRoom, b, m);
      TotalsAppend(BuildingRows(loads, codes[..k], perRoom), RowsOfBuilding(loads, codes[k], perRoom), b, m);
      assert codes == codes[..k] + [codes[k]];
    }
  }

  // Rooms, used, booked and wasted time: a building's floor rows add up to its own row, and the
  // building rows add up to the room rows, to the second.
  lemma RollupConserves(loads: seq<RoomLoad>, perRoom: int, b: Id, m: Measure)
    ensures
      var rows := RollupOf(loads, perRoom);
      && BuildingsTotal(rows, m) == RowsTotal(loads, m)
      && FloorsTotal(rows, b, m) == OfScope(m, BuildingScope(loads, b))
  {
    hide ByBuilding;
    hide BuildingsIn;
    hide BuildingRows;
    hide BuildingScope;
    var codes, es := SortedBuildings(loads), ByBuilding(loads, m);
    BuildingRowsTotal(loads, codes, perRoom, b, m);
    BucketsConserve(es, codes);
    AllWithin(es, codes);
    BuildingsAreBuckets(loads, b, m);
    NoRowsNoScope(loads, b, 0);
  }

  // Room, floor and building rows all add up to the campus card exactly when no session in
  // range has such time in a room that is out of service.
  lemma RollupEqualsCardIff(c: Campus, ss: seq<Session>, q: Query, perRoom: int, m: Measure)
    requires Linked(c) && !m.Rooms?
    ensures
      BuildingsTotal(RollupOf(Breakdown(c, ss, q), perRoom), m) == CampusTotal(c, ss, q, AmountOf(m)) <==>
        forall i :: 0 <= i < |ss| && InScope(c, q, ss[i]) && c.rooms[ss[i].room].outOfService ==>
          AmountOf(m)(ss[i]) == 0
  {
    hide InScope;
    hide ByRoom;
    hide RowsFor;
    hide BuildingRows;
    var ids := ScopedIds(c, ss, q);
    RollupConserves(Breakdown(c, ss, q), perRoom, 0, m);
    RoomsReconcileWithCard(c, ss, q, m);
    NothingClosedIff(c, ss, ids, AmountOf(m));
    forall i | 0 <= i < |ss| && InScope(c, q, ss[i]) ensures ss[i].room < |c.rooms| && i in ids {
      ScopedRoom(c, q, ss[i]);
    }
  }

  lemma ScopedRoom(c: Campus, q: Query, s: Session)
    requires InScope(c, q, s)
    ensures s.room < |c.rooms|
  {
  }

  lemma {:induction false} FloorRowsAre(loads: seq<RoomLoad>, b: Id, numbers: seq<int>, perRoom: int, x: ScopeLoad)
    ensures x in FloorRows(loads, b, numbers, perRoom) <==>
      exists n :: n in numbers && x == RowFor(b, Some(n), FloorScope(loads, b, n), perRoom)
  {
    hide RowFor;
    hide FloorScope;
    if numbers != [] {
      var m := |numbers| - 1;
      FloorRowsAre(loads, b, numbers[..m], perRoom, x);
      assert forall n :: n in numbers <==> n == numbers[m] || n in numbers[..m];
    }
  }

  // x is the row of building b, or of one of its floors, with a room in it.
  ghost predicate RowOfBuilding(loads: seq<RoomLoad>, b: Id, perRoom: int, x: ScopeLoad) {
    || x == RowFor(b, None, BuildingScope(loads, b), perRoom)
    || exists n :: n in FloorsIn(loads, b) && x == RowFor(b, Some(n), FloorScope(loads, b, n), perRoom)
  }

  lemma RowsOfBuildingAre(loads: seq<RoomLoad>, b: Id, perRoom: int, x: ScopeLoad)
    ensures x in RowsOfBuilding(loads, b, perRoom) <==> RowOfBuilding(loads, b, perRoom, x)
  {
    hide RowFor;
    hide FloorScope;
    hide BuildingScope;
    hide FloorsIn;
    hide FloorRows;
    FloorRowsAre(loads, b, Sorted(FloorsIn(loads, b)), perRoom, x);
  }

  lemma {:induction false} BuildingRowsAre(loads: seq<RoomLoad>, buildings: seq<Id>, perRoom: int, x: ScopeLoad)
    ensures x in BuildingRows(loads, buildings, perRoom) <==>
      exists b :: b in buildings && RowOfBuilding(loads, b, perRoom, x)
  {
    hide RowOfBuilding;
    hide RowsOfBuilding;
    if buildings != [] {
      var m := |buildings| - 1;
      var b := buildings[m];
      BuildingRowsAre(loads, buildings[..m], perRoom, x);
      RowsOfBuildingAre(loads, b, perRoom, x);
      assert forall e :: e in buildings <==> e == b || e in buildings[..m];
    }
  }

  // The rollup has a row for each building, and each floor, that some room row is of, and no other;
  // its totals are those of the room rows of the building, or of the floor.
  lemma RollupIsComplete(loads: seq<RoomLoad>, perRoom: int, b: Id, n: int, m: Measure)
    ensures
      var rows := RollupOf(loads, perRoom);
      && ((exists x :: x in rows && x.building == b && x.floor == None) <==> exists y :: y in loads && y.building == b)
      && ((exists x :: x in rows && x.building == b && x.floor == Some(n)) <==>
            exists y :: y in loads && y.building == b && y.floor == n)
      && (forall x :: x in rows && x.building == b ==>
            OfScope(m, x.total) == if x.floor.None? then Bucket(ByBuilding(loads, m), b)
                                   else Bucket(ByFloor(loads, b, m), x.floor.value))
  {
    hide FloorScope;
    hide BuildingScope;
    hide BuildingRows;
    hide ByBuilding;
    hide ByFloor;
    hide OfScope;
    var codes := SortedBuildings(loads);
    forall x ensures x in RollupOf(loads, perRoom) <==> exists e :: e in codes && RowOfBuilding(loads, e, perRoom, x) {
      BuildingRowsAre(loads, codes, perRoom, x);
    }
    BuildingsAreBuckets(loads, b, m);
    forall f: int ensures Bucket(ByFloor(loads, b, m), f) == OfScope(m, FloorScope(loads, b, f)) {
      FloorsAreBuckets(loads, b, f, m);
    }
    if b in codes {
      assert RowOfBuilding(loads, b, perRoom, RowFor(b, None, BuildingScope(loads, b), perRoom));
    }
    if y :| y in loads && y.building == b && y.floor == n {
      assert b in codes && n in FloorsIn(loads, b);
      assert RowOfBuilding(loads, b, perRoom, RowFor(b, Some(n), FloorScope(loads, b, n), perRoom));
    }
  }
}
