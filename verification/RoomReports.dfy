/** The same sessions room by room: the breakdown, the ghost rooms, and the sum against the card. */
module RoomReports {
  import opened Buckets
  import opened Capacity
  import opened Contribution
  import opened Ladder
  import opened Percentage
  import opened Sorting
  import opened Tables
  import opened Text
  import opened Utilization

  /* Room rows */

  datatype RoomLoad = RoomLoad(
    room: Id, code: string, building: Id, floor: int, used: int, booked: int, wasted: int, percent: int)

  function CellSeconds(c: Campus, q: Query): int {
    ShapeOf(TimetabledCells(c, q.term), q.start, LastDay(q.end, q.asOf)).cellSeconds
  }

  function LoadOf(c: Campus, room: Id, used: int, booked: int, wasted: int, available: int): RoomLoad
    requires Linked(c) && room < |c.rooms|
  {
    RoomLoad(
      room, c.rooms[room].code, BuildingOf(c, room), c.floors[c.rooms[room].floor].number,
      used, booked, wasted, Percent(used, available))
  }

  function RoomRow(c: Campus, ss: seq<Session>, q: Query, room: Id): RoomLoad
    requires Linked(c) && room < |c.rooms|
  {
    var ids := ScopedIds(c, ss, q);
    LoadOf(
      c, room, Bucket(ByRoom(ss, ids, Used()), room), Bucket(ByRoom(ss, ids, Booked()), room),
      Bucket(ByRoom(ss, ids, WastedTime()), room), CellSeconds(c, q))
  }

  predicate RowLess(a: RoomLoad, b: RoomLoad) {
    a.percent < b.percent || (a.percent == b.percent && CodeLess(a.code, b.code))
  }

  function ByUse(): (RoomLoad, RoomLoad) -> bool {
    (a: RoomLoad, b: RoomLoad) => RowLess(a, b)
  }

  // The room rows of the listed rooms, least used first.
  function RowsFor(c: Campus, ss: seq<Session>, q: Query, rooms: seq<Id>): seq<RoomLoad>
    requires Linked(c) && Keys(rooms, |c.rooms|)
  {
    if rooms == [] then []
    else Insert(RoomRow(c, ss, q, rooms[|rooms| - 1]), RowsFor(c, ss, q, rooms[..|rooms| - 1]), ByUse())
  }

  function Breakdown(c: Campus, ss: seq<Session>, q: Query): seq<RoomLoad>
    requires Linked(c)
  {
    PhysicalKeys(c);
    RowsFor(c, ss, q, PhysicalRooms(c))
  }

  lemma PhysicalKeys(c: Campus)
    ensures Keys(PhysicalRooms(c), |c.rooms|)
  {
    var rooms := PhysicalRooms(c);
    assert forall j :: 0 <= j < |rooms| ==> rooms[j] in rooms;
  }

  method PostByRoom(ss: seq<Session>, ids: seq<Id>)
    returns (booked: map<Id, int>, used: map<Id, int>, wasted: map<Id, int>)
    requires Keys(ids, |ss|)
    ensures Tallies(booked, ByRoom(ss, ids, Booked())) && Tallies(used, ByRoom(ss, ids, Used()))
    ensures Tallies(wasted, ByRoom(ss, ids, WastedTime()))
  {
    hide Tallies;
    hide ByRoom;
    booked, used, wasted := map[], map[], map[];
    NothingPosted(ss);
    assert ids[..0] == [];
    for n := 0 to |ids|
      invariant Tallies(booked, ByRoom(ss, ids[..n], Booked())) && Tallies(used, ByRoom(ss, ids[..n], Used()))
      invariant Tallies(wasted, ByRoom(ss, ids[..n], WastedTime()))
    {
      var s := ss[ids[n]];
      PostNext(ss, ids, n, Booked());
      PostNext(ss, ids, n, Used());
      PostNext(ss, ids, n, WastedTime());
      var x := Contribute(s);
      if x.running {
        NothingToTally(booked, ByRoom(ss, ids[..n], Booked()), s.room);
        NothingToTally(used, ByRoom(ss, ids[..n], Used()), s.room);
        NothingToTally(wasted, ByRoom(ss, ids[..n], WastedTime()), s.room);
        continue;
      }
      TallyStep(booked, ByRoom(ss, ids[..n], Booked()), s.room, x.booked);
      TallyStep(used, ByRoom(ss, ids[..n], Used()), s.room, x.used);
      booked := Add(booked, s.room, x.booked);
      used := Add(used, s.room, x.used);
      if s.status.Absent? {
        TallyStep(wasted, ByRoom(ss, ids[..n], WastedTime()), s.room, x.booked);
        wasted := Add(wasted, s.room, x.booked);
      } else if Held(s) {
        var lost := if x.booked > x.used then x.booked - x.used else 0;
        TallyStep(wasted, ByRoom(ss, ids[..n], WastedTime()), s.room, lost);
        wasted := Add(wasted, s.room, lost);
      } else {
        NothingToTally(wasted, ByRoom(ss, ids[..n], WastedTime()), s.room);
      }
    }
    assert ids[..|ids|] == ids;
  }

  lemma NothingPosted(ss: seq<Session>)
    ensures forall amount: Session -> nat :: Tallies(map[], ByRoom(ss, [], amount))
  {
    TallyStart<Id>();
  }

  lemma NothingToTally(m: map<Id, int>, es: seq<Entry<Id>>, room: Id)
    requires Tallies(m, es)
    ensures Tallies(m, es + [Entry(room, 0)])
  {
    assert (es + [Entry(room, 0)])[..|es|] == es;
  }

  method RoomBreakdown(c: Campus, ss: seq<Session>, q: Query) returns (loads: seq<RoomLoad>)
    requires Linked(c)
    ensures loads == Breakdown(c, ss, q)
  {
    hide Linked;
    hide ShapeOf;
    hide TimetabledCells;
    hide ByRoom;
    hide ScopedIds;
    hide Insert;
    hide Percent;
    PhysicalKeys(c);
    var rooms := PhysicalRooms(c);
    var shape := RangeCellShape(c, q.term, q.start, q.end, q.asOf);
    var booked, used, wasted := PostByRoom(ss, ScopedIds(c, ss, q));
    loads := [];
    assert rooms[..0] == [];
    for n := 0 to |rooms|
      invariant loads == RowsFor(c, ss, q, rooms[..n])
    {
      var room := rooms[n];
      assert rooms[..n + 1][..n] == rooms[..n];
      loads := Insert(
        LoadOf(c, room, Get(used, room), Get(booked, room), Get(wasted, room), shape.cellSeconds), loads, ByUse());
    }
    assert rooms[..|rooms|] == rooms;
  }

  /* The rows are ordered and complete */

  lemma UseOrders()
    ensures Orders(ByUse())
  {
    hide CodeLess;
    forall a: RoomLoad, b: RoomLoad, d: RoomLoad
      ensures RowLess(a, b) ==> !RowLess(b, a)
      ensures !RowLess(b, a) && !RowLess(d, b) ==> !RowLess(d, a)
    {
      CodeOrder(a.code, b.code, d.code);
    }
  }

  // One row per physical room, used or not, and the least used come first.
  lemma {:induction false} BreakdownIsComplete(c: Campus, ss: seq<Session>, q: Query, rooms: seq<Id>)
    requires Linked(c) && Keys(rooms, |c.rooms|)
    ensures
      var rows := RowsFor(c, ss, q, rooms);
      && InOrder(rows, ByUse()) && |rows| == |rooms|
      && forall x :: x in rows <==> exists r: Id :: r in rooms && r < |c.rooms| && x == RoomRow(c, ss, q, r)
  {
    hide RoomRow;
    hide RowLess;
    if rooms != [] {
      var n := |rooms| - 1;
      var row := RoomRow(c, ss, q, rooms[n]);
      BreakdownIsComplete(c, ss, q, rooms[..n]);
      UseOrders();
      InsertKeepsOrder(row, RowsFor(c, ss, q, rooms[..n]), ByUse());
      forall x ensures x in RowsFor(c, ss, q, rooms) <==> x == row || x in RowsFor(c, ss, q, rooms[..n]) {
        InsertMembers(row, RowsFor(c, ss, q, rooms[..n]), ByUse(), x);
      }
      assert forall r: Id :: r in rooms <==> r == rooms[n] || r in rooms[..n];
    }
  }

  // A row names its room, which is physical, with the building and the floor it is on.
  lemma RowsNameTheirRooms(c: Campus, ss: seq<Session>, q: Query, x: RoomLoad)
    requires Linked(c) && x in Breakdown(c, ss, q)
    ensures
      && x.room < |c.rooms| && Physical(c.rooms[x.room]) && x.code == c.rooms[x.room].code
      && x.building == BuildingOf(c, x.room) && x.floor == c.floors[c.rooms[x.room].floor].number
  {
    hide CellSeconds;
    PhysicalKeys(c);
    BreakdownIsComplete(c, ss, q, PhysicalRooms(c));
  }

  /* Ghost rooms */

  function GhostRooms(loads: seq<RoomLoad>): (ghosts: seq<RoomLoad>)
    ensures forall x :: x in ghosts <==> x in loads && x.booked > 0 && x.used == 0
  {
    if loads == [] then []
    else
      var x := loads[|loads| - 1];
      if x.booked > 0 && x.used == 0 then GhostRooms(loads[..|loads| - 1]) + [x] else GhostRooms(loads[..|loads| - 1])
  }

  lemma {:induction false} BucketIsZeroIff(ss: seq<Session>, ids: seq<Id>, amount: Session -> nat, room: Id)
    requires Keys(ids, |ss|)
    ensures Bucket(ByRoom(ss, ids, amount), room) >= 0
    ensures Bucket(ByRoom(ss, ids, amount), room) == 0 <==>
      forall i :: i in ids && ss[i].room == room ==> amount(ss[i]) == 0
  {
    if ids != [] {
      var n := |ids| - 1;
      BucketIsZeroIff(ss, ids[..n], amount, room);
      assert forall i :: i in ids <==> i == ids[n] || i in ids[..n];
      assert ids[n] in ids;
    }
  }

  // A ghost room is a physical room that some session booked and no session used.
  lemma GhostsWereNeverUsed(c: Campus, ss: seq<Session>, q: Query, room: Id)
    requires Linked(c) && room < |c.rooms|
    ensures RoomRow(c, ss, q, room) in GhostRooms(Breakdown(c, ss, q)) <==>
      && Physical(c.rooms[room])
      && (exists i :: 0 <= i < |ss| && InScope(c, q, ss[i]) && ss[i].room == room && Contribute(ss[i]).booked > 0)
      && (forall i :: 0 <= i < |ss| && InScope(c, q, ss[i]) && ss[i].room == room ==> Contribute(ss[i]).used == 0)
  {
    hide Contribute;
    hide InScope;
    hide ByRoom;
    hide RowsFor;
    hide CellSeconds;
    hide Bucket;
    hide InOrder;
    PhysicalKeys(c);
    var ids, rooms := ScopedIds(c, ss, q), PhysicalRooms(c);
    BreakdownIsComplete(c, ss, q, rooms);
    BucketIsZeroIff(ss, ids, Booked(), room);
    BucketIsZeroIff(ss, ids, Used(), room);
    assert RoomRow(c, ss, q, room).room == room;
  }

  /* Rows against the card */

  datatype Measure = Rooms | UsedTime | BookedTime | WastedRoomTime

  function OfLoad(m: Measure, x: RoomLoad): int {
    match m
    case Rooms => 1
    case UsedTime => x.used
    case BookedTime => x.booked
    case WastedRoomTime => x.wasted
  }

  function RowsTotal(rows: seq<RoomLoad>, m: Measure): int {
    if rows == [] then 0 else RowsTotal(rows[..|rows| - 1], m) + OfLoad(m, rows[|rows| - 1])
  }

  // Time of sessions held in rooms that are out of service.
  function ClosedTime(c: Campus, ss: seq<Session>, ids: seq<Id>, amount: Session -> nat): nat
    requires Keys(ids, |ss|)
  {
    if ids == [] then 0
    else
      var s := ss[ids[|ids| - 1]];
      ClosedTime(c, ss, ids[..|ids| - 1], amount)
      + if s.room < |c.rooms| && c.rooms[s.room].outOfService then amount(s) else 0
  }

  lemma {:induction false} InsertRowTotal(row: RoomLoad, rows: seq<RoomLoad>, m: Measure)
    ensures RowsTotal(Insert(row, rows, ByUse()), m) == RowsTotal(rows, m) + OfLoad(m, row)
  {
    if rows == [] || RowLess(row, rows[0]) {
      RowsTotalSplit([row], rows, m);
      assert [row][..0] == [];
    } else {
      InsertRowTotal(row, rows[1..], m);
      RowsTotalSplit([rows[0]], Insert(row, rows[1..], ByUse()), m);
      RowsTotalSplit([rows[0]], rows[1..], m);
      assert rows == [rows[0]] + rows[1..];
    }
  }

  lemma {:induction false} RowsTotalSplit(xs: seq<RoomLoad>, ys: seq<RoomLoad>, m: Measure)
    ensures RowsTotal(xs + ys, m) == RowsTotal(xs, m) + RowsTotal(ys, m)
  {
    if ys == [] {
      assert xs + ys == xs;
    } else {
      var n := |ys| - 1;
      RowsTotalSplit(xs, ys[..n], m);
      assert (xs + ys)[..|xs| + n] == xs + ys[..n];
    }
  }

  function AmountOf(m: Measure): Session -> nat
    requires !m.Rooms?
  {
    if m.UsedTime? then Used() else if m.BookedTime? then Booked() else WastedTime()
  }

  lemma {:induction false} RowsTotalIsAcross(c: Campus, ss: seq<Session>, q: Query, rooms: seq<Id>, m: Measure)
    requires Linked(c) && Keys(rooms, |c.rooms|) && !m.Rooms?
    ensures RowsTotal(RowsFor(c, ss, q, rooms), m)
      == Across(rooms, BucketOf(ByRoom(ss, ScopedIds(c, ss, q), AmountOf(m))))
  {
    hide ByRoom;
    hide CellSeconds;
    hide Bucket;
    if rooms != [] {
      var n := |rooms| - 1;
      RowsTotalIsAcross(c, ss, q, rooms[..n], m);
      InsertRowTotal(RoomRow(c, ss, q, rooms[n]), RowsFor(c, ss, q, rooms[..n]), m);
    }
  }

  lemma {:induction false} OpenAndClosed(c: Campus, ss: seq<Session>, ids: seq<Id>, amount: Session -> nat)
    requires Keys(ids, |ss|)
    requires forall i :: i in ids ==> ss[i].room < |c.rooms| && !Virtual(c.rooms[ss[i].room])
    ensures Within(ByRoom(ss, ids, amount), PhysicalRooms(c)) + ClosedTime(c, ss, ids, amount)
         == Total(ByRoom(ss, ids, amount))
  {
    hide Virtual;
    if ids != [] {
      OpenAndClosed(c, ss, ids[..|ids| - 1], amount);
      assert ids[|ids| - 1] in ids;
    }
  }

  // The room rows add up to the card, short of exactly the time spent in rooms that are out of
  // service: those have no row, but their sessions stay in the card's numerator.
  lemma RoomsReconcileWithCard(c: Campus, ss: seq<Session>, q: Query, m: Measure)
    requires Linked(c) && !m.Rooms?
    ensures RowsTotal(Breakdown(c, ss, q), m) + ClosedTime(c, ss, ScopedIds(c, ss, q), AmountOf(m))
      == CampusTotal(c, ss, q, AmountOf(m))
  {
    hide ByRoom;
    hide ActiveIn;
    hide Virtual;
    hide ClosedTime;
    PhysicalKeys(c);
    var rooms, ids := PhysicalRooms(c), ScopedIds(c, ss, q);
    RowsTotalIsAcross(c, ss, q, rooms, m);
    BucketsConserve(ByRoom(ss, ids, AmountOf(m)), rooms);
    OpenAndClosed(c, ss, ids, AmountOf(m));
  }

  lemma {:induction false} NothingClosedIff(c: Campus, ss: seq<Session>, ids: seq<Id>, amount: Session -> nat)
    requires Keys(ids, |ss|)
    ensures ClosedTime(c, ss, ids, amount) == 0 <==>
      forall i :: i in ids && ss[i].room < |c.rooms| && c.rooms[ss[i].room].outOfService ==> amount(ss[i]) == 0
  {
    if ids != [] {
      var n := |ids| - 1;
      NothingClosedIff(c, ss, ids[..n], amount);
      assert forall i :: i in ids <==> i == ids[n] || i in ids[..n];
      assert ids[n] in ids;
    }
  }
}
