/** The campus card: room time booked, used, wasted and available over a range. */
module Utilization {
  import opened Buckets
  import opened Calendar
  import opened Capacity
  import opened Contribution
  import opened Ladder
  import opened Queries
  import opened Tables
  import opened Wrappers

  datatype Query = Query(term: Option<Id>, start: Date, end: Date, asOf: Option<Date>)

  predicate Virtual(room: Room) {
    room.code != "" && (room.code[0] == 'V' || room.code[0] == 'v')
  }

  predicate Physical(room: Room) {
    !Virtual(room) && !room.outOfService
  }

  function PhysicalRooms(c: Campus): (ids: seq<Id>)
    ensures forall i: Id :: i in ids <==> i < |c.rooms| && Physical(c.rooms[i])
    ensures Distinct(ids)
  {
    IdsWhere(c.rooms, (r: Room) => Physical(r))
  }

  // The sessions a room report is about: not those of out-of-service rooms alone are kept out,
  // only those of virtual ones.
  predicate InScope(c: Campus, q: Query, s: Session) {
    && q.start <= s.date <= q.end && (q.asOf.Some? ==> s.date <= q.asOf.value)
    && ActiveIn(c, q.term, s.schedule) && s.room < |c.rooms| && !Virtual(c.rooms[s.room])
  }

  function ScopedIds(c: Campus, ss: seq<Session>, q: Query): (ids: seq<Id>)
    ensures forall i: Id :: i in ids <==> i < |ss| && InScope(c, q, ss[i])
    ensures Keys(ids, |ss|)
  {
    var ids := IdsWhere(ss, (s: Session) => InScope(c, q, s));
    assert forall j :: 0 <= j < |ids| ==> ids[j] in ids;
    ids
  }

  /* Posting sessions under their rooms */

  function Booked(): Session -> nat {
    (s: Session) => Contribute(s).booked
  }

  function Used(): Session -> nat {
    (s: Session) => Contribute(s).used
  }

  function WastedTime(): Session -> nat {
    (s: Session) => Wasted(s)
  }

  function ByRoom(ss: seq<Session>, ids: seq<Id>, amount: Session -> nat): seq<Entry<Id>>
    requires Keys(ids, |ss|)
  {
    if ids == [] then []
    else
      var s := ss[ids[|ids| - 1]];
      ByRoom(ss, ids[..|ids| - 1], amount) + [Entry(s.room, amount(s))]
  }

  function CampusTotal(c: Campus, ss: seq<Session>, q: Query, amount: Session -> nat): int {
    Total(ByRoom(ss, ScopedIds(c, ss, q), amount))
  }

  function IdleTime(ss: seq<Session>, ids: seq<Id>): int
    requires Keys(ids, |ss|)
  {
    if ids == [] then 0 else IdleTime(ss, ids[..|ids| - 1]) + Idle(ss[ids[|ids| - 1]])
  }

  function StillRunning(ss: seq<Session>): nat -> bool {
    (i: nat) => i < |ss| && Contribute(ss[i]).running
  }

  /* The card */

  datatype Card = Card(
    physicalRooms: nat, blocksPerDay: nat, teachingDays: int, timetabledCells: int,
    available: int, booked: int, used: int, wasted: int, inFlight: nat)

  function CardOf(c: Campus, ss: seq<Session>, q: Query): Card {
    var rooms := |PhysicalRooms(c)|;
    var shape := ShapeOf(TimetabledCells(c, q.term), q.start, LastDay(q.end, q.asOf));
    Card(
      rooms, |Rungs(c, q.term)|, shape.teachingDays, shape.cellCount, rooms * shape.cellSeconds,
      CampusTotal(c, ss, q, Booked()), CampusTotal(c, ss, q, Used()), CampusTotal(c, ss, q, WastedTime()),
      |Keep(ScopedIds(c, ss, q), StillRunning(ss))|)
  }

  // The fold over the rows; a session still running counts for nothing but itself.
  method FoldSessions(ss: seq<Session>, ids: seq<Id>) returns (booked: int, used: int, wasted: int, inFlight: nat)
    requires Keys(ids, |ss|)
    ensures booked == Total(ByRoom(ss, ids, Booked())) && used == Total(ByRoom(ss, ids, Used()))
    ensures wasted == Total(ByRoom(ss, ids, WastedTime()))
    ensures inFlight == |Keep(ids, StillRunning(ss))|
  {
    hide Keep;
    hide ByRoom;
    hide Total;
    booked, used, inFlight := 0, 0, 0;
    var absent, unusedHeld := 0, 0;
    PostNone(ss, ids);
    KeepNone(StillRunning(ss));
    assert ids[..0] == [];
    for n := 0 to |ids|
      invariant booked == Total(ByRoom(ss, ids[..n], Booked()))
      invariant used == Total(ByRoom(ss, ids[..n], Used()))
      invariant absent + unusedHeld == Total(ByRoom(ss, ids[..n], WastedTime()))
      invariant inFlight == |Keep(ids[..n], StillRunning(ss))|
    {
      var s := ss[ids[n]];
      PostNext(ss, ids, n, Booked());
      PostNext(ss, ids, n, Used());
      PostNext(ss, ids, n, WastedTime());
      KeepStep(ids, n, StillRunning(ss));
      var x := Contribute(s);
      if x.running {
        inFlight := inFlight + 1;
        continue;
      }
      booked := booked + x.booked;
      used := used + x.used;
      if s.status.Absent? {
        absent := absent + x.booked;
      } else if Held(s) {
        unusedHeld := unusedHeld + if x.booked > x.used then x.booked - x.used else 0;
      }
    }
    assert ids[..|ids|] == ids;
    wasted := absent + unusedHeld;
  }

  method RoomUtilization(c: Campus, ss: seq<Session>, q: Query) returns (card: Card)
    ensures card == CardOf(c, ss, q)
  {
    hide ShapeOf;
    hide TimetabledCells;
    hide Keep;
    hide ByRoom;
    hide InScope;
    hide Rungs;
    var ladder := CampusBlockLadder(c, q.term);
    var blocks := if ladder.Some? then ladder.value else [];
    var rooms := |PhysicalRooms(c)|;
    var shape := RangeCellShape(c, q.term, q.start, q.end, q.asOf);
    var booked, used, wasted, inFlight := FoldSessions(ss, ScopedIds(c, ss, q));
    return Card(
      rooms, |blocks|, shape.teachingDays, shape.cellCount, rooms * shape.cellSeconds, booked, used, wasted,
      inFlight);
  }

  lemma PostNone(ss: seq<Session>, ids: seq<Id>)
    requires Keys(ids, |ss|)
    ensures forall amount: Session -> nat :: Total(ByRoom(ss, [], amount)) == 0
  {
  }

  lemma PostNext(ss: seq<Session>, ids: seq<Id>, n: nat, amount: Session -> nat)
    requires Keys(ids, |ss|) && n < |ids|
    ensures ByRoom(ss, ids[..n + 1], amount)
      == ByRoom(ss, ids[..n], amount) + [Entry(ss[ids[n]].room, amount(ss[ids[n]]))]
    ensures Total(ByRoom(ss, ids[..n + 1], amount)) == Total(ByRoom(ss, ids[..n], amount)) + amount(ss[ids[n]])
  {
    assert ids[..n + 1][..n] == ids[..n];
    var es := ByRoom(ss, ids[..n], amount);
    assert (es + [Entry(ss[ids[n]].room, amount(ss[ids[n]]))])[..|es|] == es;
  }

  // Of the booked time, what was not used was wasted, or belongs to classes not yet held; so a
  // report never shows more used than booked.
  lemma {:induction false} UnusedIsAccountedFor(ss: seq<Session>, ids: seq<Id>)
    requires Keys(ids, |ss|)
    ensures
      var booked, used := Total(ByRoom(ss, ids, Booked())), Total(ByRoom(ss, ids, Used()));
      booked - used == Total(ByRoom(ss, ids, WastedTime())) + IdleTime(ss, ids) && 0 <= used <= booked
  {
    if ids != [] {
      var n := |ids| - 1;
      UnusedIsAccountedFor(ss, ids[..n]);
      PostNext(ss, ids, n, Booked());
      PostNext(ss, ids, n, Used());
      PostNext(ss, ids, n, WastedTime());
      assert ids[..n + 1] == ids;
      UsedWithinBooked(ss[ids[n]]);
    }
  }

  // The sessions a report counts and the dates its capacity is counted on are cut at one day.
  lemma ScopeSharesTheCut(c: Campus, q: Query, s: Session)
    ensures InScope(c, q, s) <==>
      && q.start <= s.date <= LastDay(q.end, q.asOf)
      && ActiveIn(c, q.term, s.schedule) && s.room < |c.rooms| && !Virtual(c.rooms[s.room])
  {
    LastDayIsTheCut(q.end, q.asOf, s.date);
  }
}
