/**
  The occupancy oracle: is a room free for a half-open slot? Live sessions, bookings,
  recurring classes not yet materialized and approved reservations all occupy a room.
 */
module Availability {
  import opened Calendar
  import opened Excusal
  import opened Queries
  import opened Slots
  import opened Sorting
  import opened Tables
  import opened Text
  import opened Wrappers

  // SCHEDULED or ACTIVE: the session may still need its room.
  predicate Occupying(s: Session) {
    s.status.Scheduled? || s.status.Active?
  }

  predicate HoldsRoom(c: Campus, s: Session)
    requires s.schedule < |c.schedules|
  {
    Occupying(s) && s.released.None? && !EffectiveModality(c, s).Online?
  }

  predicate SessionOccupies(c: Campus, ss: seq<Session>, room: Id, start: Instant, end: Instant, own: Option<Id>)
    requires SessionsLinked(c, ss)
  {
    exists i :: 0 <= i < |ss| && own != Some(i) && SessionIn(c, ss[i], room, start, end)
  }

  // The session s holds the room at some point of the slot.
  predicate SessionIn(c: Campus, s: Session, room: Id, start: Instant, end: Instant)
    requires s.schedule < |c.schedules|
  {
    s.room == room && HoldsRoom(c, s) && Overlaps(s.start, s.end, start, end)
  }

  predicate BookingOccupies(c: Campus, room: Id, start: Instant, end: Instant) {
    exists b :: b in c.bookings && b.room == room && b.active && Overlaps(b.start, b.end, start, end)
  }

  /* Approved shifts of one schedule */

  predicate ApprovedOn(c: Campus, item: Id, d: Date)
    requires Linked(c) && item < |c.items|
  {
    var r := c.requests[c.items[item].request];
    r.status.Approved? && r.windowStart <= d <= r.windowEnd
  }

  predicate ShiftsOn(c: Campus, item: Id, k: Id, d: Date)
    requires Linked(c)
  {
    item < |c.items| && c.items[item].schedule == k && ApprovedOn(c, item, d)
  }

  // Sort key of a decision time; an undecided request sorts before every decided one.
  predicate DecidedBefore(a: Option<Instant>, b: Option<Instant>) {
    b.Some? && (a.None? || a.value < b.value)
  }

  function DecidedAt(c: Campus, item: Id): Option<Instant>
    requires Linked(c) && item < |c.items|
  {
    c.requests[c.items[item].request].decidedAt
  }

  // The shift the oracle honours among the first n items: latest decision, then largest key.
  function LatestShift(c: Campus, k: Id, d: Date, n: nat): (r: Option<Id>)
    requires Linked(c) && n <= |c.items|
    ensures r.Some? ==> r.value < n && ShiftsOn(c, r.value, k, d)
  {
    if n == 0 then
      None
    else
      var best := LatestShift(c, k, d, n - 1);
      if ShiftsOn(c, n - 1, k, d)
         && (best.None? || !DecidedBefore(DecidedAt(c, n - 1), DecidedAt(c, best.value)))
      then Some(n - 1) else best
  }

  // No applicable shift was decided later, nor at the same time with a larger key.
  lemma {:induction false} LatestShiftIsLatest(c: Campus, k: Id, d: Date, n: nat, i: nat)
    requires Linked(c) && n <= |c.items| && i < n && ShiftsOn(c, i, k, d)
    ensures
      var r := LatestShift(c, k, d, n);
      && r.Some?
      && !DecidedBefore(DecidedAt(c, r.value), DecidedAt(c, i))
      && (DecidedAt(c, r.value) == DecidedAt(c, i) ==> i <= r.value)
  {
    if i < n - 1 {
      LatestShiftIsLatest(c, k, d, n - 1, i);
    }
  }

  function ShiftFor(c: Campus, k: Id, d: Date): (r: Option<Id>)
    requires Linked(c)
    ensures r.Some? ==> ShiftsOn(c, r.value, k, d)
  {
    LatestShift(c, k, d, |c.items|)
  }

  /* Recurring classes that have no session row yet */

  // The class k meets on date d of a running term.
  predicate MeetsOn(c: Campus, k: Id, d: Date)
    requires Linked(c) && k < |c.schedules|
  {
    var s := c.schedules[k];
    var term := c.terms[s.term];
    s.status.ScheduleActive? && term.status.TermActive? && term.start <= d <= term.end && s.dow == WeekdayOf(d)
  }

  // Under the shift, or under none, class k meets in its timetabled room.
  predicate KeepsRoom(c: Campus, k: Id, shift: Option<Id>)
    requires Linked(c) && k < |c.schedules| && (shift.Some? ==> shift.value < |c.items|)
  {
    match shift
    case Some(i) => !c.requests[c.items[i].request].target.Online? && c.items[i].assignedRoom.None?
    case None => !c.schedules[k].modality.Online?
  }

  // With no session row for d, the class k itself keeps its timetabled room busy.
  predicate ReservesOwnRoom(c: Campus, ss: seq<Session>, k: Id, d: Date)
    requires Linked(c) && k < |c.schedules|
  {
    var s := c.schedules[k];
    && MeetsOn(c, k, d)
    && !Materialized(ss, k, d)
    && !Excused(c, s.term, d, BuildingOf(c, s.room))
    && KeepsRoom(c, k, ShiftFor(c, k, d))
  }

  predicate ScheduleOccupies(
    c: Campus, ss: seq<Session>, room: Id, start: Instant, end: Instant, own: Option<Id>)
    requires Linked(c)
  {
    var d := DateOf(start);
    exists k :: 0 <= k < |c.schedules| && own != Some(k) && c.schedules[k].room == room
                && ReservesOwnRoom(c, ss, k, d)
                && Overlaps(At(d, c.schedules[k].start), At(d, c.schedules[k].end), start, end)
  }

  /* Approved reservations */

  function SlotStart(c: Campus, item: ShiftItem): TimeOfDay
    requires item.schedule < |c.schedules|
  {
    if item.newStart.Some? then item.newStart.value else c.schedules[item.schedule].start
  }

  function SlotEnd(c: Campus, item: ShiftItem): TimeOfDay
    requires item.schedule < |c.schedules|
  {
    if item.newEnd.Some? then item.newEnd.value else c.schedules[item.schedule].end
  }

  predicate Reserves(c: Campus, item: Id, room: Id, d: Date)
    requires Linked(c) && item < |c.items|
  {
    var it := c.items[item];
    && it.assignedRoom == Some(room)
    && ApprovedOn(c, item, d)
    && !c.requests[it.request].target.Online?
    && c.schedules[it.schedule].dow == WeekdayOf(d)
  }

  predicate ReservationOccupies(c: Campus, room: Id, start: Instant, end: Instant, own: Option<Id>)
    requires Linked(c)
  {
    var d := DateOf(start);
    exists i :: 0 <= i < |c.items| && own != Some(c.items[i].schedule) && Reserves(c, i, room, d)
                && Overlaps(At(d, SlotStart(c, c.items[i])), At(d, SlotEnd(c, c.items[i])), start, end)
  }

  predicate RoomIsFree(
    c: Campus, ss: seq<Session>, room: Id, start: Instant, end: Instant,
    ownSession: Option<Id>, ownSchedule: Option<Id>)
    requires Linked(c) && SessionsLinked(c, ss)
  {
    && !SessionOccupies(c, ss, room, start, end, ownSession)
    && !BookingOccupies(c, room, start, end)
    && !ScheduleOccupies(c, ss, room, start, end, ownSchedule)
    && !ReservationOccupies(c, room, start, end, ownSchedule)
  }

  // The session keeps the room to itself at some point of [x, y), in facts of its row.
  predicate KeepsSeat(c: Campus, s: Session, room: Id, x: Instant, y: Instant)
    requires s.schedule < |c.schedules|
  {
    && s.room == room && (s.status == Scheduled || s.status == Active) && s.released == None
    && EffectiveModality(c, s) != Online && s.start < y && x < s.end
  }

  // Item i reserves the room on the date of x for some point of [x, y): approved towards a room,
  // for a date of its window on its class's weekday, from and to the times it moves the class to.
  predicate KeepsReserved(c: Campus, i: Id, room: Id, x: Instant, y: Instant)
    requires Linked(c) && i < |c.items|
  {
    assert ItemLinked(c, c.items[i]);
    var it, d := c.items[i], DateOf(x);
    var r, k := c.requests[it.request], c.schedules[it.schedule];
    && it.assignedRoom == Some(room) && r.status == Approved && r.target != Online
    && r.windowStart <= d && d <= r.windowEnd && k.dow == WeekdayOf(d)
    && At(d, if it.newStart.Some? then it.newStart.value else k.start) < y
    && x < At(d, if it.newEnd.Some? then it.newEnd.value else k.end)
  }

  // A room is free exactly when no session keeps it, no active booking has it, no class that has
  // no session yet keeps it and no other class's item reserves it.
  lemma FreeMeans(
    c: Campus, ss: seq<Session>, room: Id, x: Instant, y: Instant, own: Option<Id>, ownClass: Option<Id>)
    requires Linked(c) && SessionsLinked(c, ss)
    ensures RoomIsFree(c, ss, room, x, y, own, ownClass) <==>
      && (forall i: Id :: i < |ss| && KeepsSeat(c, ss[i], room, x, y) ==> own == Some(i))
      && (forall b :: b in c.bookings && b.room == room && b.active ==> y <= b.start || b.end <= x)
      && !ScheduleOccupies(c, ss, room, x, y, ownClass)
      && (forall i: Id :: i < |c.items| && KeepsReserved(c, i, room, x, y) ==> ownClass == Some(c.items[i].schedule))
  {
    hide ScheduleOccupies;
    hide EffectiveModality;
    forall i: Id | i < |ss| ensures KeepsSeat(c, ss[i], room, x, y) <==> SessionIn(c, ss[i], room, x, y) {
    }
    var d := DateOf(x);
    forall i: Id | i < |c.items|
      ensures ItemLinked(c, c.items[i])
      ensures KeepsReserved(c, i, room, x, y) <==>
        (Reserves(c, i, room, d) && Overlaps(At(d, SlotStart(c, c.items[i])), At(d, SlotEnd(c, c.items[i])), x, y))
    {
    }
    hide KeepsReserved;
    hide KeepsSeat;
    hide SessionIn;
    hide Reserves;
  }

  predicate FacultyHasConflict(
    ss: seq<Session>, faculty: Id, start: Instant, end: Instant, own: Option<Id>)
  {
    exists i :: 0 <= i < |ss| && own != Some(i) && ss[i].faculty == faculty && Occupying(ss[i])
                && Overlaps(ss[i].start, ss[i].end, start, end)
  }

  /* The imperative reading of ScheduleOccupies */

  // The query behind the scan: active classes of the room that meet on d.
  function ClassesInRoom(c: Campus, room: Id, d: Date): (ids: seq<Id>)
    requires Linked(c)
    ensures forall j :: 0 <= j < |ids| ==> ids[j] in ids && ids[j] < |c.schedules|
  {
    var ids := IdsWhere(c.schedules, (s: Schedule) =>
      s.room == room && s.status.ScheduleActive? && s.term < |c.terms| && c.terms[s.term].status.TermActive?
      && c.terms[s.term].start <= d <= c.terms[s.term].end && s.dow == WeekdayOf(d));
    assert forall j :: 0 <= j < |ids| ==> ids[j] in ids;
    ids
  }

  // The first row per class of the approved items sorted by latest decision, then largest key.
  method LatestShifts(c: Campus, classes: seq<Id>, d: Date) returns (latest: map<Id, Id>)
    requires Linked(c)
    ensures forall k :: k in classes ==> ShiftFor(c, k, d) == if k in latest then Some(latest[k]) else None
  {
    latest := map[];
    for n := 0 to |c.items|
      invariant forall k :: k in classes ==>
        LatestShift(c, k, d, n) == if k in latest then Some(latest[k]) else None
    {
      var k := c.items[n].schedule;
      if k in classes && ApprovedOn(c, n, d)
         && (k !in latest || !DecidedBefore(DecidedAt(c, n), DecidedAt(c, latest[k]))) {
        latest := latest[k := n];
      }
      assert forall other :: other != k ==> !ShiftsOn(c, n, other, d);
    }
  }

  // One class of the room: does it keep its timetabled slot busy, and does that slot overlap?
  predicate ClassOccupies(c: Campus, ss: seq<Session>, k: Id, d: Date, start: Instant, end: Instant)
    requires Linked(c) && k < |c.schedules|
  {
    ReservesOwnRoom(c, ss, k, d) && Overlaps(At(d, c.schedules[k].start), At(d, c.schedules[k].end), start, end)
  }

  // Does the class itself still want its room on d: no session yet, not excused, not shifted away?
  method KeepsSlot(c: Campus, ss: seq<Session>, k: Id, d: Date, latest: map<Id, Id>) returns (busy: bool)
    requires Linked(c) && k < |c.schedules| && MeetsOn(c, k, d)
    requires ShiftFor(c, k, d) == if k in latest then Some(latest[k]) else None
    ensures busy <==> ReservesOwnRoom(c, ss, k, d)
  {
    if Materialized(ss, k, d) {
      return false;
    }
    var s := c.schedules[k];
    if Excused(c, s.term, d, BuildingOf(c, s.room)) {
      return false;
    }
    if k in latest {
      var item := c.items[latest[k]];
      return !c.requests[item.request].target.Online? && item.assignedRoom.None?;
    }
    return !s.modality.Online?;
  }

  method ScanSchedules(c: Campus, ss: seq<Session>, room: Id, start: Instant, end: Instant, own: Option<Id>)
    returns (occupied: bool)
    requires Linked(c)
    ensures occupied == ScheduleOccupies(c, ss, room, start, end, own)
  {
    hide ShiftFor;
    hide Materialized;
    hide Excused;
    hide DateOf;
    hide At;
    var d := DateOf(start);
    var classes := ClassesInRoom(c, room, d);
    if classes == [] {
      assert forall k :: 0 <= k < |c.schedules| ==> k !in classes;
      return false;
    }
    var latest := LatestShifts(c, classes, d);
    for j := 0 to |classes|
      invariant forall i :: 0 <= i < j && own != Some(classes[i]) ==> !ClassOccupies(c, ss, classes[i], d, start, end)
    {
      var k := classes[j];
      assert k in classes;
      var s := c.schedules[k];
      var busy := KeepsSlot(c, ss, k, d, latest);
      if own == Some(k) || !busy {
        continue;
      }
      if Overlaps(At(d, s.start), At(d, s.end), start, end) {
        return true;
      }
    }
    forall k | 0 <= k < |c.schedules| && own != Some(k) && c.schedules[k].room == room
      ensures !ClassOccupies(c, ss, k, d, start, end)
    {
      assert k in classes <==> MeetsOn(c, k, d);
    }
    return false;
  }

  /* Rooms of a building, in code order */

  predicate RoomKeys(c: Campus, ids: seq<Id>) {
    forall j :: 0 <= j < |ids| ==> ids[j] < |c.rooms|
  }

  predicate InCodeOrder(c: Campus, ids: seq<Id>)
    requires RoomKeys(c, ids)
  {
    forall a, b :: 0 <= a < b < |ids| ==> !CodeLess(c.rooms[ids[b]].code, c.rooms[ids[a]].code)
  }

  function CodeAt(c: Campus, room: Id): string {
    if room < |c.rooms| then c.rooms[room].code else ""
  }

  function ByCode(c: Campus): (Id, Id) -> bool {
    (i: Id, j: Id) => CodeLess(CodeAt(c, i), CodeAt(c, j))
  }

  lemma CodesOrder(c: Campus)
    ensures Orders(ByCode(c))
  {
    hide CodeLess;
    forall i: Id, j: Id, k: Id
      ensures ByCode(c)(i, j) ==> !ByCode(c)(j, i)
      ensures !ByCode(c)(j, i) && !ByCode(c)(k, j) ==> !ByCode(c)(k, i)
    {
      CodeOrder(CodeAt(c, i), CodeAt(c, j), CodeAt(c, k));
    }
  }

  lemma CodeSorted(c: Campus, ids: seq<Id>)
    requires RoomKeys(c, ids)
    ensures
      var r := SortBy(ids, ByCode(c));
      RoomKeys(c, r) && InCodeOrder(c, r) && forall i: Id :: i in r <==> i in ids
  {
    hide CodeLess;
    hide SortBy;
    var r := SortBy(ids, ByCode(c));
    CodesOrder(c);
    SortByOrders(ids, ByCode(c));
    forall i: Id ensures i in r <==> i in ids {
      SortMembers(ids, ByCode(c), i);
    }
    forall j | 0 <= j < |r| ensures r[j] < |c.rooms| {
      assert r[j] in r && r[j] in ids;
    }
  }

  function SortByCode(c: Campus, ids: seq<Id>): (r: seq<Id>)
    requires RoomKeys(c, ids)
    ensures RoomKeys(c, r)
    ensures forall i: Id :: i in r <==> i in ids
    ensures InCodeOrder(c, r)
  {
    CodeSorted(c, ids);
    SortBy(ids, ByCode(c))
  }

  function RoomsOf(c: Campus, building: Id): (r: seq<Id>)
    requires Linked(c)
    ensures RoomKeys(c, r)
    ensures forall i: Id :: i in r <==> i < |c.rooms| && BuildingOf(c, i) == building
    ensures InCodeOrder(c, r)
  {
    var ids := IdsWhere(c.rooms, (r: Room) => r.floor < |c.floors| && c.floors[r.floor].building == building);
    assert forall j :: 0 <= j < |ids| ==> ids[j] in ids;
    assert forall i :: 0 <= i < |c.rooms| ==> c.rooms[i] in c.rooms;
    SortByCode(c, ids)
  }

  function FreeRooms(
    c: Campus, ss: seq<Session>, building: Id, start: Instant, end: Instant, own: Option<Id>): (r: seq<Id>)
    requires Linked(c) && SessionsLinked(c, ss)
    ensures forall i: Id :: i in r <==>
      i < |c.rooms| && BuildingOf(c, i) == building && RoomIsFree(c, ss, i, start, end, own, None)
  {
    Keep(RoomsOf(c, building), (i: Id) => RoomIsFree(c, ss, i, start, end, own, None))
  }

  // The preferred room moves to the front when it is among the free ones.
  function Float(ids: seq<Id>, prefer: Option<Id>): (r: seq<Id>)
    ensures forall i: Id :: i in r <==> i in ids
    ensures prefer.Some? && prefer.value in ids ==> r[0] == prefer.value
    ensures prefer.None? || prefer.value !in ids ==> r == ids
  {
    if prefer.Some? && prefer.value in ids then
      var first := Keep(ids, (i: Id) => i == prefer.value);
      assert prefer.value in first && first[0] in first;
      first + Keep(ids, (i: Id) => i != prefer.value)
    else
      ids
  }

  function FreeRoomsInBuilding(
    c: Campus, ss: seq<Session>, building: Id, start: Instant, end: Instant, own: Option<Id>, prefer: Option<Id>)
    : (r: seq<Id>)
    requires Linked(c) && SessionsLinked(c, ss)
    ensures forall i: Id :: i in r <==>
      i < |c.rooms| && BuildingOf(c, i) == building && RoomIsFree(c, ss, i, start, end, own, None)
  {
    Float(FreeRooms(c, ss, building, start, end, own), prefer)
  }

  lemma KeepPreservesCodeOrder(c: Campus, ids: seq<Id>, p: Id -> bool)
    requires RoomKeys(c, ids) && InCodeOrder(c, ids)
    ensures RoomKeys(c, Keep(ids, p)) && InCodeOrder(c, Keep(ids, p))
  {
    var r := Keep(ids, p);
    forall j | 0 <= j < |r| ensures r[j] < |c.rooms| {
      assert r[j] in r && r[j] in ids;
    }
    var rel := (x: Id, y: Id) => x < |c.rooms| && y < |c.rooms| && !CodeLess(c.rooms[y].code, c.rooms[x].code);
    KeepPreserves(ids, p, rel);
    forall a, b | 0 <= a < b < |r| ensures !CodeLess(c.rooms[r[b]].code, c.rooms[r[a]].code) {
      assert rel(r[a], r[b]);
    }
  }

  // Which room comes first: the preferred one when free, else the free one of least code.
  lemma FirstFreeRoom(
    c: Campus, ss: seq<Session>, building: Id, start: Instant, end: Instant, own: Option<Id>, prefer: Option<Id>)
    requires Linked(c) && SessionsLinked(c, ss)
    requires FreeRoomsInBuilding(c, ss, building, start, end, own, prefer) != []
    ensures
      var free := FreeRoomsInBuilding(c, ss, building, start, end, own, prefer);
      && (prefer.Some? && prefer.value in free ==> free[0] == prefer.value)
      && RoomKeys(c, free)
      && (prefer.None? || prefer.value !in free ==>
            forall i: Id :: i in free ==> !CodeLess(c.rooms[i].code, c.rooms[free[0]].code))
  {
    var free := FreeRoomsInBuilding(c, ss, building, start, end, own, prefer);
    forall j | 0 <= j < |free| ensures free[j] < |c.rooms| {
      assert free[j] in free;
    }
    if prefer.None? || prefer.value !in free {
      KeepPreservesCodeOrder(c, RoomsOf(c, building), (i: Id) => RoomIsFree(c, ss, i, start, end, own, None));
      assert free == FreeRooms(c, ss, building, start, end, own);
      assert InCodeOrder(c, free);
      forall i | i in free ensures !CodeLess(c.rooms[i].code, c.rooms[free[0]].code) {
        var b :| 0 <= b < |free| && free[b] == i;
        CodeOrder(c.rooms[i].code, c.rooms[i].code, c.rooms[i].code);
      }
    }
  }

  /* Alternative slots on the same day */

  const DAY_OPEN: TimeOfDay := 7 * 60 * MINUTE
  const DAY_CLOSE: TimeOfDay := 21 * 60 * MINUTE

  function HomeBuilding(c: Campus, s: Session): Id
    requires Linked(c) && s.schedule < |c.schedules|
  {
    BuildingOf(c, c.schedules[s.schedule].room)
  }

  // A building room is free for the slot and the instructor is not teaching elsewhere.
  predicate Teachable(c: Campus, ss: seq<Session>, i: Id, start: Instant, end: Instant)
    requires Linked(c) && SessionsLinked(c, ss) && i < |ss|
  {
    && (exists room :: 0 <= room < |c.rooms| && BuildingOf(c, room) == HomeBuilding(c, ss[i])
                       && RoomIsFree(c, ss, room, start, end, Some(i), None))
    && !FacultyHasConflict(ss, ss[i].faculty, start, end, Some(i))
  }

  // The slot is an alternative to i's own that is worth offering.
  predicate Offered(c: Campus, ss: seq<Session>, i: Id, start: Instant, end: Instant)
    requires Linked(c) && SessionsLinked(c, ss) && i < |ss|
  {
    !(start == ss[i].start && end == ss[i].end) && Teachable(c, ss, i, start, end)
  }

  function OfferTest(c: Campus, ss: seq<Session>, i: Id): (Instant, Instant) -> bool
    requires Linked(c) && SessionsLinked(c, ss) && i < |ss|
  {
    (start: Instant, end: Instant) => Offered(c, ss, i, start, end)
  }

  function Offers(c: Campus, ss: seq<Session>, i: Id): seq<(Instant, Instant)>
    requires Linked(c) && SessionsLinked(c, ss) && i < |ss| && ss[i].start < ss[i].end
  {
    var day := DateOf(ss[i].start);
    Stepped(At(day, DAY_OPEN), At(day, DAY_CLOSE), ss[i].end - ss[i].start, OfferTest(c, ss, i))
  }

  method CheckTeachable(c: Campus, ss: seq<Session>, i: Id, start: Instant, end: Instant) returns (ok: bool)
    requires Linked(c) && SessionsLinked(c, ss) && i < |ss|
    ensures ok == Teachable(c, ss, i, start, end)
  {
    var free := FreeRoomsInBuilding(c, ss, HomeBuilding(c, ss[i]), start, end, Some(i), None);
    if free == [] {
      assert forall room: Id :: room !in free;
      return false;
    }
    assert free[0] in free;
    return !FacultyHasConflict(ss, ss[i].faculty, start, end, Some(i));
  }

  method AvailableTimes(c: Campus, ss: seq<Session>, i: Id) returns (slots: seq<(Instant, Instant)>)
    requires Linked(c) && SessionsLinked(c, ss) && i < |ss| && ss[i].start < ss[i].end
    ensures slots == Offers(c, ss, i)
  {
    var s, day := ss[i], DateOf(ss[i].start);
    var duration := s.end - s.start;
    var cursor, close := At(day, DAY_OPEN), At(day, DAY_CLOSE);
    ghost var ok := OfferTest(c, ss, i);
    slots := [];
    assert Offers(c, ss, i) == Found(slots, cursor, close, duration, ok);
    hide Found;
    hide Offers;
    hide Teachable;
    hide At;
    hide DateOf;
    while cursor + duration <= close
      invariant Offers(c, ss, i) == Found(slots, cursor, close, duration, ok)
      decreases close - cursor
    {
      var start, end := cursor, cursor + duration;
      FoundStep(slots, cursor, close, duration, ok);
      cursor := end;
      if start == s.start && end == s.end {
        continue;
      }
      var teachable := CheckTeachable(c, ss, i, start, end);
      if !teachable {
        continue;
      }
      slots := slots + [(start, end)];
    }
    FoundStep(slots, cursor, close, duration, ok);
  }

  // Where the search for slots stands after n rounds.
  function CursorAfter(s: Session, n: nat): Instant {
    if n == 0 then At(DateOf(s.start), DAY_OPEN) else CursorAfter(s, n - 1) + (s.end - s.start)
  }

  // It would go another round.
  predicate GoesOn(s: Session, n: nat) {
    CursorAfter(s, n) + (s.end - s.start) <= At(DateOf(s.start), DAY_CLOSE)
  }

  // The search never ends for a session of no positive length, and only for such.
  lemma SearchNeverEndsIff(s: Session)
    ensures (forall n: nat :: GoesOn(s, n)) <==> s.end <= s.start
  {
    hide At;
    hide DateOf;
    var open, close, length := At(DateOf(s.start), DAY_OPEN), At(DateOf(s.start), DAY_CLOSE), s.end - s.start;
    assert open < close by {
      SameDay(DateOf(s.start));
    }
    if length <= 0 {
      forall n: nat ensures GoesOn(s, n) {
        CursorStaysBelow(s, n);
      }
    } else {
      CursorRises(s, close - open);
      assert !GoesOn(s, close - open);
    }
  }

  lemma SameDay(d: Date)
    ensures At(d, DAY_OPEN) < At(d, DAY_CLOSE)
  {
  }

  lemma {:induction false} CursorStaysBelow(s: Session, n: nat)
    requires s.end <= s.start
    ensures CursorAfter(s, n) <= At(DateOf(s.start), DAY_OPEN)
  {
    if n > 0 {
      CursorStaysBelow(s, n - 1);
    }
  }

  lemma {:induction false} CursorRises(s: Session, n: nat)
    requires s.start < s.end
    ensures At(DateOf(s.start), DAY_OPEN) + n <= CursorAfter(s, n)
  {
    if n > 0 {
      CursorRises(s, n - 1);
    }
  }

  lemma OffersAreDisjoint(c: Campus, ss: seq<Session>, i: Id)
    requires Linked(c) && SessionsLinked(c, ss) && i < |ss| && ss[i].start < ss[i].end
    ensures InSuccession(Offers(c, ss, i), At(DateOf(ss[i].start), DAY_OPEN))
  {
    var day := DateOf(ss[i].start);
    SteppedIsDisjoint(At(day, DAY_OPEN), At(day, DAY_CLOSE), ss[i].end - ss[i].start, OfferTest(c, ss, i));
  }

  // An offer is a candidate of the class's own length that fits opening hours, differs from the
  // current slot and has a free room and a free instructor; and no such candidate is missing.
  lemma OffersAreExact(c: Campus, ss: seq<Session>, i: Id, x: (Instant, Instant))
    requires Linked(c) && SessionsLinked(c, ss) && i < |ss| && ss[i].start < ss[i].end
    ensures
      var day, length := DateOf(ss[i].start), ss[i].end - ss[i].start;
      x in Offers(c, ss, i) <==>
        && At(day, DAY_OPEN) <= x.0 && OnGrid(At(day, DAY_OPEN), length, x.0)
        && x.1 == x.0 + length && x.1 <= At(day, DAY_CLOSE)
        && x != (ss[i].start, ss[i].end)
        && Teachable(c, ss, i, x.0, x.1)
  {
    hide Stepped;
    hide OnGrid;
    hide Teachable;
    hide At;
    hide DateOf;
    var day := DateOf(ss[i].start);
    SteppedIsExact(At(day, DAY_OPEN), At(day, DAY_CLOSE), ss[i].end - ss[i].start, OfferTest(c, ss, i), x);
    assert OfferTest(c, ss, i)(x.0, x.1) == Offered(c, ss, i, x.0, x.1);
  }
}
