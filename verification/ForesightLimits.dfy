/** Where foresight ends: tied decisions, and slots that reach into a second date. */
module ForesightLimits {
  import opened Availability
  import opened Calendar
  import opened Excusal
  import opened Foresight
  import opened Materialization
  import opened Tables
  import opened Wrappers

  // One room, one running term of a week from the given date, and the given classes and shifts.
  function OneRoomCampus(
    first: Date, schedules: seq<Schedule>, requests: seq<ShiftRequest>, items: seq<ShiftItem>): Campus
  {
    Campus([Term(first, first + 6, TermActive)], [], [], [Floor(0, 1)], [Room(0, "R101", false)],
           schedules, [], requests, items)
  }

  // One Monday class with two shifts decided at the same instant, the later row's to Online.
  function TiedCampus(): Campus {
    var lecture := Schedule(0, "CS1", 0, 0, 0, 8 * HOUR, 9 * HOUR, F2F, ScheduleActive, 30);
    var request := ShiftRequest(0, None, Blended, 0, 6, Approved, "", Some(-1), None, -2);
    OneRoomCampus(0, [lecture], [request, request.(target := Online)],
                  [ShiftItem(0, 0, None, None, None, None), ShiftItem(1, 0, None, None, None, None)])
  }

  lemma TiedShifts(c: Campus)
    requires c == TiedCampus()
    ensures Linked(c) && WholeMoves(c) && |c.items| == 2 && ShiftsOn(c, 0, 0, 0) && ShiftsOn(c, 1, 0, 0)
    ensures DecidedAt(c, 0) == DecidedAt(c, 1)
  {
  }

  lemma TiedPicks(c: Campus)
    requires Linked(c) && |c.items| == 2 && ShiftsOn(c, 0, 0, 0) && ShiftsOn(c, 1, 0, 0)
    requires DecidedAt(c, 0) == DecidedAt(c, 1)
    ensures ShiftFor(c, 0, 0) == Some(1) && BirthShift(c, Leading(0), 0, 0) == Some(0) && TiedAtTheTop(c, 0, 0)
  {
    hide ApprovedOn;
    hide DecidedAt;
    assert forall m: Id :: ShiftsOn(c, m, 0, 0) ==> m == 0 || m == 1;
    assert Latest(c, 0, 0, 0) && Latest(c, 0, 0, 1);
    AnyLatestMayComeFirst(c, 0, 0, 0);
    assert LatestShift(c, 0, 0, 0) == None && LatestShift(c, 0, 0, 1) == Some(0);
  }

  lemma TiedOracle(c: Campus, x: Instant, y: Instant)
    requires c == TiedCampus() && x == At(0, 8 * HOUR) && y == At(0, 9 * HOUR)
    requires Linked(c) && ShiftFor(c, 0, 0) == Some(1)
    ensures SessionsLinked(c, []) && RoomIsFree(c, [], 0, x, y, None, None)
  {
    hide ShiftFor;
    assert !ReservesOwnRoom(c, [], 0, 0);
  }

  lemma TiedDue(c: Campus)
    requires c == TiedCampus() && Linked(c)
    ensures Due(c, 0, 0, 0) && c.items[0].request == 0 && c.requests[0].target.Blended?
    ensures c.items[0].assignedRoom.None? && c.schedules[0].room == 0
    ensures c.schedules[0].start == 8 * HOUR && c.schedules[0].end == 9 * HOUR
  {
  }

  // A shift to a room without a reserved one is born in its own room at its own time.
  lemma TiedNewborn(c: Campus, tie: Ties, x: Instant, y: Instant)
    requires Linked(c) && BirthShift(c, tie, 0, 0) == Some(0) && |c.schedules| > 0
    requires c.items[0].request < |c.requests| && c.requests[c.items[0].request].target.Blended?
    requires c.items[0].assignedRoom.None?
    requires x == At(0, c.schedules[0].start) && y == At(0, c.schedules[0].end) && x < y
    ensures SessionIn(c, Newborn(c, tie, 0, 0, 0), c.schedules[0].room, x, y)
  {
    hide BirthShift;
  }

  // The oracle honours the Online decision and calls the room free; the generator honours the
  // other one, which its query happens to answer first, and fills the room.
  lemma TiesDefeatForesight() returns (c: Campus, tie: Ties, x: Instant, y: Instant)
    ensures Linked(c) && WholeMoves(c) && |c.terms| == 1 && c.terms[0].status.TermActive? && SessionsLinked(c, [])
    ensures TiedAtTheTop(c, 0, 0) && WithinDate(x, y, 0) && RoomIsFree(c, [], 0, x, y, None, None)
    ensures
      var after := MaterializedTerm(c, tie, [], 0, 0, 1, 0).sessions;
      SessionsLinked(c, after) && !RoomIsFree(c, after, 0, x, y, None, None)
  {
    hide BirthShift;
    hide ShiftFor;
    hide Newborn;
    hide RoomIsFree;
    hide TiedAtTheTop;
    c, tie, x, y := TiedCampus(), Leading(0), At(0, 8 * HOUR), At(0, 9 * HOUR);
    TiedShifts(c);
    TiedPicks(c);
    TiedOracle(c, x, y);
    TiedDue(c);
    TiedNewborn(c, tie, x, y);
    NewbornFills(c, tie, 0, 0, 1, 0, x, y);
  }

  // The campus of one class that meets for a moment after the midnight that ends x's date.
  function MidnightCampus(x: Instant): Campus {
    var d := DateOf(x);
    OneRoomCampus(d, [Schedule(0, "CS1", 0, 0, WeekdayOf(d + 1), 0, 1, F2F, ScheduleActive, 30)], [], [])
  }

  // Nothing that foresight inside a date depends on is amiss: time moves are whole, and on every due
  // date oracle and generator agree about the class's room.
  ghost predicate Foreseeable(c: Campus, tie: Ties, ss: seq<Session>, term: Id) {
    && Linked(c) && SessionsLinked(c, ss) && WholeMoves(c) && term < |c.terms|
    && forall k: Id, d: Date :: DueInTerm(c, term, k, d) ==> Agree(c, tie, k, d)
  }

  // A slot that runs over midnight is only checked on its first date: whatever the slot, and however
  // queries break ties, there is a campus where the room reads free and the next date's class is
  // then born inside the slot.
  lemma OvernightSlotsAreNotForeseen(x: Instant, y: Instant, tie: Ties) returns (c: Campus)
    requires y > At(DateOf(x) + 1, 0)
    ensures Foreseeable(c, tie, [], 0) && |c.terms| == 1 && RoomIsFree(c, [], 0, x, y, None, None)
    ensures
      var after := MaterializedTerm(c, tie, [], 0, DateOf(x), 2, 0).sessions;
      SessionsLinked(c, after) && !RoomIsFree(c, after, 0, x, y, None, None)
  {
    var d := DateOf(x);
    c := MidnightCampus(x);
    MidnightClass(c, tie, x);
    assert forall k: Id, e: Date, i: Id :: !ShiftsOn(c, i, k, e);
    assert SessionIn(c, Newborn(c, tie, 0, d + 1, 0), 0, x, y);
    assert Due(c, 0, 0, d + 1);
    NewbornFills(c, tie, d, d + 1, 2, 0, x, y);
  }

  lemma MidnightClass(c: Campus, tie: Ties, x: Instant)
    requires c == MidnightCampus(x)
    ensures Linked(c) && !MeetsOn(c, 0, DateOf(x))
    ensures Newborn(c, tie, 0, DateOf(x) + 1, 0) == Unshifted(c, 0, DateOf(x) + 1)
    ensures !Excused(c, 0, DateOf(x) + 1, 0)
  {
    OncePerWeek(DateOf(x));
  }

  // Walking some dates from the first leaves the only class's newborn of date d in the room.
  lemma NewbornFills(
    c: Campus, tie: Ties, first: Date, d: Date, days: nat, now: Instant, x: Instant, y: Instant)
    requires Linked(c) && |c.terms| == 1 && c.terms[0] == Term(first, first + 6, TermActive)
    requires first <= d < first + days <= first + 7
    requires Due(c, 0, 0, d) && SessionIn(c, Newborn(c, tie, 0, d, now), 0, x, y)
    ensures
      var after := MaterializedTerm(c, tie, [], 0, first, days, now).sessions;
      SessionsLinked(c, after) && !RoomIsFree(c, after, 0, x, y, None, None)
  {
    hide Newborn;
    WalkGrows(c, tie, [], 0, first, first + days, now);
    var after := MaterializedTerm(c, tie, [], 0, first, days, now).sessions;
    GrownStaysLinked(c, tie, [], after, 0, first, first + days, now);
    var i := NewbornOf(c, tie, [], after, 0, first, first + days, now, 0, d);
    assert SessionIn(c, after[i], 0, x, y);
  }

  // Wherever oracle and generator agree about rooms, materializing never changes whether a room
  // reads free for [x, y).
  ghost predicate Foreseen(x: Instant, y: Instant) {
    forall c: Campus, tie: Ties, ss: seq<Session>, term: Id, start: Date, days: int, now: Instant, room: Id ::
      Foreseeable(c, tie, ss, term) ==> Unseen(c, tie, ss, term, start, days, now, room, x, y)
  }

  // Slots inside one date are foreseen, and no others.
  lemma ForesightReachesOneDate(x: Instant, y: Instant)
    requires x < y
    ensures Foreseen(x, y) <==> WithinDate(x, y, DateOf(x))
  {
    hide Unseen;
    hide RoomIsFree;
    hide Due;
    hide Agree;
    if WithinDate(x, y, DateOf(x)) {
      forall c: Campus, tie: Ties, ss: seq<Session>, term: Id, start: Date, days: int, now: Instant, room: Id
        | Foreseeable(c, tie, ss, term)
        ensures Unseen(c, tie, ss, term, start, days, now, room, x, y)
      {
        OracleForeseesMaterialization(c, tie, ss, term, start, days, now, room, DateOf(x), x, y);
      }
    } else {
      var c := OvernightSlotsAreNotForeseen(x, y, Leading(0));
      OvernightIsSeen(c, Leading(0), x, y);
      assert Foreseeable(c, Leading(0), [], 0) && !Unseen(c, Leading(0), [], 0, DateOf(x), 2, 0, 0, x, y);
    }
  }

  lemma OvernightIsSeen(c: Campus, tie: Ties, x: Instant, y: Instant)
    requires Foreseeable(c, tie, [], 0) && RoomIsFree(c, [], 0, x, y, None, None)
    requires
      var after := MaterializedTerm(c, tie, [], 0, DateOf(x), 2, 0).sessions;
      SessionsLinked(c, after) && !RoomIsFree(c, after, 0, x, y, None, None)
    ensures !Unseen(c, tie, [], 0, DateOf(x), 2, 0, 0, x, y)
  {
    hide RoomIsFree;
  }
}
