/**
  The laws of the generator, and exactly when the oracle, which predicts the classes that have no
  session yet, agrees with the generator, which later creates those sessions.
 */
module Foresight {
  import opened Availability
  import opened Calendar
  import opened Materialization
  import opened Tables
  import opened Wrappers

  /* Completeness, idempotence and composition */

  lemma MaterializationIsComplete(
    c: Campus, tie: Ties, ss: seq<Session>, term: Id, start: Date, days: int, now: Instant)
    requires Linked(c) && SessionsLinked(c, ss) && term < |c.terms|
    ensures
      var t := MaterializedTerm(c, tie, ss, term, start, days, now);
      var from, until := FirstDate(c, term, start), StopDate(c, term, start, days);
      && GrownFrom(c, tie, ss, t.sessions, term, from, until, now)
      && (forall k, d | start <= d < start + days && c.terms[term].start <= d <= c.terms[term].end
            && Due(c, term, k, d) :: Materialized(t.sessions, k, d))
      && (UniqueOccurrences(ss) ==> UniqueOccurrences(t.sessions))
      && t.created == |t.sessions| - |ss|
      && t.created + t.existing + t.skipped == MatchingPairs(c, term, from, until)
      && t.skipped == ExcusedPairs(c, term, from, until)
  {
    WalkGrows(c, tie, ss, term, FirstDate(c, term, start), StopDate(c, term, start, days), now);
    SkippedAreExcused(
      c, tie, Tally(ss, 0, 0, 0), term, FirstDate(c, term, start), StopDate(c, term, start, days), now);
  }

  lemma {:induction false} DayIdle(c: Campus, tie: Ties, t: Tally, term: Id, d: Date, n: nat, now: Instant)
    requires Linked(c) && n <= |c.schedules|
    requires forall k :: 0 <= k < n && Due(c, term, k, d) ==> Materialized(t.sessions, k, d)
    ensures VisitDay(c, tie, t, term, d, n, now).sessions == t.sessions
    ensures VisitDay(c, tie, t, term, d, n, now).created == t.created
  {
    if n > 0 {
      DayIdle(c, tie, t, term, d, n - 1, now);
    }
  }

  lemma {:induction false} WalkIdle(c: Campus, tie: Ties, t: Tally, term: Id, from: Date, until: Date, now: Instant)
    requires Linked(c)
    requires forall k, d :: from <= d < until && Due(c, term, k, d) ==> Materialized(t.sessions, k, d)
    ensures Walk(c, tie, t, term, from, until, now).sessions == t.sessions
    ensures Walk(c, tie, t, term, from, until, now).created == t.created
    decreases until - from
  {
    if from < until {
      WalkIdle(c, tie, t, term, from, until - 1, now);
      DayIdle(c, tie, Walk(c, tie, t, term, from, until - 1, now), term, until - 1, |c.schedules|, now);
    }
  }

  // A second run over the same dates, at any later time and however the queries then break ties,
  // creates nothing and changes nothing.
  lemma RerunChangesNothing(
    c: Campus, tie: Ties, again: Ties, ss: seq<Session>, term: Id, start: Date, days: int, now: Instant, later: Instant)
    requires Linked(c) && SessionsLinked(c, ss) && term < |c.terms|
    ensures
      var once := MaterializedTerm(c, tie, ss, term, start, days, now).sessions;
      var twice := MaterializedTerm(c, again, once, term, start, days, later);
      twice.sessions == once && twice.created == 0
  {
    var from, until := FirstDate(c, term, start), StopDate(c, term, start, days);
    WalkGrows(c, tie, ss, term, from, until, now);
    var once := MaterializedTerm(c, tie, ss, term, start, days, now).sessions;
    WalkIdle(c, again, Tally(once, 0, 0, 0), term, from, until, later);
  }

  lemma {:induction false} WalkOffset(
    c: Campus, tie: Ties, t: Tally, a: nat, b: nat, e: nat, term: Id, from: Date, until: Date, now: Instant)
    requires Linked(c)
    ensures Walk(c, tie, Plus(t, a, b, e), term, from, until, now) == Plus(Walk(c, tie, t, term, from, until, now), a, b, e)
    decreases until - from
  {
    if from < until {
      WalkOffset(c, tie, t, a, b, e, term, from, until - 1, now);
      DayOffset(c, tie, Walk(c, tie, t, term, from, until - 1, now), a, b, e, term, until - 1, |c.schedules|, now);
    }
  }

  lemma {:induction false} WalkSplit(
    c: Campus, tie: Ties, t: Tally, term: Id, from: Date, mid: Date, until: Date, now: Instant)
    requires Linked(c) && from <= mid <= until
    ensures Walk(c, tie, t, term, from, until, now)
      == Walk(c, tie, Walk(c, tie, t, term, from, mid, now), term, mid, until, now)
    decreases until - mid
  {
    if mid < until {
      WalkSplit(c, tie, t, term, from, mid, until - 1, now);
    }
  }

  // Two adjacent windows, one after the other, do exactly what their union does.
  lemma AdjacentWindowsCompose(
    c: Campus, tie: Ties, ss: seq<Session>, term: Id, start: Date, m: nat, n: nat, now: Instant)
    requires Linked(c) && term < |c.terms|
    ensures
      var first := MaterializedTerm(c, tie, ss, term, start, m, now);
      var second := MaterializedTerm(c, tie, first.sessions, term, start + m, n, now);
      MaterializedTerm(c, tie, ss, term, start, m + n, now)
        == Plus(second, first.created, first.existing, first.skipped)
  {
    var t0 := Tally(ss, 0, 0, 0);
    var first := MaterializedTerm(c, tie, ss, term, start, m, now);
    var from, mid := FirstDate(c, term, start), StopDate(c, term, start, m);
    var from', until := FirstDate(c, term, start + m), StopDate(c, term, start + m, n);
    if from <= mid <= until {
      WalkSplit(c, tie, t0, term, from, mid, until, now);
      WalkOffset(c, tie, Tally(first.sessions, 0, 0, 0), first.created, first.existing, first.skipped,
                 term, mid, until, now);
    }
  }

  /* Which shift each of them honours */

  // A time move always carries both of its ends.
  predicate WholeMoves(c: Campus) {
    forall i :: i in c.items ==> (i.newStart.Some? <==> i.newEnd.Some?)
  }

  // No applicable shift was decided after i.
  ghost predicate Latest(c: Campus, k: Id, d: Date, i: Id)
    requires Linked(c)
  {
    ShiftsOn(c, i, k, d) && forall m: Id :: ShiftsOn(c, m, k, d) ==> !DecidedBefore(DecidedAt(c, i), DecidedAt(c, m))
  }

  // Both honour a latest row, or both none.
  lemma BothHonourLatest(c: Campus, tie: Ties, k: Id, d: Date)
    requires Linked(c)
    ensures BirthShift(c, tie, k, d).None? <==> ShiftFor(c, k, d).None?
    ensures BirthShift(c, tie, k, d).Some? ==> Latest(c, k, d, BirthShift(c, tie, k, d).value)
    ensures ShiftFor(c, k, d).Some? ==> Latest(c, k, d, ShiftFor(c, k, d).value)
  {
    hide ApprovedOn;
    var n, a, b := |c.items|, BirthShift(c, tie, k, d), ShiftFor(c, k, d);
    forall m: Id | ShiftsOn(c, m, k, d)
      ensures a.Some? && b.Some?
      ensures !DecidedBefore(DecidedAt(c, a.value), DecidedAt(c, m)) && !DecidedBefore(DecidedAt(c, b.value), DecidedAt(c, m))
    {
      LatestShiftIsLatest(c, k, d, n, m);
      LatestDecidedIsLatest(c, tie, k, d, n, m);
    }
  }

  // s is held as shift i decided: its modality, its room released exactly when that is Online,
  // its reserved room and, with a room, its new times; the decision's stamp on it.
  predicate BornUnder(c: Campus, s: Session, i: Id)
    requires Linked(c) && s.schedule < |c.schedules| && i < |c.items|
  {
    var it, row := c.items[i], c.schedules[s.schedule];
    var r := c.requests[it.request];
    var placed := !r.target.Online? && it.assignedRoom.Some?;
    var moved := placed && it.newStart.Some? && it.newEnd.Some?;
    && EffectiveModality(c, s) == r.target
    && s.changedAt == r.decidedAt && s.changedBy == r.decidedBy
    && (s.released.Some? <==> r.target.Online?)
    && (r.target.Online? && r.decidedAt.Some? ==> s.released == r.decidedAt)
    && s.room == (if placed then it.assignedRoom.value else row.room)
    && s.start == At(s.date, if moved then it.newStart.value else row.start)
    && s.end == At(s.date, if moved then it.newEnd.value else row.end)
  }

  // s is held as the timetable says.
  predicate BornUnshifted(c: Campus, s: Session)
    requires s.schedule < |c.schedules|
  {
    var row := c.schedules[s.schedule];
    && EffectiveModality(c, s) == row.modality && s.released.None? && s.changedAt.None? && s.changedBy.None?
    && s.room == row.room && s.start == At(s.date, row.start) && s.end == At(s.date, row.end)
  }

  // Nobody has yet come to s, cancelled it or been assigned to it.
  predicate Pristine(s: Session) {
    && s.status.Scheduled? && s.actualStart.None? && s.actualEnd.None? && s.checkin.NoCheckin?
    && s.cancelledReason == "" && s.onlineChecker.None?
  }

  // A newborn is its class's, untouched, and as a latest shift of its date decided, or as the
  // timetable says when there is none.
  ghost predicate WellBorn(c: Campus, s: Session)
    requires Linked(c) && s.schedule < |c.schedules|
  {
    && s.faculty == c.schedules[s.schedule].faculty && Pristine(s)
    && if exists i: Id :: ShiftsOn(c, i, s.schedule, s.date)
       then exists i: Id :: Latest(c, s.schedule, s.date, i) && BornUnder(c, s, i)
       else BornUnshifted(c, s)
  }

  lemma NewbornIsWellBorn(c: Campus, tie: Ties, k: Id, d: Date, now: Instant)
    requires Linked(c) && k < |c.schedules|
    ensures WellBorn(c, Newborn(c, tie, k, d, now))
  {
    hide LatestDecided;
    hide Latest;
    hide ApprovedOn;
    hide At;
    BothHonourLatest(c, tie, k, d);
    var shift := BirthShift(c, tie, k, d);
    if shift.None? {
      forall i: Id ensures !ShiftsOn(c, i, k, d) {
        if ShiftsOn(c, i, k, d) {
          LatestDecidedIsLatest(c, tie, k, d, |c.items|, i);
        }
      }
    } else {
      assert BornUnder(c, Newborn(c, tie, k, d, now), shift.value);
    }
  }

  // So is every session a run adds.
  lemma RunsBearWell(
    c: Campus, tie: Ties, ss: seq<Session>, term: Id, start: Date, days: int, now: Instant, p: Id)
    requires Linked(c) && SessionsLinked(c, ss) && term < |c.terms|
    requires |ss| <= p < |MaterializedTerm(c, tie, ss, term, start, days, now).sessions|
    ensures
      var s := MaterializedTerm(c, tie, ss, term, start, days, now).sessions[p];
      s.schedule < |c.schedules| && WellBorn(c, s)
  {
    hide Newborn;
    hide Due;
    hide WellBorn;
    var from, until := FirstDate(c, term, start), StopDate(c, term, start, days);
    WalkGrows(c, tie, ss, term, from, until, now);
    var s := MaterializedTerm(c, tie, ss, term, start, days, now).sessions[p];
    assert BornIn(c, tie, ss, s, term, from, until, now);
    DueIsKnown(c, term, s.schedule, s.date);
    NewbornIsWellBorn(c, tie, s.schedule, s.date, now);
  }

  // The answer in which row i comes before every other.
  function Leading(i: Id): Ties {
    (j: Id, d: Date) => if j == i then 0 else 1
  }

  // Each of the latest rows may be the one the generator takes.
  lemma AnyLatestMayComeFirst(c: Campus, k: Id, d: Date, i: Id)
    requires Linked(c) && Latest(c, k, d, i)
    ensures BirthShift(c, Leading(i), k, d) == Some(i)
  {
    LatestDecidedIsLatest(c, Leading(i), k, d, |c.items|, i);
  }

  // The shift that counts is decided at one time by two rows.
  ghost predicate TiedAtTheTop(c: Campus, k: Id, d: Date)
    requires Linked(c)
  {
    exists i: Id, j: Id :: i != j && Latest(c, k, d, i) && Latest(c, k, d, j)
  }

  // Oracle and generator honour one and the same row, however the answer is ordered, exactly when
  // there is only one latest row.
  lemma PicksAgreeIff(c: Campus, k: Id, d: Date)
    requires Linked(c)
    ensures (forall tie: Ties :: BirthShift(c, tie, k, d) == ShiftFor(c, k, d)) <==> !TiedAtTheTop(c, k, d)
  {
    hide Latest;
    hide BirthShift;
    hide ShiftFor;
    if TiedAtTheTop(c, k, d) {
      var i, j :| i != j && Latest(c, k, d, i) && Latest(c, k, d, j);
      AnyLatestMayComeFirst(c, k, d, i);
      AnyLatestMayComeFirst(c, k, d, j);
    }
    forall tie: Ties | !TiedAtTheTop(c, k, d) ensures BirthShift(c, tie, k, d) == ShiftFor(c, k, d) {
      BothHonourLatest(c, tie, k, d);
    }
  }

  // The oracle, which knows the classes of running terms only, expects class k in its own room.
  predicate Expected(c: Campus, k: Id, d: Date)
    requires Linked(c) && k < |c.schedules|
  {
    c.terms[c.schedules[k].term].status.TermActive? && KeepsRoom(c, k, ShiftFor(c, k, d))
  }

  // The generator puts it there if and only if the oracle expects it there.
  predicate Agree(c: Campus, tie: Ties, k: Id, d: Date)
    requires Linked(c) && k < |c.schedules|
  {
    KeepsRoom(c, k, BirthShift(c, tie, k, d)) == Expected(c, k, d)
  }

  // The latest rows, or the timetable when there are none, are of one mind about whether class k
  // meets in its own room; and if so, its term runs.
  ghost predicate LatestAgree(c: Campus, k: Id, d: Date)
    requires Linked(c) && k < |c.schedules|
  {
    && (forall i: Id :: Latest(c, k, d, i) ==> KeepsRoom(c, k, Some(i)) == KeepsRoom(c, k, ShiftFor(c, k, d)))
    && (KeepsRoom(c, k, ShiftFor(c, k, d)) ==> c.terms[c.schedules[k].term].status.TermActive?)
  }

  lemma AgreeIff(c: Campus, k: Id, d: Date)
    requires Linked(c) && k < |c.schedules|
    ensures (forall tie: Ties :: Agree(c, tie, k, d)) <==> LatestAgree(c, k, d)
  {
    hide ApprovedOn;
    hide BirthShift;
    hide ShiftFor;
    hide KeepsRoom;
    forall i: Id | Latest(c, k, d, i) ensures BirthShift(c, Leading(i), k, d) == Some(i) {
      AnyLatestMayComeFirst(c, k, d, i);
    }
    forall tie: Ties
      ensures BirthShift(c, tie, k, d).None? <==> ShiftFor(c, k, d).None?
      ensures BirthShift(c, tie, k, d).Some? ==> Latest(c, k, d, BirthShift(c, tie, k, d).value)
      ensures ShiftFor(c, k, d).Some? ==> Latest(c, k, d, ShiftFor(c, k, d).value)
    {
      BothHonourLatest(c, tie, k, d);
    }
    if forall tie: Ties :: Agree(c, tie, k, d) {
      forall i: Id | Latest(c, k, d, i) ensures KeepsRoom(c, k, Some(i)) == Expected(c, k, d) {
        assert Agree(c, Leading(i), k, d);
      }
      assert Agree(c, Leading(0), k, d);
    } else {
      var tie: Ties :| !Agree(c, tie, k, d);
    }
  }

  /* The oracle foresees the generator */

  // A session of class k is due on date d of the term.
  predicate DueInTerm(c: Campus, term: Id, k: Id, d: Date)
    requires Linked(c) && term < |c.terms|
  {
    Due(c, term, k, d) && c.terms[term].start <= d <= c.terms[term].end
  }

  // Class k has the room, and its timetabled hours on date d meet the slot.
  predicate HasSlot(c: Campus, k: Id, d: Date, room: Id, x: Instant, y: Instant)
  {
    k < |c.schedules| && c.schedules[k].room == room && Overlaps(At(d, c.schedules[k].start), At(d, c.schedules[k].end), x, y)
  }

  // A booking or an approved reservation has the slot, sessions or no sessions.
  predicate Taken(c: Campus, room: Id, x: Instant, y: Instant)
    requires Linked(c)
  {
    BookingOccupies(c, room, x, y) || ReservationOccupies(c, room, x, y, None)
  }

  // The slot is taken anyhow, or oracle and generator agree on each class that is due in it.
  ghost predicate Foretold(c: Campus, tie: Ties, term: Id, room: Id, d: Date, x: Instant, y: Instant)
    requires Linked(c) && term < |c.terms|
  {
    || Taken(c, room, x, y)
    || forall k: Id :: DueInTerm(c, term, k, d) && HasSlot(c, k, d, room, x, y) ==> Agree(c, tie, k, d)
  }

  // A newborn has the slot by its own timetable row or by a reservation, and by the former
  // whenever it keeps its room.
  lemma NewbornInSlot(
    c: Campus, tie: Ties, k: Id, d: Date, room: Id, x: Instant, y: Instant, now: Instant)
    requires Linked(c) && WholeMoves(c) && k < |c.schedules| && c.schedules[k].dow == WeekdayOf(d) && WithinDate(x, y, d)
    ensures
      var own := KeepsRoom(c, k, BirthShift(c, tie, k, d)) && HasSlot(c, k, d, room, x, y);
      && (own ==> SessionIn(c, Newborn(c, tie, k, d, now), room, x, y))
      && (SessionIn(c, Newborn(c, tie, k, d, now), room, x, y) ==> own || ReservationOccupies(c, room, x, y, None))
  {
    hide LatestDecided;
    DateOfWithin(x, y, d);
    var shift := BirthShift(c, tie, k, d);
    if shift.Some? && c.items[shift.value].assignedRoom == Some(room) {
      assert c.items[shift.value] in c.items;
      assert !c.requests[c.items[shift.value].request].target.Online? ==> Reserves(c, shift.value, room, d);
    }
  }

  // A newborn that holds room over the slot was foreseen, by its class or by its reservation.
  lemma NewbornIsForeseen(
    c: Campus, tie: Ties, ss: seq<Session>, term: Id, k: Id, d: Date, room: Id, x: Instant, y: Instant, now: Instant)
    requires Linked(c) && WholeMoves(c) && term < |c.terms| && WithinDate(x, y, d)
    requires DueInTerm(c, term, k, d) && !Materialized(ss, k, d) && Foretold(c, tie, term, room, d, x, y)
    requires SessionIn(c, Newborn(c, tie, k, d, now), room, x, y)
    ensures Taken(c, room, x, y) || ScheduleOccupies(c, ss, room, x, y, None)
  {
    hide BirthShift;
    hide ShiftFor;
    hide Newborn;
    hide KeepsRoom;
    DateOfWithin(x, y, d);
    NewbornInSlot(c, tie, k, d, room, x, y, now);
    if !Taken(c, room, x, y) {
      assert ReservesOwnRoom(c, ss, k, d);
    }
  }

  // The room is as free for the slot after materializing as before.
  ghost predicate Unseen(
    c: Campus, tie: Ties, ss: seq<Session>, term: Id, start: Date, days: int, now: Instant,
    room: Id, x: Instant, y: Instant)
    requires Linked(c) && SessionsLinked(c, ss) && term < |c.terms|
  {
    var after := MaterializedTerm(c, tie, ss, term, start, days, now).sessions;
    && SessionsLinked(c, after)
    && (RoomIsFree(c, ss, room, x, y, None, None) <==> RoomIsFree(c, after, room, x, y, None, None))
  }

  // Materializing the term is invisible to the oracle: every foretold slot is as free after as before.
  lemma OracleForeseesMaterialization(
    c: Campus, tie: Ties, ss: seq<Session>, term: Id, start: Date, days: int, now: Instant,
    room: Id, d: Date, x: Instant, y: Instant)
    requires Linked(c) && SessionsLinked(c, ss) && WholeMoves(c) && term < |c.terms| && WithinDate(x, y, d)
    requires Foretold(c, tie, term, room, d, x, y)
    ensures Unseen(c, tie, ss, term, start, days, now, room, x, y)
  {
    hide RoomIsFree;
    hide Foretold;
    var from, until := FirstDate(c, term, start), StopDate(c, term, start, days);
    WalkGrows(c, tie, ss, term, from, until, now);
    var after := MaterializedTerm(c, tie, ss, term, start, days, now).sessions;
    GrownStaysLinked(c, tie, ss, after, term, from, until, now);
    if RoomIsFree(c, ss, room, x, y, None, None) {
      StaysFree(c, tie, ss, after, term, from, until, now, room, d, x, y);
    }
    if RoomIsFree(c, after, room, x, y, None, None) {
      WasFree(c, tie, ss, after, term, from, until, now, room, d, x, y);
    }
  }

  lemma GrownStaysLinked(
    c: Campus, tie: Ties, ss: seq<Session>, after: seq<Session>, term: Id, from: Date, until: Date, now: Instant)
    requires Linked(c) && SessionsLinked(c, ss) && GrownFrom(c, tie, ss, after, term, from, until, now)
    ensures SessionsLinked(c, after)
  {
    hide Newborn;
    hide Due;
    forall i | 0 <= i < |after| ensures after[i].schedule < |c.schedules| && after[i].room < |c.rooms| {
      if i < |ss| {
        assert after[i] == ss[i];
      } else {
        assert BornIn(c, tie, ss, after[i], term, from, until, now);
        DueIsKnown(c, term, after[i].schedule, after[i].date);
      }
    }
  }

  lemma StaysFree(
    c: Campus, tie: Ties, ss: seq<Session>, after: seq<Session>, term: Id, from: Date, until: Date, now: Instant,
    room: Id, d: Date, x: Instant, y: Instant)
    requires Linked(c) && SessionsLinked(c, ss) && SessionsLinked(c, after) && WholeMoves(c) && term < |c.terms|
    requires c.terms[term].start <= from && until <= c.terms[term].end + 1
    requires GrownFrom(c, tie, ss, after, term, from, until, now) && Foretold(c, tie, term, room, d, x, y)
    requires WithinDate(x, y, d) && RoomIsFree(c, ss, room, x, y, None, None)
    ensures RoomIsFree(c, after, room, x, y, None, None)
  {
    hide Due;
    hide Foretold;
    hide KeepsRoom;
    DateOfWithin(x, y, d);
    forall i | 0 <= i < |after| ensures !SessionIn(c, after[i], room, x, y) {
      if |ss| <= i && SessionIn(c, after[i], room, x, y) {
        var s := after[i];
        assert BornIn(c, tie, ss, s, term, from, until, now);
        DueIsKnown(c, term, s.schedule, s.date);
        assert s.date == d by {
          NewbornOnItsDate(c, tie, s.schedule, s.date, now);
        }
        NewbornIsForeseen(c, tie, ss, term, s.schedule, d, room, x, y, now);
      } else if i < |ss| {
        assert after[i] == ss[i];
      }
    }
    forall k | 0 <= k < |c.schedules| && ReservesOwnRoom(c, after, k, d)
      ensures ReservesOwnRoom(c, ss, k, d)
    {
      if Materialized(ss, k, d) {
        StaysMaterialized(ss, after, k, d);
      }
    }
  }

  lemma NewbornOnItsDate(c: Campus, tie: Ties, k: Id, d: Date, now: Instant)
    requires Linked(c) && k < |c.schedules|
    ensures
      var s := Newborn(c, tie, k, d, now);
      At(d, 0) <= s.start < At(d + 1, 0) && At(d, 0) <= s.end < At(d + 1, 0)
  {
  }

  lemma WasFree(
    c: Campus, tie: Ties, ss: seq<Session>, after: seq<Session>, term: Id, from: Date, until: Date, now: Instant,
    room: Id, d: Date, x: Instant, y: Instant)
    requires Linked(c) && SessionsLinked(c, ss) && SessionsLinked(c, after) && WholeMoves(c) && term < |c.terms|
    requires c.terms[term].start <= from && until <= c.terms[term].end + 1
    requires GrownFrom(c, tie, ss, after, term, from, until, now) && Foretold(c, tie, term, room, d, x, y)
    requires WithinDate(x, y, d) && RoomIsFree(c, after, room, x, y, None, None)
    ensures RoomIsFree(c, ss, room, x, y, None, None)
  {
    hide Newborn;
    hide KeepsRoom;
    DateOfWithin(x, y, d);
    assert forall i :: 0 <= i < |ss| ==> after[i] == ss[i];
    forall k: Id | k < |c.schedules| && HasSlot(c, k, d, room, x, y) ensures !ReservesOwnRoom(c, ss, k, d) {
      assert !ReservesOwnRoom(c, after, k, d);
      if Materialized(after, k, d) && !Materialized(ss, k, d) {
        var i := NewbornOf(c, tie, ss, after, term, from, until, now, k, d);
        NewbornInSlot(c, tie, k, d, room, x, y, now);
      }
    }
  }

  // The session that a run added for class k on date d.
  lemma NewbornOf(
    c: Campus, tie: Ties, ss: seq<Session>, after: seq<Session>, term: Id, from: Date, until: Date, now: Instant,
    k: Id, d: Date) returns (i: Id)
    requires Linked(c) && GrownFrom(c, tie, ss, after, term, from, until, now)
    requires k < |c.schedules| && Materialized(after, k, d) && !Materialized(ss, k, d)
    ensures |ss| <= i < |after| && from <= d < until && Due(c, term, k, d) && after[i] == Newborn(c, tie, k, d, now)
  {
    hide Due;
    hide Newborn;
    i :| 0 <= i < |after| && IsOccurrence(after[i], k, d);
    assert forall j :: 0 <= j < |ss| ==> (IsOccurrence(after[j], k, d) <==> IsOccurrence(ss[j], k, d));
    assert BornIn(c, tie, ss, after[i], term, from, until, now);
  }

  // A room that is free for a foretold slot gets no newborn that holds it during the slot.
  lemma FreeSlotGetsNoNewborn(
    c: Campus, tie: Ties, ss: seq<Session>, term: Id, start: Date, days: int, now: Instant,
    room: Id, d: Date, x: Instant, y: Instant, i: nat)
    requires Linked(c) && SessionsLinked(c, ss) && WholeMoves(c) && term < |c.terms| && WithinDate(x, y, d)
    requires Foretold(c, tie, term, room, d, x, y) && RoomIsFree(c, ss, room, x, y, None, None)
    requires i < |MaterializedTerm(c, tie, ss, term, start, days, now).sessions|
    ensures
      var s := MaterializedTerm(c, tie, ss, term, start, days, now).sessions[i];
      s.schedule < |c.schedules| && !SessionIn(c, s, room, x, y)
  {
    hide MaterializedTerm;
    OracleForeseesMaterialization(c, tie, ss, term, start, days, now, room, d, x, y);
    var after := MaterializedTerm(c, tie, ss, term, start, days, now).sessions;
    assert !SessionOccupies(c, after, room, x, y, None);
  }

  /* ... and no slot that is not foretold */

  // Every class has a session on date d, a cancelled one, but for k, whose session is of the day before.
  function OthersCancelled(c: Campus, k: Id, d: Date): (ss: seq<Session>)
    ensures |ss| == |c.schedules|
    ensures forall j :: 0 <= j < |ss| ==> ss[j] == Unshifted(c, j, if j == k then d - 1 else d).(status := Cancelled)
  {
    seq(|c.schedules|, j requires 0 <= j < |c.schedules| =>
      Unshifted(c, j, if j == k then d - 1 else d).(status := Cancelled))
  }

  lemma OnlyOneIsMissing(c: Campus, k: Id, d: Date)
    requires Linked(c) && k < |c.schedules|
    ensures
      var ss := OthersCancelled(c, k, d);
      && SessionsLinked(c, ss) && !Materialized(ss, k, d)
      && (forall j: Id :: j < |c.schedules| && j != k ==> Materialized(ss, j, d))
      && forall j: Id :: j < |ss| ==> !Occupying(ss[j])
  {
    var ss := OthersCancelled(c, k, d);
    forall j: Id | j < |c.schedules| && j != k ensures Materialized(ss, j, d) {
      assert IsOccurrence(ss[j], j, d);
    }
  }

  // Then the room reads free exactly when the oracle does not expect k there.
  lemma FreeBefore(c: Campus, term: Id, k: Id, room: Id, d: Date, x: Instant, y: Instant)
    requires Linked(c) && term < |c.terms| && WithinDate(x, y, d)
    requires DueInTerm(c, term, k, d) && HasSlot(c, k, d, room, x, y) && !Taken(c, room, x, y)
    ensures
      var ss := OthersCancelled(c, k, d);
      && SessionsLinked(c, ss)
      && (RoomIsFree(c, ss, room, x, y, None, None) <==> !Expected(c, k, d))
  {
    hide ShiftFor;
    hide KeepsRoom;
    hide OthersCancelled;
    DateOfWithin(x, y, d);
    var ss := OthersCancelled(c, k, d);
    OnlyOneIsMissing(c, k, d);
    assert ReservesOwnRoom(c, ss, k, d) <==> Expected(c, k, d);
    assert forall j: Id :: j < |c.schedules| && ReservesOwnRoom(c, ss, j, d) ==> j == k;
  }

  // And after one day's run, exactly when the generator has not put k there.
  lemma FreeAfter(c: Campus, tie: Ties, term: Id, k: Id, room: Id, d: Date, x: Instant, y: Instant)
    requires Linked(c) && WholeMoves(c) && term < |c.terms| && WithinDate(x, y, d)
    requires DueInTerm(c, term, k, d) && HasSlot(c, k, d, room, x, y) && !Taken(c, room, x, y)
    requires SessionsLinked(c, OthersCancelled(c, k, d))
    ensures
      var after := MaterializedTerm(c, tie, OthersCancelled(c, k, d), term, d, 1, 0).sessions;
      && SessionsLinked(c, after)
      && (RoomIsFree(c, after, room, x, y, None, None) <==> !KeepsRoom(c, k, BirthShift(c, tie, k, d)))
  {
    hide BirthShift;
    hide KeepsRoom;
    hide Newborn;
    hide OthersCancelled;
    hide SkippedOn;
    var ss := OthersCancelled(c, k, d);
    OnlyOneIsMissing(c, k, d);
    WalkGrows(c, tie, ss, term, d, d + 1, 0);
    var after := MaterializedTerm(c, tie, ss, term, d, 1, 0).sessions;
    GrownStaysLinked(c, tie, ss, after, term, d, d + 1, 0);
    var i := NewbornOf(c, tie, ss, after, term, d, d + 1, 0, k, d);
    NewbornInSlot(c, tie, k, d, room, x, y, 0);
    OnlyNewbornMatters(c, tie, ss, after, term, k, room, d, x, y, i);
  }

  lemma OnlyNewbornMatters(
    c: Campus, tie: Ties, ss: seq<Session>, after: seq<Session>, term: Id, k: Id, room: Id, d: Date,
    x: Instant, y: Instant, i: Id)
    requires Linked(c) && SessionsLinked(c, after) && GrownFrom(c, tie, ss, after, term, d, d + 1, 0)
    requires WithinDate(x, y, d) && !Taken(c, room, x, y) && k < |c.schedules|
    requires i < |after| && after[i] == Newborn(c, tie, k, d, 0)
    requires forall j: Id :: j < |c.schedules| && j != k ==> Materialized(ss, j, d)
    requires forall j: Id :: j < |ss| ==> !Occupying(ss[j])
    ensures RoomIsFree(c, after, room, x, y, None, None) <==> !SessionIn(c, after[i], room, x, y)
  {
    hide Newborn;
    hide Due;
    DateOfWithin(x, y, d);
    forall j: Id | j < |c.schedules| ensures Materialized(after, j, d) {
      if j != k {
        StaysMaterialized(ss, after, j, d);
      } else {
        assert IsOccurrence(after[i], k, d);
      }
    }
    assert forall j :: 0 <= j < |ss| ==> after[j] == ss[j];
    forall j | |ss| <= j < |after| ensures after[j] == after[i] {
      assert BornIn(c, tie, ss, after[j], term, d, d + 1, 0);
      DueIsKnown(c, term, after[j].schedule, d);
    }
  }

  // Whatever sessions there are and whichever window is run, the run is invisible.
  ghost predicate AlwaysUnseen(c: Campus, tie: Ties, term: Id, room: Id, x: Instant, y: Instant)
    requires Linked(c) && term < |c.terms|
  {
    forall ss: seq<Session>, start: Date, days: int, now: Instant ::
      SessionsLinked(c, ss) ==> Unseen(c, tie, ss, term, start, days, now, room, x, y)
  }

  // That is so exactly for the slots that are foretold.
  lemma UnseenIffForetold(c: Campus, tie: Ties, term: Id, room: Id, d: Date, x: Instant, y: Instant)
    requires Linked(c) && WholeMoves(c) && term < |c.terms| && WithinDate(x, y, d)
    ensures AlwaysUnseen(c, tie, term, room, x, y) <==> Foretold(c, tie, term, room, d, x, y)
  {
    hide Unseen;
    hide RoomIsFree;
    if Foretold(c, tie, term, room, d, x, y) {
      hide Foretold;
      forall ss: seq<Session>, start: Date, days: int, now: Instant | SessionsLinked(c, ss)
        ensures Unseen(c, tie, ss, term, start, days, now, room, x, y)
      {
        OracleForeseesMaterialization(c, tie, ss, term, start, days, now, room, d, x, y);
      }
    } else {
      var k: Id :| DueInTerm(c, term, k, d) && HasSlot(c, k, d, room, x, y) && !Agree(c, tie, k, d);
      DisagreementIsSeen(c, tie, term, k, room, d, x, y);
    }
  }

  lemma DisagreementIsSeen(c: Campus, tie: Ties, term: Id, k: Id, room: Id, d: Date, x: Instant, y: Instant)
    requires Linked(c) && WholeMoves(c) && term < |c.terms| && WithinDate(x, y, d)
    requires DueInTerm(c, term, k, d) && HasSlot(c, k, d, room, x, y) && !Taken(c, room, x, y)
    requires !Agree(c, tie, k, d)
    ensures SessionsLinked(c, OthersCancelled(c, k, d))
    ensures !Unseen(c, tie, OthersCancelled(c, k, d), term, d, 1, 0, room, x, y)
  {
    hide RoomIsFree;
    hide BirthShift;
    hide ShiftFor;
    hide KeepsRoom;
    hide OthersCancelled;
    hide MaterializedTerm;
    FreeBefore(c, term, k, room, d, x, y);
    FreeAfter(c, tie, term, k, room, d, x, y);
  }

  // A run never changes whether the room reads free for the slot, however the generator's query
  // orders equal decisions, exactly when the slot is booked or reserved anyhow, or for each class
  // that is due in it the latest decisions are of one mind about its room, and a class that keeps
  // its room is of a running term.
  lemma ForesightIsRightIff(c: Campus, term: Id, room: Id, d: Date, x: Instant, y: Instant)
    requires Linked(c) && WholeMoves(c) && term < |c.terms| && WithinDate(x, y, d)
    ensures (forall tie: Ties :: AlwaysUnseen(c, tie, term, room, x, y)) <==>
      || Taken(c, room, x, y)
      || forall k: Id :: DueInTerm(c, term, k, d) && HasSlot(c, k, d, room, x, y) ==> LatestAgree(c, k, d)
  {
    hide AlwaysUnseen;
    hide Taken;
    hide Due;
    hide Agree;
    hide LatestAgree;
    forall tie: Ties ensures AlwaysUnseen(c, tie, term, room, x, y) <==> Foretold(c, tie, term, room, d, x, y) {
      UnseenIffForetold(c, tie, term, room, d, x, y);
    }
    forall k: Id | k < |c.schedules| ensures (forall tie: Ties :: Agree(c, tie, k, d)) <==> LatestAgree(c, k, d) {
      AgreeIff(c, k, d);
    }
    forall k: Id | DueInTerm(c, term, k, d) && HasSlot(c, k, d, room, x, y) && !LatestAgree(c, k, d)
      ensures Taken(c, room, x, y) || exists tie: Ties :: !Foretold(c, tie, term, room, d, x, y)
    {
      var tie: Ties :| !Agree(c, tie, k, d);
      assert Taken(c, room, x, y) || !Foretold(c, tie, term, room, d, x, y);
    }
  }

  /* The whole term at once */

  // Every slot of date d that meets class k's hours is booked or reserved in its room.
  ghost predicate Covered(c: Campus, k: Id, d: Date)
    requires Linked(c) && k < |c.schedules|
  {
    forall x, y :: x < y && WithinDate(x, y, d) && HasSlot(c, k, d, c.schedules[k].room, x, y) ==>
      Taken(c, c.schedules[k].room, x, y)
  }

  predicate TakenAt(c: Campus, room: Id, t: Instant)
    requires Linked(c)
  {
    Taken(c, room, t, t + 1)
  }

  // For a class that starts before it ends: every moment of its hours is.
  lemma CoveredMomentByMoment(c: Campus, k: Id, d: Date)
    requires Linked(c) && k < |c.schedules| && c.schedules[k].start < c.schedules[k].end
    ensures Covered(c, k, d) <==>
      forall t: Instant :: At(d, c.schedules[k].start) <= t < At(d, c.schedules[k].end) ==>
        TakenAt(c, c.schedules[k].room, t)
  {
    hide Reserves;
    var room, s, e := c.schedules[k].room, At(d, c.schedules[k].start), At(d, c.schedules[k].end);
    if Covered(c, k, d) {
      forall t: Instant | s <= t < e ensures TakenAt(c, room, t) {
        assert WithinDate(t, t + 1, d) && HasSlot(c, k, d, room, t, t + 1);
      }
    }
    if forall t: Instant :: s <= t < e ==> TakenAt(c, room, t) {
      forall x, y | x < y && WithinDate(x, y, d) && HasSlot(c, k, d, room, x, y) ensures Taken(c, room, x, y) {
        var t := if x < s then s else x;
        DateOfWithin(x, y, d);
        DateOfWithin(t, t + 1, d);
        assert TakenAt(c, room, t);
      }
    }
  }

  // No run in the term ever changes how free a room reads for a slot inside one date, exactly
  // when for each class due on each date the latest decisions agree as above, or its hours in
  // its room are booked or reserved throughout.
  lemma TermIsForeseenIff(c: Campus, term: Id)
    requires Linked(c) && WholeMoves(c) && term < |c.terms|
    ensures
      (forall room: Id, d: Date, x: Instant, y: Instant, tie: Ties ::
         x < y && WithinDate(x, y, d) ==> AlwaysUnseen(c, tie, term, room, x, y))
      <==>
      forall k: Id, d: Date :: DueInTerm(c, term, k, d) ==> LatestAgree(c, k, d) || Covered(c, k, d)
  {
    hide AlwaysUnseen;
    hide Taken;
    hide LatestAgree;
    hide Matches;
    hide SkippedOn;
    hide WholeMoves;
    if forall k: Id, d: Date :: DueInTerm(c, term, k, d) ==> LatestAgree(c, k, d) || Covered(c, k, d) {
      forall room: Id, d: Date, x: Instant, y: Instant, tie: Ties | x < y && WithinDate(x, y, d)
        ensures AlwaysUnseen(c, tie, term, room, x, y)
      {
        ForesightIsRightIff(c, term, room, d, x, y);
      }
    } else {
      var k: Id, d: Date :| DueInTerm(c, term, k, d) && !LatestAgree(c, k, d) && !Covered(c, k, d);
      var x, y :| x < y && WithinDate(x, y, d) && HasSlot(c, k, d, c.schedules[k].room, x, y)
        && !Taken(c, c.schedules[k].room, x, y);
      ForesightIsRightIff(c, term, c.schedules[k].room, d, x, y);
    }
  }
}
