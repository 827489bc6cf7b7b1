/** What an accepted timetable edit leaves behind, and exactly when it creates no clash. */
module EditSafety {
  import opened Availability
  import opened Calendar
  import opened Clashes
  import opened Excusal
  import opened ScheduleOps
  import opened Tables
  import opened Wrappers

  /* What does not depend on the edited row or on the bookings */

  // c' is c but for the row of class k, which keeps its term and modality, and for the bookings.
  predicate SameButRow(c: Campus, c': Campus, k: Id) {
    && k < |c.schedules| && |c'.schedules| == |c.schedules|
    && c' == c.(schedules := c'.schedules, bookings := c'.bookings)
    && (forall j :: 0 <= j < |c.schedules| && j != k ==> c'.schedules[j] == c.schedules[j])
    && c'.schedules[k].term == c.schedules[k].term && c'.schedules[k].modality == c.schedules[k].modality
    && c'.schedules[k].room < |c.rooms|
  }

  lemma StaysLinked(c: Campus, c': Campus, k: Id)
    requires Linked(c) && SameButRow(c, c', k)
    ensures Linked(c')
  {
    forall n | 0 <= n < |c'.items| ensures ItemLinked(c', c'.items[n]) {
      assert ItemLinked(c, c.items[n]);
    }
  }

  lemma {:induction false} SameLatestShift(c: Campus, c': Campus, k: Id, j: Id, d: Date, n: nat)
    requires Linked(c) && Linked(c') && SameButRow(c, c', k) && n <= |c.items|
    ensures LatestShift(c', j, d, n) == LatestShift(c, j, d, n)
  {
    if n > 0 {
      SameLatestShift(c, c', k, j, d, n - 1);
    }
  }

  // Each row of tt is of the class and date of the row of ss.
  predicate SameKeys(ss: seq<Session>, tt: seq<Session>) {
    |tt| == |ss| && forall i :: 0 <= i < |ss| ==> tt[i].schedule == ss[i].schedule && tt[i].date == ss[i].date
  }

  // A class other than k keeps its own room busy after the edit exactly when it did before.
  lemma OtherClassesStay(c: Campus, c': Campus, ss: seq<Session>, tt: seq<Session>, k: Id, j: Id, d: Date)
    requires Linked(c) && Linked(c') && SameButRow(c, c', k) && j != k && j < |c.schedules|
    requires SameKeys(ss, tt)
    ensures ReservesOwnRoom(c', tt, j, d) <==> ReservesOwnRoom(c, ss, j, d)
  {
    SameLatestShift(c, c', k, j, d, |c.items|);
    assert Materialized(tt, j, d) <==> Materialized(ss, j, d) by {
      forall i | 0 <= i < |ss| ensures IsOccurrence(tt[i], j, d) <==> IsOccurrence(ss[i], j, d) {
      }
    }
  }

  lemma OthersOccupyAsBefore(
    c: Campus, c': Campus, ss: seq<Session>, tt: seq<Session>, k: Id, room: Id, x: Instant, y: Instant)
    requires Linked(c) && Linked(c') && SameButRow(c, c', k) && SameKeys(ss, tt)
    ensures ScheduleOccupies(c', tt, room, x, y, Some(k)) <==> ScheduleOccupies(c, ss, room, x, y, Some(k))
    ensures ReservationOccupies(c', room, x, y, Some(k)) <==> ReservationOccupies(c, room, x, y, Some(k))
  {
    hide ReservesOwnRoom;
    var d := DateOf(x);
    forall j: Id | j != k && j < |c.schedules| ensures ReservesOwnRoom(c', tt, j, d) <==> ReservesOwnRoom(c, ss, j, d) {
      OtherClassesStay(c, c', ss, tt, k, j, d);
    }
    SameReservations(c, c', k, room, x, y);
  }

  lemma SameReservations(c: Campus, c': Campus, k: Id, room: Id, x: Instant, y: Instant)
    requires Linked(c) && Linked(c') && SameButRow(c, c', k)
    ensures ReservationOccupies(c', room, x, y, Some(k)) <==> ReservationOccupies(c, room, x, y, Some(k))
  {
    var d := DateOf(x);
    forall i: Id | i < |c.items| && c.items[i].schedule != k
      ensures Reserves(c', i, room, d) <==> Reserves(c, i, room, d)
      ensures SlotStart(c', c.items[i]) == SlotStart(c, c.items[i]) && SlotEnd(c', c.items[i]) == SlotEnd(c, c.items[i])
    {
      assert ItemLinked(c, c.items[i]) && ItemLinked(c', c'.items[i]);
    }
  }

  // Whether a session holds a room is no matter of the edited row's place and time.
  lemma SameHolding(c: Campus, c': Campus, ss: seq<Session>, k: Id, i: Id)
    requires SameButRow(c, c', k) && c'.bookings == c.bookings && SessionsLinked(c, ss) && SessionsLinked(c', ss)
    ensures Unclashed(c', ss, i) <==> Unclashed(c, ss, i)
  {
    hide BookingOccupies;
    forall p: Id, q: Id ensures Clash(c', ss, p, q) <==> Clash(c, ss, p, q) {
    }
    assert BookingClash(c', ss, i) <==> BookingClash(c, ss, i) by {
      if i < |ss| {
        SameBookings(c, c', ss[i].room, ss[i].start, ss[i].end);
      }
    }
  }

  lemma SameBookings(c: Campus, c': Campus, room: Id, x: Instant, y: Instant)
    requires c'.bookings == c.bookings
    ensures BookingOccupies(c', room, x, y) <==> BookingOccupies(c, room, x, y)
  {
  }

  /* What a checked edit guarantees */

  // After an edit that passed the check, nothing else is in the room on any remaining,
  // unexcused date: no session, no booking, no other class without a session, no other class's
  // reservation.
  lemma CheckedEditIsClear(c: Campus, ss: seq<Session>, k: Id, row: Schedule, today: Date, d: Date)
    requires Linked(c) && SessionsLinked(c, ss) && UniqueOccurrences(ss)
    requires k < |c.schedules| && row.room < |c.rooms|
    requires row.modality == c.schedules[k].modality && row.term == c.schedules[k].term
    requires today <= d && ClearOn(c, ss, k, row.room, row.start, row.end, d)
    requires !Excused(c, c.schedules[k].term, d, BuildingOf(c, row.room))
    requires forall i :: 0 <= i < |ss| && IsOccurrence(ss[i], k, d) ==> ss[i].status.Scheduled?
    ensures
      var c', tt := c.(schedules := c.schedules[k := row]), Propagated(ss, k, row, today);
      var x, y := At(d, row.start), At(d, row.end);
      && Linked(c') && SessionsLinked(c', tt)
      && (forall j: Id :: j < |ss| && !IsOccurrence(ss[j], k, d) ==> !SessionIn(c', tt[j], row.room, x, y))
      && !BookingOccupies(c', row.room, x, y)
      && !ScheduleOccupies(c', tt, row.room, x, y, Some(k))
      && !ReservationOccupies(c', row.room, x, y, Some(k))
  {
    var c', tt := c.(schedules := c.schedules[k := row]), Propagated(ss, k, row, today);
    StaysLinked(c, c', k);
    OthersOccupyAsBefore(c, c', ss, tt, k, row.room, At(d, row.start), At(d, row.end));
    OtherSessionsAreOut(c, ss, k, row, today, d);
  }

  lemma OtherSessionsAreOut(c: Campus, ss: seq<Session>, k: Id, row: Schedule, today: Date, d: Date)
    requires Linked(c) && SessionsLinked(c, ss) && UniqueOccurrences(ss)
    requires k < |c.schedules| && row.room < |c.rooms|
    requires row.modality == c.schedules[k].modality && row.term == c.schedules[k].term
    requires today <= d && ClearOn(c, ss, k, row.room, row.start, row.end, d)
    requires !Excused(c, c.schedules[k].term, d, BuildingOf(c, row.room))
    requires forall i :: 0 <= i < |ss| && IsOccurrence(ss[i], k, d) ==> ss[i].status.Scheduled?
    ensures
      var c', tt := c.(schedules := c.schedules[k := row]), Propagated(ss, k, row, today);
      var x, y := At(d, row.start), At(d, row.end);
      && SessionsLinked(c', tt)
      && (forall j: Id :: j < |ss| && !IsOccurrence(ss[j], k, d) ==> !SessionIn(c', tt[j], row.room, x, y))
      && !BookingOccupies(c', row.room, x, y)
      && !ScheduleOccupies(c, ss, row.room, x, y, Some(k)) && !ReservationOccupies(c, row.room, x, y, Some(k))
  {
    hide ScheduleOccupies;
    hide ReservationOccupies;
    var own := OwnOn(ss, k, d);
    assert RoomIsFree(c, ss, row.room, At(d, row.start), At(d, row.end), own, Some(k));
    forall j: Id | j < |ss| && !IsOccurrence(ss[j], k, d)
      ensures own != Some(j) && !SessionIn(c, ss[j], row.room, At(d, row.start), At(d, row.end))
    {
    }
  }

  // Hence a moved session on an unexcused date is in no clash.
  lemma CheckedEditLeavesNoClash(c: Campus, ss: seq<Session>, k: Id, e: Edit, today: Date, i: Id)
    requires Linked(c) && SessionsLinked(c, ss) && UniqueOccurrences(ss) && k < |c.schedules|
    requires Edited(c.schedules[k], e).room < |c.rooms|
    requires i < |ss| && FutureScheduled(ss[i], k, today)
    requires !Excused(c, c.schedules[k].term, ss[i].date, BuildingOf(c, Edited(c.schedules[k], e).room))
    requires forall d :: RemainingDate(c, ss, k, today, d) ==>
      ClearOn(c, ss, k, Edited(c.schedules[k], e).room, Edited(c.schedules[k], e).start, Edited(c.schedules[k], e).end, d)
    ensures
      var row := Edited(c.schedules[k], e);
      var c', tt := c.(schedules := c.schedules[k := row]), Propagated(ss, k, row, today);
      SessionsLinked(c', tt) && Unclashed(c', tt, i)
  {
    hide RoomIsFree;
    hide Excused;
    hide BookingOccupies;
    hide ScheduleOccupies;
    hide ReservationOccupies;
    hide ClearOn;
    var row, d := Edited(c.schedules[k], e), ss[i].date;
    assert RemainingDate(c, ss, k, today, d);
    CheckedEditIsClear(c, ss, k, row, today, d);
    assert Propagated(ss, k, row, today)[i] == Follow(ss[i], row);
    forall j: Id | j < |ss| && j != i ensures !IsOccurrence(ss[j], k, d) {
    }
  }

  /* Exactly when an accepted edit creates no clash */

  // The check does not look at the date: nothing moved, the class is Online, or the date is excused.
  predicate Unchecked(c: Campus, k: Id, e: Edit, d: Date)
    requires Linked(c) && k < |c.schedules| && Edited(c.schedules[k], e).room < |c.rooms|
  {
    || !Moves(c.schedules[k], e) || c.schedules[k].modality.Online?
    || Excused(c, c.schedules[k].term, d, BuildingOf(c, Edited(c.schedules[k], e).room))
  }

  // The session's new slot lies inside the one it leaves, in the same room.
  predicate StaysInside(s: Session, row: Schedule) {
    s.room == row.room && s.start <= At(s.date, row.start) && At(s.date, row.end) <= s.end
  }

  // Every session that is put onto the row unchecked, and holds a room, stays inside its slot.
  predicate UncheckedStayInside(c: Campus, ss: seq<Session>, k: Id, e: Edit, today: Date)
    requires Linked(c) && SessionsLinked(c, ss) && k < |c.schedules| && Edited(c.schedules[k], e).room < |c.rooms|
  {
    forall i :: 0 <= i < |ss| && FutureScheduled(ss[i], k, today) && HoldsRoom(c, ss[i]) ==>
      Unchecked(c, k, e, ss[i].date) ==> StaysInside(ss[i], Edited(c.schedules[k], e))
  }

  // The edit, if accepted under the campus's bookings, creates no clash.
  ghost predicate CreatesNoClash(c: Campus, ss: seq<Session>, k: Id, e: Edit, today: Date)
    requires Linked(c) && SessionsLinked(c, ss) && k < |c.schedules| && Edited(c.schedules[k], e).room < |c.rooms|
  {
    var tt := Propagated(ss, k, Edited(c.schedules[k], e), today);
    SessionsLinked(c, tt) && (Accepted(c, ss, k, e, today) ==> NoNewClash(c, ss, tt))
  }

  // It creates none whatever bookings the rooms have.
  ghost predicate SafeUnderAnyBookings(c: Campus, ss: seq<Session>, k: Id, e: Edit, today: Date)
    requires Linked(c) && SessionsLinked(c, ss) && k < |c.schedules| && Edited(c.schedules[k], e).room < |c.rooms|
  {
    forall bs: seq<Booking> :: CreatesNoClash(WithBookings(c, bs), ss, k, e, today)
  }

  function WithBookings(c: Campus, bs: seq<Booking>): (r: Campus)
    ensures Linked(c) ==> Linked(r)
  {
    var r := c.(bookings := bs);
    assert Linked(c) ==> forall n :: 0 <= n < |r.items| ==> ItemLinked(c, c.items[n]) && ItemLinked(r, r.items[n]);
    r
  }

  lemma MovedIsUnclashed(c: Campus, ss: seq<Session>, k: Id, e: Edit, today: Date, i: Id)
    requires Linked(c) && SessionsLinked(c, ss) && UniqueOccurrences(ss) && k < |c.schedules|
    requires Edited(c.schedules[k], e).room < |c.rooms| && Accepted(c, ss, k, e, today)
    requires i < |ss| && FutureScheduled(ss[i], k, today) && !Unchecked(c, k, e, ss[i].date)
    ensures
      var tt := Propagated(ss, k, Edited(c.schedules[k], e), today);
      SessionsLinked(c, tt) && Unclashed(c, tt, i)
  {
    hide ClearOn;
    hide RemainingDate;
    hide Unclashed;
    hide Excused;
    var row := Edited(c.schedules[k], e);
    var c' := c.(schedules := c.schedules[k := row]);
    CheckedEditLeavesNoClash(c, ss, k, e, today, i);
    SameHolding(c, c', Propagated(ss, k, row, today), k, i);
  }

  // A session that stays inside its slot, in an untouched or a shrunk one, gains no clash.
  predicate NoWider(s: Session, t: Session) {
    && t.room == s.room && s.start <= t.start && t.end <= s.end
    && t.status == s.status && t.released == s.released && t.declared == s.declared && t.schedule == s.schedule
  }

  lemma InsideEditCreatesNoClash(c: Campus, ss: seq<Session>, k: Id, e: Edit, today: Date)
    requires Linked(c) && SessionsLinked(c, ss) && UniqueOccurrences(ss) && k < |c.schedules|
    requires Edited(c.schedules[k], e).room < |c.rooms| && UncheckedStayInside(c, ss, k, e, today)
    ensures CreatesNoClash(c, ss, k, e, today)
  {
    hide Unchecked;
    hide BookingOccupies;
    var row := Edited(c.schedules[k], e);
    var tt := Propagated(ss, k, row, today);
    if Accepted(c, ss, k, e, today) {
      hide Accepted;
      forall i: Id | i < |ss| && HoldsRoom(c, tt[i]) ensures NoWider(ss[i], tt[i]) || Unclashed(c, tt, i) {
        if FutureScheduled(ss[i], k, today) && !Unchecked(c, k, e, ss[i].date) {
          MovedIsUnclashed(c, ss, k, e, today, i);
        }
      }
      NarrowedRowsGainNothing(c, ss, tt);
    }
  }

  lemma NarrowedRowsGainNothing(c: Campus, ss: seq<Session>, tt: seq<Session>)
    requires SessionsLinked(c, ss) && SessionsLinked(c, tt) && |ss| == |tt|
    requires forall i: Id :: i < |ss| && HoldsRoom(c, tt[i]) ==> NoWider(ss[i], tt[i]) || Unclashed(c, tt, i)
    ensures NoNewClash(c, ss, tt)
  {
    forall p: Id, q: Id | Clash(c, tt, p, q) ensures Clash(c, ss, p, q) {
      assert NoWider(ss[p], tt[p]) && NoWider(ss[q], tt[q]);
    }
    forall p: Id | BookingClash(c, tt, p) ensures BookingClash(c, ss, p) {
      assert NoWider(ss[p], tt[p]);
    }
  }

  /* A booking that tells when a session does not stay inside */

  // It meets the new slot of s, by a microsecond more at most, and not the old one.
  function Witness(s: Session, row: Schedule): Booking {
    var x, y := At(s.date, row.start), At(s.date, row.end);
    if s.room == row.room && s.end < y then
      Booking(row.room, y - 1, if x + 1 < y then y else x + 1, true)
    else
      Booking(row.room, if x < y - 1 then x else y - 1, x + 1, true)
  }

  lemma WitnessTells(s: Session, row: Schedule)
    requires !StaysInside(s, row)
    ensures
      var b, x, y := Witness(s, row), At(s.date, row.start), At(s.date, row.end);
      && b.start < b.end && Overlaps(b.start, b.end, x, y)
      && !(b.room == s.room && Overlaps(b.start, b.end, s.start, s.end))
  {
  }

  // It touches no slot of the row on another date.
  lemma WitnessIsLocal(s: Session, row: Schedule, d: Date)
    requires d != s.date
    ensures
      var b := Witness(s, row);
      !Overlaps(b.start, b.end, At(d, row.start), At(d, row.end))
  {
  }

  // One more booking apart from the slot leaves the room as free.
  lemma OneBookingApart(
    c: Campus, ss: seq<Session>, b: Booking, k: Id, room: Id, x: Instant, y: Instant, own: Option<Id>)
    requires Linked(c) && SessionsLinked(c, ss) && k < |c.schedules| && SessionsLinked(WithBookings(c, [b]), ss)
    requires RoomIsFree(c, ss, room, x, y, own, Some(k)) && !Overlaps(b.start, b.end, x, y)
    ensures RoomIsFree(WithBookings(c, [b]), ss, room, x, y, own, Some(k))
  {
    hide ScheduleOccupies;
    hide ReservationOccupies;
    var c' := WithBookings(c, [b]);
    OthersOccupyAsBefore(c, c', ss, ss, k, room, x, y);
    assert forall i :: 0 <= i < |ss| ==> (SessionIn(c', ss[i], room, x, y) <==> SessionIn(c, ss[i], room, x, y));
  }

  lemma ClearStaysClear(
    c: Campus, ss: seq<Session>, k: Id, row: Schedule, s: Session, d: Date)
    requires Linked(c) && SessionsLinked(c, ss) && k < |c.schedules| && row.room < |c.rooms|
    requires ClearOn(c, ss, k, row.room, row.start, row.end, d)
    requires d == s.date ==> Excused(c, c.schedules[k].term, d, BuildingOf(c, row.room))
    ensures
      var c' := WithBookings(c, [Witness(s, row)]);
      SessionsLinked(c', ss) && ClearOn(c', ss, k, row.room, row.start, row.end, d)
  {
    hide RoomIsFree;
    hide Witness;
    var b := Witness(s, row);
    assert Excused(WithBookings(c, [b]), c.schedules[k].term, d, BuildingOf(c, row.room))
      <==> Excused(c, c.schedules[k].term, d, BuildingOf(c, row.room));
    if d != s.date && RoomIsFree(c, ss, row.room, At(d, row.start), At(d, row.end), OwnOn(ss, k, d), Some(k)) {
      WitnessIsLocal(s, row, d);
      OneBookingApart(c, ss, b, k, row.room, At(d, row.start), At(d, row.end), OwnOn(ss, k, d));
    }
  }

  lemma StillAccepted(c: Campus, ss: seq<Session>, k: Id, e: Edit, today: Date, s: Session)
    requires Linked(c) && SessionsLinked(c, ss) && k < |c.schedules| && Edited(c.schedules[k], e).room < |c.rooms|
    requires Accepted(c, ss, k, e, today) && Unchecked(c, k, e, s.date)
    ensures
      var c' := WithBookings(c, [Witness(s, Edited(c.schedules[k], e))]);
      SessionsLinked(c', ss) && Accepted(c', ss, k, e, today)
  {
    hide ClearOn;
    hide Witness;
    hide Excused;
    var row := Edited(c.schedules[k], e);
    var c' := WithBookings(c, [Witness(s, row)]);
    if Moves(c.schedules[k], e) && !row.modality.Online? {
      forall d: Date | RemainingDate(c', ss, k, today, d) ensures ClearOn(c', ss, k, row.room, row.start, row.end, d) {
        assert RemainingDate(c, ss, k, today, d);
        ClearStaysClear(c, ss, k, row, s, d);
      }
    }
  }

  lemma EscapeIsUnsafe(c: Campus, ss: seq<Session>, k: Id, e: Edit, today: Date, i: Id)
    requires Linked(c) && SessionsLinked(c, ss) && k < |c.schedules| && Edited(c.schedules[k], e).room < |c.rooms|
    requires Accepted(c, ss, k, e, today) && i < |ss| && FutureScheduled(ss[i], k, today) && HoldsRoom(c, ss[i])
    requires Unchecked(c, k, e, ss[i].date) && !StaysInside(ss[i], Edited(c.schedules[k], e))
    ensures !SafeUnderAnyBookings(c, ss, k, e, today)
  {
    hide Accepted;
    hide Unchecked;
    hide Witness;
    var row := Edited(c.schedules[k], e);
    var b := Witness(ss[i], row);
    var c', tt := WithBookings(c, [b]), Propagated(ss, k, row, today);
    StillAccepted(c, ss, k, e, today, ss[i]);
    WitnessTells(ss[i], row);
    WitnessRoom(ss[i], row);
    assert b in c'.bookings && forall x :: x in c'.bookings ==> x == b;
    assert BookingClash(c', tt, i) && !BookingClash(c', ss, i);
    assert !CreatesNoClash(c', ss, k, e, today);
  }

  lemma WitnessRoom(s: Session, row: Schedule)
    ensures Witness(s, row).room == row.room && Witness(s, row).active
  {
  }

  // An edit that is accepted is safe, whatever the rooms are booked for, exactly when no session
  // it moves unchecked leaves the slot it held. Nothing is checked when neither room nor time
  // changes, when the class is Online, or on an excused date.
  lemma AcceptedEditIsSafeIff(c: Campus, ss: seq<Session>, k: Id, e: Edit, today: Date)
    requires Linked(c) && SessionsLinked(c, ss) && UniqueOccurrences(ss) && k < |c.schedules|
    requires Edited(c.schedules[k], e).room < |c.rooms| && Accepted(c, ss, k, e, today)
    ensures SafeUnderAnyBookings(c, ss, k, e, today) <==> UncheckedStayInside(c, ss, k, e, today)
  {
    hide Accepted;
    hide Unchecked;
    hide CreatesNoClash;
    hide StaysInside;
    if UncheckedStayInside(c, ss, k, e, today) {
      forall bs: seq<Booking> ensures CreatesNoClash(WithBookings(c, bs), ss, k, e, today) {
        SameUnchecked(c, bs, ss, k, e, today);
        InsideEditCreatesNoClash(WithBookings(c, bs), ss, k, e, today);
      }
    } else {
      var i :| 0 <= i < |ss| && FutureScheduled(ss[i], k, today) && HoldsRoom(c, ss[i])
        && Unchecked(c, k, e, ss[i].date) && !StaysInside(ss[i], Edited(c.schedules[k], e));
      EscapeIsUnsafe(c, ss, k, e, today, i);
    }
  }

  lemma SameUnchecked(c: Campus, bs: seq<Booking>, ss: seq<Session>, k: Id, e: Edit, today: Date)
    requires Linked(c) && SessionsLinked(c, ss) && k < |c.schedules| && Edited(c.schedules[k], e).room < |c.rooms|
    requires UncheckedStayInside(c, ss, k, e, today)
    ensures SessionsLinked(WithBookings(c, bs), ss) && UncheckedStayInside(WithBookings(c, bs), ss, k, e, today)
  {
    hide StaysInside;
    var c' := WithBookings(c, bs);
    forall i | 0 <= i < |ss|
      ensures HoldsRoom(c', ss[i]) <==> HoldsRoom(c, ss[i])
      ensures Unchecked(c', k, e, ss[i].date) <==> Unchecked(c, k, e, ss[i].date)
    {
    }
  }

  // In particular an edit of neither room nor time is harmless to sessions on their timetable row.
  lemma UnmovedEditIsHarmless(c: Campus, ss: seq<Session>, k: Id, e: Edit, today: Date)
    requires SessionsLinked(c, ss) && k < |c.schedules| && !Moves(c.schedules[k], e)
    requires forall i :: 0 <= i < |ss| && FutureScheduled(ss[i], k, today) ==> OnTimetable(ss[i], c.schedules[k])
    ensures
      var tt := Propagated(ss, k, Edited(c.schedules[k], e), today);
      SessionsLinked(c, tt) && NoNewClash(c, ss, tt)
  {
    hide NoNewClash;
    hide HoldsRoom;
    hide Unclashed;
    NarrowedRowsGainNothing(c, ss, Propagated(ss, k, Edited(c.schedules[k], e), today));
  }

  predicate OnTimetable(s: Session, row: Schedule) {
    s.room == row.room && s.start == At(s.date, row.start) && s.end == At(s.date, row.end)
  }

  /* How it goes wrong */

  // A session shifted to a second room is put back into the first, which has been booked in the
  // meantime, by a change of instructor alone.
  lemma InstructorChangeCanClash() returns (c: Campus, ss: seq<Session>, e: Edit)
    ensures Linked(c) && SessionsLinked(c, ss) && |c.schedules| == 1 && !Moves(c.schedules[0], e)
    ensures |ss| == 1 && FutureScheduled(ss[0], 0, 0) && !BookingClash(c, ss, 0)
    ensures
      var tt := Propagated(ss, 0, Edited(c.schedules[0], e), 0);
      SessionsLinked(c, tt) && BookingClash(c, tt, 0)
  {
    var lecture := Schedule(0, "CS1", 0, 0, 0, 8 * HOUR, 9 * HOUR, F2F, ScheduleActive, 30);
    c := TwoRoomCampus(lecture, 0);
    ss := [ShiftedSession(1)];
    e := Edit(Some(7), None, None, None, None);
    assert c.bookings[0] in c.bookings;
    assert forall b :: b in c.bookings ==> b == c.bookings[0];
  }

  // A class Online on paper whose one session is held in person: the edit of its room is not
  // checked, and moves the session into a booked one.
  lemma OnlineEditCanClash() returns (c: Campus, ss: seq<Session>, e: Edit)
    ensures Linked(c) && SessionsLinked(c, ss) && |c.schedules| == 1 && Moves(c.schedules[0], e)
    ensures Edited(c.schedules[0], e).room < |c.rooms| && Accepted(c, ss, 0, e, 0)
    ensures |ss| == 1 && FutureScheduled(ss[0], 0, 0) && OnTimetable(ss[0], c.schedules[0]) && !BookingClash(c, ss, 0)
    ensures
      var tt := Propagated(ss, 0, Edited(c.schedules[0], e), 0);
      SessionsLinked(c, tt) && BookingClash(c, tt, 0)
  {
    var lecture := Schedule(0, "CS1", 0, 0, 0, 8 * HOUR, 9 * HOUR, Online, ScheduleActive, 30);
    c := TwoRoomCampus(lecture, 1);
    ss := [ShiftedSession(0)];
    e := Edit(None, Some(1), None, None, None);
    assert c.bookings[0] in c.bookings;
    assert forall b :: b in c.bookings ==> b == c.bookings[0];
  }

  // One Monday class from eight to nine, and a booking of one of two rooms at that time.
  function TwoRoomCampus(lecture: Schedule, booked: Id): Campus {
    Campus([Term(0, 6, TermActive)], [], [], [Floor(0, 1)], [Room(0, "R101", false), Room(0, "R102", false)],
           [lecture], [Booking(booked, At(0, 8 * HOUR), At(0, 9 * HOUR), true)], [], [])
  }

  // The class's first session, shifted to be held in person in the given room.
  function ShiftedSession(room: Id): Session {
    Session(0, 0, room, 0, At(0, 8 * HOUR), At(0, 9 * HOUR), Scheduled, None, None, NoCheckin, Some(F2F), Some(0),
            Some(9), None, "", None)
  }

  /* What an edit means */

  // The edit takes each field it gives and no other; giving the old values back undoes it.
  lemma EditTakesWhatItGives(s: Schedule, e: Edit)
    ensures
      var row := Edited(s, e);
      && (e.faculty.Some? ==> row.faculty == e.faculty.value) && (e.faculty.None? ==> row.faculty == s.faculty)
      && (e.room.Some? ==> row.room == e.room.value) && (e.room.None? ==> row.room == s.room)
      && (e.start.Some? ==> row.start == e.start.value) && (e.start.None? ==> row.start == s.start)
      && (e.end.Some? ==> row.end == e.end.value) && (e.end.None? ==> row.end == s.end)
      && (e.enrolled.Some? ==> row.enrolled == e.enrolled.value) && (e.enrolled.None? ==> row.enrolled == s.enrolled)
      && Edited(row, Edit(Some(s.faculty), Some(s.room), Some(s.start), Some(s.end), Some(s.enrolled))) == s
  {
  }

  // After the edit every future SCHEDULED session of the class sits on the new row, under its
  // instructor, and is otherwise what it was; every other session is what it was.
  lemma EditReachesFutureSessions(ss: seq<Session>, k: Id, row: Schedule, today: Date, i: Id)
    requires i < |ss|
    ensures
      var s, t := ss[i], Propagated(ss, k, row, today)[i];
      if s.schedule == k && s.status.Scheduled? && today <= s.date then
        && t.faculty == row.faculty && OnTimetable(t, row)
        && t == s.(faculty := t.faculty, room := t.room, start := t.start, end := t.end)
      else
        t == s
  {
  }

  // The class's own session of the date is never in its own way: a date is clear exactly when the
  // session is past changing, the date is excused, or nothing else has the room then.
  lemma ClearIff(c: Campus, ss: seq<Session>, k: Id, room: Id, start: TimeOfDay, end: TimeOfDay, d: Date)
    requires Linked(c) && SessionsLinked(c, ss) && UniqueOccurrences(ss) && k < |c.schedules| && room < |c.rooms|
    ensures
      var x, y := At(d, start), At(d, end);
      ClearOn(c, ss, k, room, start, end, d) <==>
        || (exists i: Id :: i < |ss| && IsOccurrence(ss[i], k, d) && !ss[i].status.Scheduled?)
        || Excused(c, c.schedules[k].term, d, BuildingOf(c, room))
        || (&& (forall j: Id :: j < |ss| && !IsOccurrence(ss[j], k, d) ==> !SessionIn(c, ss[j], room, x, y))
            && !BookingOccupies(c, room, x, y) && !ScheduleOccupies(c, ss, room, x, y, Some(k))
            && !ReservationOccupies(c, room, x, y, Some(k)))
  {
    hide ScheduleOccupies;
    hide ReservationOccupies;
    hide BookingOccupies;
    hide Excused;
    hide HoldsRoom;
    var own := OwnOn(ss, k, d);
    assert forall j: Id :: j < |ss| ==> (own == Some(j) <==> IsOccurrence(ss[j], k, d));
  }
}
