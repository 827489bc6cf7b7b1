/** Mid-term edits of one class: a room or time change, and dropping the class. */
module ScheduleOps {
  import opened Availability
  import opened Calendar
  import opened Excusal
  import opened Queries
  import opened Tables
  import opened Text
  import opened Wrappers

  /* Which sessions an edit may touch */

  predicate FutureScheduled(s: Session, k: Id, today: Date) {
    s.schedule == k && s.status.Scheduled? && today <= s.date
  }

  function FutureScheduledIds(ss: seq<Session>, k: Id, today: Date): (ids: seq<Id>)
    ensures forall i: Id :: i in ids <==> i < |ss| && FutureScheduled(ss[i], k, today)
    ensures forall j :: 0 <= j < |ids| ==> ids[j] < |ss|
  {
    var ids := IdsWhere(ss, (s: Session) => FutureScheduled(s, k, today));
    assert forall j :: 0 <= j < |ids| ==> ids[j] in ids;
    ids
  }

  /* The weekly dates still to come */

  // A date on which the class meets, or will meet, at or after today.
  predicate RemainingDate(c: Campus, ss: seq<Session>, k: Id, today: Date, d: Date)
    requires Linked(c) && k < |c.schedules|
  {
    || (today <= d <= c.terms[c.schedules[k].term].end && WeekdayOf(d) == c.schedules[k].dow)
    || (exists i :: 0 <= i < |ss| && FutureScheduled(ss[i], k, today) && ss[i].date == d)
  }

  // Every date from today to end that falls on dow, added to seed by stepping week by week.
  method AddWeeklyDates(seed: set<Date>, dow: Weekday, today: Date, end: Date) returns (dates: set<Date>)
    ensures forall d :: d in dates <==> d in seed || (today <= d <= end && WeekdayOf(d) == dow)
  {
    hide WeekdayOf;
    hide FirstOn;
    dates := seed;
    var date := FirstOn(today, dow);
    FirstOnIsFirst(today, dow);
    while date <= end
      invariant today <= date && WeekdayOf(date) == dow
      invariant forall d :: d in dates ==> d in seed || (today <= d <= end && WeekdayOf(d) == dow)
      invariant forall d :: d in seed || (today <= d < date && d <= end && WeekdayOf(d) == dow) ==> d in dates
      decreases end - date
    {
      dates := dates + {date};
      OncePerWeek(date);
      date := date + 7;
    }
  }

  function ScheduledDates(ss: seq<Session>, ids: seq<Id>): (dates: set<Date>)
    requires forall j :: 0 <= j < |ids| ==> ids[j] < |ss|
    ensures forall d :: d in dates <==> exists j :: 0 <= j < |ids| && ss[ids[j]].date == d
  {
    set j | 0 <= j < |ids| :: ss[ids[j]].date
  }

  method RemainingDates(c: Campus, ss: seq<Session>, k: Id, today: Date) returns (dates: set<Date>)
    requires Linked(c) && k < |c.schedules|
    ensures forall d :: d in dates <==> RemainingDate(c, ss, k, today, d)
  {
    var ids := FutureScheduledIds(ss, k, today);
    var seed := ScheduledDates(ss, ids);
    forall d ensures d in seed <==> exists i :: 0 <= i < |ss| && FutureScheduled(ss[i], k, today) && ss[i].date == d {
      if d in seed {
        var j :| 0 <= j < |ids| && ss[ids[j]].date == d;
        assert ids[j] in ids;
      }
      if i :| 0 <= i < |ss| && FutureScheduled(ss[i], k, today) && ss[i].date == d {
        assert i in ids;
      }
    }
    dates := AddWeeklyDates(seed, c.schedules[k].dow, today, c.terms[c.schedules[k].term].end);
  }

  /* The check before a move */

  // The class's own session on d; a later row wins should there be several.
  function OwnOn(ss: seq<Session>, k: Id, d: Date): (r: Option<Id>)
    ensures r.Some? ==> r.value < |ss| && IsOccurrence(ss[r.value], k, d)
    ensures r.None? ==> !Materialized(ss, k, d)
  {
    if ss == [] then None
    else if IsOccurrence(ss[|ss| - 1], k, d) then Some(|ss| - 1)
    else
      assert forall i :: 0 <= i < |ss| - 1 ==> ss[..|ss| - 1][i] == ss[i];
      OwnOn(ss[..|ss| - 1], k, d)
  }

  // Nothing needs checking on d, or the target room is free for the new slot.
  predicate ClearOn(c: Campus, ss: seq<Session>, k: Id, room: Id, start: TimeOfDay, end: TimeOfDay, d: Date)
    requires Linked(c) && SessionsLinked(c, ss) && k < |c.schedules| && room < |c.rooms|
  {
    var own := OwnOn(ss, k, d);
    || (own.Some? && !ss[own.value].status.Scheduled?)
    || Excused(c, c.schedules[k].term, d, BuildingOf(c, room))
    || RoomIsFree(c, ss, room, At(d, start), At(d, end), own, Some(k))
  }

  // The earliest remaining date on which the target room is taken, if any.
  method FirstConflict(
    c: Campus, ss: seq<Session>, k: Id, room: Id, start: TimeOfDay, end: TimeOfDay, today: Date)
    returns (conflict: Option<Date>)
    requires Linked(c) && SessionsLinked(c, ss) && k < |c.schedules| && room < |c.rooms|
    ensures c.schedules[k].modality.Online? ==> conflict == None
    ensures !c.schedules[k].modality.Online? ==>
      match conflict
      case None => forall d :: RemainingDate(c, ss, k, today, d) ==> ClearOn(c, ss, k, room, start, end, d)
      case Some(x) =>
        && RemainingDate(c, ss, k, today, x) && !ClearOn(c, ss, k, room, start, end, x)
        && forall d :: RemainingDate(c, ss, k, today, d) && d < x ==> ClearOn(c, ss, k, room, start, end, d)
  {
    hide RoomIsFree;
    if c.schedules[k].modality.Online? {
      return None;
    }
    var dates := RemainingDates(c, ss, k, today);
    ghost var all := dates;
    while dates != {}
      invariant dates <= all
      invariant forall d :: d in all && d !in dates ==> ClearOn(c, ss, k, room, start, end, d)
      invariant forall d, e :: d in all && d !in dates && e in dates ==> d < e
    {
      HasLeast(dates);
      var d :| IsLeast(dates, d);
      if !ClearOn(c, ss, k, room, start, end, d) {
        return Some(d);
      }
      dates := dates - {d};
    }
    return None;
  }

  /* The edit */

  datatype Edit = Edit(
    faculty: Option<Id>, room: Option<Id>, start: Option<TimeOfDay>, end: Option<TimeOfDay>, enrolled: Option<nat>)

  function Or<T>(given: Option<T>, kept: T): T {
    if given.Some? then given.value else kept
  }

  function Edited(s: Schedule, e: Edit): Schedule {
    s.(faculty := Or(e.faculty, s.faculty), room := Or(e.room, s.room), start := Or(e.start, s.start),
       end := Or(e.end, s.end), enrolled := Or(e.enrolled, s.enrolled))
  }

  predicate Moves(s: Schedule, e: Edit) {
    Edited(s, e).room != s.room || Edited(s, e).start != s.start || Edited(s, e).end != s.end
  }

  // A future SCHEDULED session follows its timetable row.
  function Follow(s: Session, row: Schedule): Session {
    s.(faculty := row.faculty, room := row.room, start := At(s.date, row.start), end := At(s.date, row.end))
  }

  function Propagated(ss: seq<Session>, k: Id, row: Schedule, today: Date): (tt: seq<Session>)
    ensures |tt| == |ss|
    ensures forall i :: 0 <= i < |ss| ==> tt[i] == if FutureScheduled(ss[i], k, today) then Follow(ss[i], row) else ss[i]
  {
    seq(|ss|, i requires 0 <= i < |ss| => if FutureScheduled(ss[i], k, today) then Follow(ss[i], row) else ss[i])
  }

  // Every future SCHEDULED session of the class, and no other, is put onto the row.
  method FollowRow(db: Database, k: Id, row: Schedule, today: Date) returns (moved: nat)
    modifies db`sessions
    ensures db.sessions == Propagated(old(db.sessions), k, row, today)
    ensures moved == |FutureScheduledIds(old(db.sessions), k, today)|
  {
    ghost var ss := db.sessions;
    var ids := FutureScheduledIds(db.sessions, k, today);
    for n := 0 to |ids|
      invariant |db.sessions| == |ss|
      invariant forall i :: 0 <= i < |ss| ==> db.sessions[i] == if i in ids[..n] then Follow(ss[i], row) else ss[i]
    {
      var i := ids[n];
      assert ids[..n + 1] == ids[..n] + [i];
      var s := db.sessions[i];
      db.sessions := db.sessions[i := s.(
        faculty := row.faculty, room := row.room, start := At(s.date, row.start), end := At(s.date, row.end))];
    }
    assert ids[..|ids|] == ids;
    assert db.sessions == Propagated(ss, k, row, today);
    return |ids|;
  }

  // What the edit must pass: a room or time change of a class not Online is clear on every
  // remaining date; any other edit passes unseen.
  ghost predicate Accepted(c: Campus, ss: seq<Session>, k: Id, e: Edit, today: Date)
    requires Linked(c) && SessionsLinked(c, ss) && k < |c.schedules| && Edited(c.schedules[k], e).room < |c.rooms|
  {
    var row := Edited(c.schedules[k], e);
    Moves(c.schedules[k], e) && !row.modality.Online? ==>
      forall d: Date :: RemainingDate(c, ss, k, today, d) ==> ClearOn(c, ss, k, row.room, row.start, row.end, d)
  }

  datatype EditError = TermIsArchived | RoomOccupied(date: Date)

  method UpdateSchedule(db: Database, k: Id, e: Edit, today: Date) returns (r: Result<nat, EditError>)
    requires db.Valid() && k < |db.schedules|
    requires e.room.Some? ==> e.room.value < |db.rooms|
    modifies db`schedules, db`sessions
    ensures r.Failure? ==> unchanged(db)
    ensures db.terms[old(db.schedules)[k].term].status.TermArchived? <==> r == Failure(TermIsArchived)
    ensures Edited(old(db.schedules)[k], e).room < |db.rooms|
    ensures r != Failure(TermIsArchived) ==>
      (r.Success? <==> Accepted(old(db.Context()), old(db.sessions), k, e, today))
    ensures r.Failure? && r.error.RoomOccupied? ==>
      var row := Edited(old(db.schedules)[k], e);
      && RemainingDate(old(db.Context()), old(db.sessions), k, today, r.error.date)
      && !ClearOn(old(db.Context()), old(db.sessions), k, row.room, row.start, row.end, r.error.date)
    ensures r.Success? ==>
      var row := Edited(old(db.schedules)[k], e);
      && db.schedules == old(db.schedules)[k := row]
      && db.sessions == Propagated(old(db.sessions), k, row, today)
      && r.value == |FutureScheduledIds(old(db.sessions), k, today)|
  {
    hide ClearOn;
    hide RemainingDate;
    var before := db.schedules[k];
    var row := Edited(before, e);
    assert row.room < |db.rooms|;
    if db.terms[before.term].status.TermArchived? {
      return Failure(TermIsArchived);
    }
    if Moves(before, e) {
      var conflict := FirstConflict(db.Context(), db.sessions, k, row.room, row.start, row.end, today);
      if conflict.Some? {
        return Failure(RoomOccupied(conflict.value));
      }
    }
    db.schedules := db.schedules[k := row];
    var moved := FollowRow(db, k, row, today);
    r := Success(moved);
  }

  /* Dropping the class */

  const NO_LONGER_OFFERED := "Class no longer offered"

  function DropReason(reason: string): string {
    Truncate(Strip(if reason == "" then NO_LONGER_OFFERED else reason))
  }

  function Dropped(ss: seq<Session>, k: Id, today: Date, reason: string): (tt: seq<Session>)
    ensures |tt| == |ss|
    ensures forall i :: 0 <= i < |ss| ==>
      tt[i] == if FutureScheduled(ss[i], k, today) then ss[i].(status := Cancelled, cancelledReason := reason) else ss[i]
  {
    seq(|ss|, i requires 0 <= i < |ss| =>
      if FutureScheduled(ss[i], k, today) then ss[i].(status := Cancelled, cancelledReason := reason) else ss[i])
  }

  method CancelSchedule(db: Database, k: Id, reason: string, today: Date) returns (r: Result<nat, EditError>)
    requires db.Valid() && k < |db.schedules|
    modifies db`schedules, db`sessions, db`audit
    ensures db.terms[old(db.schedules)[k].term].status.TermArchived? ==> r == Failure(TermIsArchived) && unchanged(db)
    ensures !db.terms[old(db.schedules)[k].term].status.TermArchived? ==>
      var ids := FutureScheduledIds(old(db.sessions), k, today);
      && r == Success(|ids|)
      && db.schedules == old(db.schedules)[k := old(db.schedules)[k].(status := ScheduleArchived)]
      && db.sessions == Dropped(old(db.sessions), k, today, DropReason(reason))
      && db.audit == old(db.audit) + AuditAll(SessionCancelled, ids)
  {
    if db.terms[db.schedules[k].term].status.TermArchived? {
      return Failure(TermIsArchived);
    }
    var text := DropReason(reason);
    db.schedules := db.schedules[k := db.schedules[k].(status := ScheduleArchived)];
    var ids := FutureScheduledIds(db.sessions, k, today);
    db.sessions := Dropped(db.sessions, k, today, text);
    db.audit := db.audit + AuditAll(SessionCancelled, ids);
    r := Success(|ids|);
  }

  // The reason kept is what was given, or the standing one when nothing was, without the blanks
  // around it and cut to what the column holds.
  lemma DropReasonMeans(reason: string) returns (front: string, kept: string, back: string)
    ensures (if reason == "" then "Class no longer offered" else reason) == front + kept + back
    ensures Blank(front) && Blank(back) && DropReason(reason) <= kept && |DropReason(reason)| <= 200
    ensures kept == "" || (!IsSpace(kept[0]) && !IsSpace(kept[|kept| - 1]))
    ensures |kept| <= 200 ==> DropReason(reason) == kept
  {
    var given := if reason == "" then NO_LONGER_OFFERED else reason;
    front, back := StripDropsBlanks(given);
    kept := Strip(given);
    TruncateKeepsBeginning(kept);
  }
}
