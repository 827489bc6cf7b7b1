/** Turning timetable rows and approved shifts into dated sessions. */
module Materialization {
  import opened Availability
  import opened Calendar
  import opened Excusal
  import opened Tables
  import opened Wrappers

  /* One newborn session */

  // Where a row stands among rows of equal decision time in the answer for a date: the query names
  // no tie-breaker, so any order may come.
  type Ties = (Id, Date) -> int

  // i is to be preferred to best: decided later, or at the same time and earlier in the answer.
  predicate Outranks(c: Campus, tie: Ties, d: Date, i: Id, best: Id)
    requires Linked(c) && i < |c.items| && best < |c.items|
  {
    || DecidedBefore(DecidedAt(c, best), DecidedAt(c, i))
    || (DecidedAt(c, best) == DecidedAt(c, i) && tie(i, d) < tie(best, d))
  }

  // The shift a newborn takes among the first n items: latest decision, then first in the answer.
  function LatestDecided(c: Campus, tie: Ties, k: Id, d: Date, n: nat): (r: Option<Id>)
    requires Linked(c) && n <= |c.items|
    ensures r.Some? ==> r.value < n && ShiftsOn(c, r.value, k, d)
  {
    if n == 0 then
      None
    else
      var best := LatestDecided(c, tie, k, d, n - 1);
      if ShiftsOn(c, n - 1, k, d) && (best.None? || Outranks(c, tie, d, n - 1, best.value)) then Some(n - 1) else best
  }

  lemma {:induction false} LatestDecidedIsLatest(c: Campus, tie: Ties, k: Id, d: Date, n: nat, i: nat)
    requires Linked(c) && n <= |c.items| && i < n && ShiftsOn(c, i, k, d)
    ensures LatestDecided(c, tie, k, d, n).Some?
    ensures
      var r := LatestDecided(c, tie, k, d, n).value;
      && !DecidedBefore(DecidedAt(c, r), DecidedAt(c, i))
      && (DecidedAt(c, r) == DecidedAt(c, i) ==> tie(r, d) <= tie(i, d))
  {
    if i < n - 1 {
      LatestDecidedIsLatest(c, tie, k, d, n - 1, i);
    }
  }

  function BirthShift(c: Campus, tie: Ties, k: Id, d: Date): (r: Option<Id>)
    requires Linked(c)
    ensures r.Some? ==> ShiftsOn(c, r.value, k, d)
  {
    LatestDecided(c, tie, k, d, |c.items|)
  }

  function Unshifted(c: Campus, k: Id, d: Date): Session
    requires k < |c.schedules|
  {
    var s := c.schedules[k];
    Session(k, s.faculty, s.room, d, At(d, s.start), At(d, s.end), Scheduled, None, None, NoCheckin,
            None, None, None, None, "", None)
  }

  function Shifted(c: Campus, base: Session, item: Id, d: Date, now: Instant): Session
    requires Linked(c) && item < |c.items|
  {
    var it := c.items[item];
    var r := c.requests[it.request];
    var declared := base.(declared := Some(r.target), changedAt := r.decidedAt, changedBy := r.decidedBy);
    if r.target.Online? then
      declared.(released := Some(if r.decidedAt.Some? then r.decidedAt.value else now))
    else if it.assignedRoom.None? then
      declared
    else if it.newStart.Some? && it.newEnd.Some? then
      declared.(room := it.assignedRoom.value, start := At(d, it.newStart.value), end := At(d, it.newEnd.value))
    else
      declared.(room := it.assignedRoom.value)
  }

  function Newborn(c: Campus, tie: Ties, k: Id, d: Date, now: Instant): (s: Session)
    requires Linked(c) && k < |c.schedules|
    ensures IsOccurrence(s, k, d) && s.room < |c.rooms| && s.status.Scheduled?
  {
    match BirthShift(c, tie, k, d)
    case None => Unshifted(c, k, d)
    case Some(item) => Shifted(c, Unshifted(c, k, d), item, d, now)
  }

  /* The generator */

  predicate Matches(c: Campus, term: Id, k: Id, d: Date)
    requires k < |c.schedules|
  {
    var s := c.schedules[k];
    s.term == term && s.status.ScheduleActive? && s.dow == WeekdayOf(d)
  }

  predicate SkippedOn(c: Campus, term: Id, k: Id, d: Date)
    requires Linked(c) && k < |c.schedules|
  {
    Excused(c, term, d, BuildingOf(c, c.schedules[k].room))
  }

  // The pairs a session must exist for.
  predicate Due(c: Campus, term: Id, k: Id, d: Date)
    requires Linked(c)
  {
    k < |c.schedules| && Matches(c, term, k, d) && !SkippedOn(c, term, k, d)
  }

  lemma DueIsKnown(c: Campus, term: Id, k: Id, d: Date)
    requires Linked(c) && Due(c, term, k, d)
    ensures k < |c.schedules|
  {
  }

  datatype Tally = Tally(sessions: seq<Session>, created: nat, existing: nat, skipped: nat)

  function Visit(c: Campus, tie: Ties, t: Tally, term: Id, d: Date, k: Id, now: Instant): (r: Tally)
    requires Linked(c) && k < |c.schedules|
    ensures t.sessions <= r.sessions
  {
    if !Matches(c, term, k, d) then t
    else if SkippedOn(c, term, k, d) then t.(skipped := t.skipped + 1)
    else if Materialized(t.sessions, k, d) then t.(existing := t.existing + 1)
    else t.(sessions := t.sessions + [Newborn(c, tie, k, d, now)], created := t.created + 1)
  }

  // The first n schedules of the table, visited for date d.
  function VisitDay(c: Campus, tie: Ties, t: Tally, term: Id, d: Date, n: nat, now: Instant): (r: Tally)
    requires Linked(c) && n <= |c.schedules|
    ensures t.sessions <= r.sessions
  {
    if n == 0 then t else Visit(c, tie, VisitDay(c, tie, t, term, d, n - 1, now), term, d, n - 1, now)
  }

  // Dates from up to but not including until, in order.
  function Walk(c: Campus, tie: Ties, t: Tally, term: Id, from: Date, until: Date, now: Instant): (r: Tally)
    requires Linked(c)
    ensures t.sessions <= r.sessions
    decreases until - from
  {
    if until <= from then t
    else VisitDay(c, tie, Walk(c, tie, t, term, from, until - 1, now), term, until - 1, |c.schedules|, now)
  }

  function FirstDate(c: Campus, term: Id, start: Date): Date
    requires term < |c.terms|
  {
    if start < c.terms[term].start then c.terms[term].start else start
  }

  function StopDate(c: Campus, term: Id, start: Date, days: int): Date
    requires term < |c.terms|
  {
    if start + days < c.terms[term].end + 1 then start + days else c.terms[term].end + 1
  }

  function MaterializedTerm(
    c: Campus, tie: Ties, ss: seq<Session>, term: Id, start: Date, days: int, now: Instant): (r: Tally)
    requires Linked(c) && term < |c.terms|
    ensures ss <= r.sessions
  {
    Walk(c, tie, Tally(ss, 0, 0, 0), term, FirstDate(c, term, start), StopDate(c, term, start, days), now)
  }

  datatype MaterializationError = NoTerm | TermIsArchived | DraftNotPublic | DaysNotPositive

  function Refusal(c: Campus, term: Option<Id>, days: int, allowDraft: bool): Option<MaterializationError>
  {
    if term.None? || term.value >= |c.terms| then Some(NoTerm)
    else if c.terms[term.value].status.TermArchived? then Some(TermIsArchived)
    else if c.terms[term.value].status.TermDraft? && !allowDraft then Some(DraftNotPublic)
    else if days < 1 then Some(DaysNotPositive)
    else None
  }

  // A newborn born Online gives its room up at birth: one entry per such row from start on.
  function Releases(ss: seq<Session>, start: nat): seq<AuditEntry> {
    if |ss| <= start then []
    else
      var n := |ss| - 1;
      Releases(ss[..n], start) + if ss[n].released.Some? then [AuditEntry(RoomReleased, n)] else []
  }

  lemma ReleasesGrow(ss: seq<Session>, start: nat, s: Session)
    requires start <= |ss|
    ensures Releases(ss + [s], start)
      == Releases(ss, start) + if s.released.Some? then [AuditEntry(RoomReleased, |ss|)] else []
  {
    assert (ss + [s])[..|ss|] == ss;
  }

  lemma NoReleases(ss: seq<Session>)
    ensures Releases(ss, |ss|) == []
  {
  }

  lemma {:induction false} ReleasesSplit(ss: seq<Session>, tt: seq<Session>, start: nat)
    requires start <= |ss| && ss <= tt
    ensures Releases(tt, start) == Releases(ss, start) + Releases(tt, |ss|)
  {
    if ss != tt {
      var n := |tt| - 1;
      ReleasesSplit(ss, tt[..n], start);
    }
  }

  datatype Counts = Counts(created: nat, existing: nat, skipped: nat)

  // get_or_create's create: the newborn, and its release when it is born Online.
  method Bear(db: Database, tie: Ties, k: Id, d: Date, now: Instant)
    requires db.Valid() && k < |db.schedules|
    modifies db`sessions, db`audit
    ensures db.Valid()
    ensures db.sessions == old(db.sessions) + [Newborn(db.Context(), tie, k, d, now)]
    ensures old(db.audit) <= db.audit
    ensures forall start: nat :: start <= |old(db.sessions)| ==>
      Releases(db.sessions, start) == Releases(old(db.sessions), start) + db.audit[|old(db.audit)|..]
  {
    hide Newborn;
    var newborn := Newborn(db.Context(), tie, k, d, now);
    forall start: nat | start <= |db.sessions| {
      ReleasesGrow(db.sessions, start, newborn);
    }
    if newborn.released.Some? {
      db.audit := db.audit + [AuditEntry(RoomReleased, |db.sessions|)];
    }
    db.sessions := db.sessions + [newborn];
  }

  // One date: a session for every matching, unexcused schedule that has none yet.
  method MaterializeDate(db: Database, tie: Ties, term: Id, d: Date, now: Instant)
    returns (created: nat, existing: nat, skipped: nat)
    requires db.Valid()
    modifies db`sessions, db`audit
    ensures db.Valid() && old(db.sessions) <= db.sessions
    ensures db.audit == old(db.audit) + Releases(db.sessions, |old(db.sessions)|)
    ensures Tally(db.sessions, created, existing, skipped)
      == VisitDay(db.Context(), tie, Tally(old(db.sessions), 0, 0, 0), term, d, |db.schedules|, now)
  {
    hide Newborn;
    hide Excused;
    hide Materialized;
    hide Releases;
    NoReleases(db.sessions);
    ghost var c := db.Context();
    created, existing, skipped := 0, 0, 0;
    for k := 0 to |db.schedules|
      invariant db.Valid() && db.Context() == c
      invariant Tally(db.sessions, created, existing, skipped)
        == VisitDay(c, tie, Tally(old(db.sessions), 0, 0, 0), term, d, k, now)
      invariant db.audit == old(db.audit) + Releases(db.sessions, |old(db.sessions)|)
    {
      var s := db.schedules[k];
      if s.term == term && s.status.ScheduleActive? && s.dow == WeekdayOf(d) {
        if Excused(db.Context(), term, d, BuildingOf(db.Context(), s.room)) {
          skipped := skipped + 1;
        } else if Materialized(db.sessions, k, d) {
          existing := existing + 1;
        } else {
          Bear(db, tie, k, d, now);
          created := created + 1;
        }
      }
    }
  }

  function Plus(t: Tally, created: nat, existing: nat, skipped: nat): Tally {
    Tally(t.sessions, t.created + created, t.existing + existing, t.skipped + skipped)
  }

  // Counting on from earlier dates is adding to their counts.
  lemma {:induction false} DayOffset(
    c: Campus, tie: Ties, t: Tally, a: nat, b: nat, e: nat, term: Id, d: Date, n: nat, now: Instant)
    requires Linked(c) && n <= |c.schedules|
    ensures VisitDay(c, tie, Plus(t, a, b, e), term, d, n, now) == Plus(VisitDay(c, tie, t, term, d, n, now), a, b, e)
  {
    hide Newborn;
    hide Materialized;
    if n > 0 {
      DayOffset(c, tie, t, a, b, e, term, d, n - 1, now);
    }
  }

  method MaterializeTerm(
    db: Database, tie: Ties, term: Option<Id>, start: Date, days: int, allowDraft: bool, now: Instant)
    returns (r: Result<Counts, MaterializationError>)
    requires db.Valid()
    modifies db`sessions, db`audit
    ensures db.Valid()
    ensures match Refusal(db.Context(), term, days, allowDraft)
            case Some(e) => r == Failure(e) && unchanged(db)
            case None =>
              var t := MaterializedTerm(db.Context(), tie, old(db.sessions), term.value, start, days, now);
              && r == Success(Counts(t.created, t.existing, t.skipped)) && db.sessions == t.sessions
              && db.audit == old(db.audit) + Releases(db.sessions, |old(db.sessions)|)
  {
    hide VisitDay;
    hide Releases;
    ghost var c := db.Context();
    NoReleases(db.sessions);
    if term.None? || term.value >= |db.terms| {
      return Failure(NoTerm);
    }
    var row := db.terms[term.value];
    if row.status.TermArchived? {
      return Failure(TermIsArchived);
    }
    if row.status.TermDraft? && !allowDraft {
      return Failure(DraftNotPublic);
    }
    if days < 1 {
      return Failure(DaysNotPositive);
    }
    var current := if start < row.start then row.start else start;
    var end := if start + days < row.end + 1 then start + days else row.end + 1;
    var created, existing, skipped := 0, 0, 0;
    ghost var t0 := Tally(db.sessions, 0, 0, 0);
    ghost var from := current;
    while current < end
      invariant db.Valid() && db.Context() == c
      invariant from <= current && (current <= end || (current == from && end < from))
      invariant Tally(db.sessions, created, existing, skipped) == Walk(c, tie, t0, term.value, from, current, now)
      invariant old(db.sessions) <= db.sessions
      invariant db.audit == old(db.audit) + Releases(db.sessions, |old(db.sessions)|)
    {
      ghost var before := db.sessions;
      DayOffset(c, tie, Tally(db.sessions, 0, 0, 0), created, existing, skipped, term.value, current, |c.schedules|, now);
      var made, had, passed := MaterializeDate(db, tie, term.value, current, now);
      ReleasesSplit(before, db.sessions, |old(db.sessions)|);
      created, existing, skipped := created + made, existing + had, skipped + passed;
      current := current + 1;
    }
    r := Success(Counts(created, existing, skipped));
  }

  /* What a walk leaves behind */

  // t grew from ss by newborns of due pairs that had no session, and by nothing else.
  predicate GrownFrom(
    c: Campus, tie: Ties, ss: seq<Session>, t: seq<Session>, term: Id, from: Date, until: Date, now: Instant)
    requires Linked(c)
  {
    && ss <= t
    && forall i :: |ss| <= i < |t| ==> BornIn(c, tie, ss, t[i], term, from, until, now)
  }

  predicate BornIn(c: Campus, tie: Ties, ss: seq<Session>, s: Session, term: Id, from: Date, until: Date, now: Instant)
    requires Linked(c)
  {
    && from <= s.date < until
    && Due(c, term, s.schedule, s.date)
    && !Materialized(ss, s.schedule, s.date)
    && s == Newborn(c, tie, s.schedule, s.date, now)
  }

  lemma VisitGrows(c: Campus, tie: Ties, ss: seq<Session>, t: Tally, term: Id, from: Date, d: Date, k: Id, now: Instant)
    requires Linked(c) && SessionsLinked(c, ss) && k < |c.schedules| && from <= d
    requires GrownFrom(c, tie, ss, t.sessions, term, from, d + 1, now)
    requires UniqueOccurrences(ss) ==> UniqueOccurrences(t.sessions)
    ensures
      var t' := Visit(c, tie, t, term, d, k, now);
      && t.sessions <= t'.sessions
      && GrownFrom(c, tie, ss, t'.sessions, term, from, d + 1, now)
      && (UniqueOccurrences(ss) ==> UniqueOccurrences(t'.sessions))
      && (Due(c, term, k, d) ==> Materialized(t'.sessions, k, d))
      && t'.created - t.created == |t'.sessions| - |t.sessions|
      && t'.created + t'.existing + t'.skipped - (t.created + t.existing + t.skipped)
         == (if Matches(c, term, k, d) then 1 else 0)
  {
    var t' := Visit(c, tie, t, term, d, k, now);
    if Due(c, term, k, d) && !Materialized(t.sessions, k, d) {
      var s := Newborn(c, tie, k, d, now);
      assert !Materialized(ss, k, d) by {
        assert forall i :: 0 <= i < |ss| ==> ss[i] == t.sessions[i];
      }
      assert BornIn(c, tie, ss, s, term, from, d + 1, now);
      assert IsOccurrence(t'.sessions[|t.sessions|], k, d);
    }
  }

  // Schedules among the first n that match (term, d).
  function MatchesOn(c: Campus, term: Id, d: Date, n: nat): nat
    requires n <= |c.schedules|
  {
    if n == 0 then 0 else MatchesOn(c, term, d, n - 1) + if Matches(c, term, n - 1, d) then 1 else 0
  }

  function MatchingPairs(c: Campus, term: Id, from: Date, until: Date): nat
    decreases until - from
  {
    if until <= from then 0 else MatchingPairs(c, term, from, until - 1) + MatchesOn(c, term, until - 1, |c.schedules|)
  }

  // Schedules among the first n that match (term, d) in an excused building.
  function ExcusedOn(c: Campus, term: Id, d: Date, n: nat): nat
    requires Linked(c) && n <= |c.schedules|
  {
    if n == 0 then 0
    else ExcusedOn(c, term, d, n - 1) + if Matches(c, term, n - 1, d) && !Due(c, term, n - 1, d) then 1 else 0
  }

  function ExcusedPairs(c: Campus, term: Id, from: Date, until: Date): nat
    requires Linked(c)
    decreases until - from
  {
    if until <= from then 0
    else ExcusedPairs(c, term, from, until - 1) + ExcusedOn(c, term, until - 1, |c.schedules|)
  }

  lemma {:induction false} DaySkips(c: Campus, tie: Ties, t: Tally, term: Id, d: Date, n: nat, now: Instant)
    requires Linked(c) && n <= |c.schedules|
    ensures VisitDay(c, tie, t, term, d, n, now).skipped == t.skipped + ExcusedOn(c, term, d, n)
  {
    hide Newborn;
    hide Materialized;
    hide Excused;
    if n > 0 {
      DaySkips(c, tie, t, term, d, n - 1, now);
    }
  }

  // What a walk counts as skipped is exactly the matching pairs that are excused.
  lemma {:induction false} SkippedAreExcused(
    c: Campus, tie: Ties, t: Tally, term: Id, from: Date, until: Date, now: Instant)
    requires Linked(c)
    ensures Walk(c, tie, t, term, from, until, now).skipped == t.skipped + ExcusedPairs(c, term, from, until)
    decreases until - from
  {
    hide VisitDay;
    if from < until {
      SkippedAreExcused(c, tie, t, term, from, until - 1, now);
      DaySkips(c, tie, Walk(c, tie, t, term, from, until - 1, now), term, until - 1, |c.schedules|, now);
    }
  }

  lemma {:induction false} DayGrows(
    c: Campus, tie: Ties, ss: seq<Session>, t: Tally, term: Id, from: Date, d: Date, n: nat, now: Instant)
    requires Linked(c) && SessionsLinked(c, ss) && n <= |c.schedules| && from <= d
    requires GrownFrom(c, tie, ss, t.sessions, term, from, d + 1, now)
    requires UniqueOccurrences(ss) ==> UniqueOccurrences(t.sessions)
    ensures
      var t' := VisitDay(c, tie, t, term, d, n, now);
      && t.sessions <= t'.sessions
      && GrownFrom(c, tie, ss, t'.sessions, term, from, d + 1, now)
      && (UniqueOccurrences(ss) ==> UniqueOccurrences(t'.sessions))
      && (forall k :: 0 <= k < n && Due(c, term, k, d) ==> Materialized(t'.sessions, k, d))
      && t'.created - t.created == |t'.sessions| - |t.sessions|
      && t'.created + t'.existing + t'.skipped == t.created + t.existing + t.skipped + MatchesOn(c, term, d, n)
  {
    hide Visit;
    hide GrownFrom;
    hide UniqueOccurrences;
    hide Due;
    hide Matches;
    if n > 0 {
      DayGrows(c, tie, ss, t, term, from, d, n - 1, now);
      var t1 := VisitDay(c, tie, t, term, d, n - 1, now);
      VisitGrows(c, tie, ss, t1, term, from, d, n - 1, now);
      forall k | 0 <= k < n - 1 && Due(c, term, k, d)
        ensures Materialized(VisitDay(c, tie, t, term, d, n, now).sessions, k, d)
      {
        StaysMaterialized(t1.sessions, VisitDay(c, tie, t, term, d, n, now).sessions, k, d);
      }
    }
  }

  lemma StaysMaterialized(ss: seq<Session>, t: seq<Session>, k: Id, d: Date)
    requires ss <= t && Materialized(ss, k, d)
    ensures Materialized(t, k, d)
  {
    var i :| 0 <= i < |ss| && IsOccurrence(ss[i], k, d);
    assert IsOccurrence(t[i], k, d);
  }

  lemma {:induction false} WalkGrows(
    c: Campus, tie: Ties, ss: seq<Session>, term: Id, from: Date, until: Date, now: Instant)
    requires Linked(c) && SessionsLinked(c, ss)
    ensures
      var t := Walk(c, tie, Tally(ss, 0, 0, 0), term, from, until, now);
      && GrownFrom(c, tie, ss, t.sessions, term, from, until, now)
      && (UniqueOccurrences(ss) ==> UniqueOccurrences(t.sessions))
      && (forall k, d :: from <= d < until && Due(c, term, k, d) ==> Materialized(t.sessions, k, d))
      && t.created == |t.sessions| - |ss|
      && t.created + t.existing + t.skipped == MatchingPairs(c, term, from, until)
    decreases until - from
  {
    if from < until {
      WalkGrows(c, tie, ss, term, from, until - 1, now);
      var t1 := Walk(c, tie, Tally(ss, 0, 0, 0), term, from, until - 1, now);
      DayGrows(c, tie, ss, t1, term, from, until - 1, |c.schedules|, now);
      var t := Walk(c, tie, Tally(ss, 0, 0, 0), term, from, until, now);
      forall k, d | from <= d < until && Due(c, term, k, d)
        ensures Materialized(t.sessions, k, d)
      {
        if d < until - 1 {
          StaysMaterialized(t1.sessions, t.sessions, k, d);
        }
      }
    }
  }
}
