/** Duty postings: who is on duty, where and when. */
module Duty {
  import opened Calendar
  import opened Tables
  import opened Wrappers

  datatype DutyRole = CheckerDuty | GuardDuty
  datatype DutyScope = FloorScope | OnlineScope
  datatype Posting = Posting(
    user: Id, role: DutyRole, floors: set<Id>, scope: DutyScope, date: Option<Date>,
    start: Option<TimeOfDay>, end: Option<TimeOfDay>, term: Option<Id>, active: bool)

  function TimeOfDayOf(i: Instant): TimeOfDay {
    i % 86_400_000_000
  }

  // A standing posting is always on; a dated shift is on inside its window, open bounds included.
  predicate CoversNow(p: Posting, today: Date, t: TimeOfDay) {
    p.date.None?
    || (&& p.date.value == today
        && (p.start.None? || p.start.value <= t)
        && (p.end.None? || t <= p.end.value))
  }

  predicate CoversInstant(p: Posting, at: Instant) {
    CoversNow(p, DateOf(at), TimeOfDayOf(at))
  }

  // A dated posting covers the instants from its start to its end on its date, both included.
  lemma DatedPostingIsAWindow(p: Posting, at: Instant)
    requires p.date.Some? && p.start.Some? && p.end.Some?
    ensures CoversInstant(p, at) <==> At(p.date.value, p.start.value) <= at && at <= At(p.date.value, p.end.value)
  {
  }
}
