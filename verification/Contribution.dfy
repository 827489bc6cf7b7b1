/** What one session adds to the booked and the used seconds of a report. */
module Contribution {
  import opened Calendar
  import opened Tables
  import opened Wrappers

  // int(x.total_seconds()) floored at zero, for a difference of x microseconds.
  function WholeSeconds(x: int): nat {
    if x < 0 then 0 else x / 1_000_000
  }

  function Later(a: Instant, b: Instant): Instant {
    if a < b then b else a
  }

  function Earlier(a: Instant, b: Instant): Instant {
    if a < b then a else b
  }

  datatype Share = Share(booked: nat, used: nat, running: bool)

  function Contribute(s: Session): Share {
    if s.status.Cancelled? then
      Share(0, 0, false)
    else if s.actualStart.Some? && s.actualEnd.None? && s.status.Active? then
      Share(0, 0, true)
    else
      var booked := WholeSeconds(s.end - s.start);
      if s.status.Absent? || s.actualStart.None? || s.actualEnd.None? then
        Share(booked, 0, false)
      else
        Share(
          booked, WholeSeconds(Earlier(s.actualEnd.value, s.end) - Later(s.actualStart.value, s.start)), false)
  }

  predicate Held(s: Session) {
    s.status.Active? || s.status.Completed?
  }

  // Booked time of an ABSENT session, or booked and unused time of a held one.
  function Wasted(s: Session): nat {
    var x := Contribute(s);
    if x.running then 0
    else if s.status.Absent? then x.booked
    else if Held(s) && x.booked > x.used then x.booked - x.used
    else 0
  }

  // Booked time of a session nobody has accounted for yet.
  function Idle(s: Session): int {
    if s.status.Scheduled? then Contribute(s).booked - Contribute(s).used else 0
  }

  predicate InUse(s: Session, at: Instant) {
    s.actualStart.Some? && s.actualEnd.Some? && s.actualStart.value <= at < s.actualEnd.value
  }

  // A room is never used for longer than it was booked, and what was booked and not used is
  // wasted, or belongs to a class still to be held.
  lemma UsedWithinBooked(s: Session)
    ensures Contribute(s).used <= Contribute(s).booked
    ensures Contribute(s).booked - Contribute(s).used == Wasted(s) + Idle(s)
  {
    if s.actualStart.Some? && s.actualEnd.Some? {
      var used := Earlier(s.actualEnd.value, s.end) - Later(s.actualStart.value, s.start);
      assert used <= s.end - s.start;
    }
  }

  // Of the booked window, [x, y) is exactly when somebody was checked in, and it counts as used.
  ghost predicate UsedStretch(s: Session, x: Instant, y: Instant) {
    && s.start <= x < y <= s.end && Contribute(s).used == (y - x) / 1_000_000
    && forall t :: s.start <= t < s.end ==> (InUse(s, t) <==> x <= t < y)
  }

  // Used time is time in the booked window during which somebody was checked in.
  lemma UsedMeansPresent(s: Session)
    requires Contribute(s).used > 0
    ensures !s.status.Cancelled? && !s.status.Absent?
    ensures exists x, y :: UsedStretch(s, x, y)
  {
    assert UsedStretch(s, Later(s.actualStart.value, s.start), Earlier(s.actualEnd.value, s.end));
  }

  // Somebody was checked in for a whole second of the booked window on end.
  ghost predicate PresentForASecond(s: Session) {
    exists x: Instant :: s.start <= x && x + SECOND <= s.end && InUse(s, x) && InUse(s, x + SECOND - 1)
  }

  // Time counts as used exactly when somebody was there for a second, of a session neither
  // cancelled nor marked absent.
  lemma UsedIffPresent(s: Session)
    ensures Contribute(s).used > 0 <==> !s.status.Cancelled? && !s.status.Absent? && PresentForASecond(s)
  {
    if s.actualStart.Some? && s.actualEnd.Some? && !s.status.Cancelled? && !s.status.Absent? {
      var x := Later(s.actualStart.value, s.start);
      if Contribute(s).used > 0 {
        assert InUse(s, x) && InUse(s, x + SECOND - 1);
      }
    }
  }

  // A session books its whole seconds, unless it was cancelled or is still running.
  lemma BookedMeans(s: Session)
    ensures Contribute(s).running <==> s.status.Active? && s.actualStart.Some? && s.actualEnd.None?
    ensures s.status.Cancelled? || Contribute(s).running || s.end < s.start ==> Contribute(s).booked == 0
    ensures !s.status.Cancelled? && !Contribute(s).running && s.start <= s.end ==>
      Contribute(s).booked * SECOND <= s.end - s.start < (Contribute(s).booked + 1) * SECOND
  {
  }
}
