/**
  Dates and instants. The campus runs on Asia/Manila time, which has a fixed offset, so an
  instant is a whole number of microseconds (the resolution of the program's clock) counted
  from local midnight of date 0, and date 0 is a Monday.
 */
module Calendar {

  const SECOND := 1_000_000
  const MINUTE := 60_000_000
  const HOUR := 3_600_000_000
  const DAY := 86_400_000_000

  type Date = int
  type Instant = int
  type TimeOfDay = t: int | 0 <= t < DAY
  type Weekday = w: int | 0 <= w < 7

  function WeekdayOf(d: Date): Weekday {
    d % 7
  }

  // The instant at which date d reads t on the wall clock.
  function At(d: Date, t: TimeOfDay): Instant {
    d * 86_400_000_000 + t
  }

  function DateOf(i: Instant): Date {
    i / 86_400_000_000
  }

  // Half-open overlap of [s0, e0) and [s1, e1).
  predicate Overlaps(s0: Instant, e0: Instant, s1: Instant, e1: Instant) {
    s0 < e1 && s1 < e0
  }

  // [s, e) lies inside the single local date d; e may be the next midnight.
  predicate WithinDate(s: Instant, e: Instant, d: Date) {
    At(d, 0) <= s < At(d + 1, 0) && e <= At(d + 1, 0)
  }

  lemma DateOfWithin(s: Instant, e: Instant, d: Date)
    requires WithinDate(s, e, d)
    ensures DateOf(s) == d
  {
  }

  // The first date from today on that falls on dow.
  function FirstOn(today: Date, dow: Weekday): Date {
    today + (dow - WeekdayOf(today)) % 7
  }

  lemma FirstOnIsFirst(today: Date, dow: Weekday)
    ensures today <= FirstOn(today, dow) && WeekdayOf(FirstOn(today, dow)) == dow
    ensures forall d :: today <= d && WeekdayOf(d) == dow ==> FirstOn(today, dow) <= d
  {
  }

  // A weekday comes again seven dates later and not before.
  lemma OncePerWeek(date: Date)
    ensures WeekdayOf(date + 7) == WeekdayOf(date)
    ensures forall d :: date < d < date + 7 ==> WeekdayOf(d) != WeekdayOf(date)
  {
  }

  // The moment t is in the half-open slot.
  predicate During(s: Instant, e: Instant, t: Instant) {
    s <= t < e
  }

  // Two slots of positive length overlap exactly when they share a moment.
  lemma OverlapIsSharedMoment(s0: Instant, e0: Instant, s1: Instant, e1: Instant)
    requires s0 < e0 && s1 < e1
    ensures Overlaps(s0, e0, s1, e1) <==> exists t: Instant :: During(s0, e0, t) && During(s1, e1, t)
  {
    if Overlaps(s0, e0, s1, e1) {
      var t := if s0 < s1 then s1 else s0;
      assert During(s0, e0, t) && During(s1, e1, t);
    }
  }
}
