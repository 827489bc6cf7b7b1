/** What an approval leaves behind: no clash of its own making, and all of a ticket or none of it. */
module ShiftSafety {
  import opened Availability
  import opened Calendar
  import opened Clashes
  import opened ShiftApproval
  import opened Tables
  import opened Wrappers

  /* Settled sessions */

  // p has been moved by the ticket: new modality, and no clash.
  ghost predicate Settled(c: Campus, ss: seq<Session>, p: Id, target: Modality)
    requires SessionsLinked(c, ss)
  {
    p < |ss| && Occupying(ss[p]) && ss[p].declared == Some(target) && Unclashed(c, ss, p)
  }

  /* One session */

  // Reservations play no part in a clash, so clashes are judged in the campus c0 as it was before
  // the ticket's own reservations were written.
  predicate SameButItems(c0: Campus, c: Campus) {
    c == c0.(items := c.items)
  }

  lemma FreeSlotUnclashed(
    c0: Campus, c: Campus, ss: seq<Session>, i: Id, room: Id, start: Instant, end: Instant, t: Session)
    requires SameButItems(c0, c)
    requires Linked(c) && SessionsLinked(c, ss) && i < |ss| && room < |c.rooms|
    requires RoomIsFree(c, ss, room, start, end, Some(i), None)
    requires t.schedule < |c.schedules| && t.room == room && t.start == start && t.end == end
    ensures SessionsLinked(c0, ss[i := t]) && Unclashed(c0, ss[i := t], i) && NoNewClash(c0, ss, ss[i := t])
    ensures forall p: Id :: p != i && p < |ss| && Unclashed(c0, ss, p) ==> Unclashed(c0, ss[i := t], p)
  {
    hide ScheduleOccupies;
    hide ReservationOccupies;
    var tt := ss[i := t];
    forall j: Id | j < |ss| && j != i ensures !SessionIn(c0, tt[j], room, start, end) {
      assert tt[j] == ss[j];
    }
    forall q: Id ensures !Clash(c0, tt, i, q) && !Clash(c0, tt, q, i) {
    }
    forall p: Id, q: Id | Clash(c0, tt, p, q) ensures Clash(c0, ss, p, q) {
      assert p != i && q != i;
    }
  }

  // One step of the ticket: i is settled, what was settled stays so, and no clash is new.
  ghost predicate Advances(c: Campus, ss: seq<Session>, tt: seq<Session>, i: Id, target: Modality)
    requires SessionsLinked(c, ss) && SessionsLinked(c, tt)
  {
    && |tt| == |ss| && NoNewClash(c, ss, tt) && Settled(c, tt, i, target)
    && (forall p: Id :: p != i && Settled(c, ss, p, target) ==> Settled(c, tt, p, target))
    && (forall p: Id :: p != i && p < |ss| ==> tt[p] == ss[p])
  }

  function TargetOf(c: Campus, item: Id): Modality
    requires Linked(c) && item < |c.items|
  {
    c.requests[c.items[item].request].target
  }

  lemma ShiftOneSettles(c0: Campus, c: Campus, ss: seq<Session>, item: Id, i: Id, dean: Id, now: Instant)
    requires SameButItems(c0, c)
    requires Linked(c) && SessionsLinked(c, ss) && item < |c.items| && i < |ss| && Occupying(ss[i])
    requires ShiftOne(c, ss, item, i, dean, now).Success?
    ensures Advances(c0, ss, ShiftOne(c, ss, item, i, dean, now).value, i, TargetOf(c, item))
  {
    hide RoomIsFree;
    var it, tt := c.items[item], ShiftOne(c, ss, item, i, dean, now).value;
    FreeSlotUnclashed(c0, c, ss, i, tt[i].room, TargetStart(it, ss[i]), TargetEnd(it, ss[i]), tt[i]);
    assert tt == ss[i := tt[i]];
  }

  /* One item */

  // The listed sessions are moved, nothing else is, and no clash is new.
  ghost predicate QueueSettled(c: Campus, ss: seq<Session>, tt: seq<Session>, queue: seq<Id>, target: Modality)
    requires SessionsLinked(c, ss) && SessionsLinked(c, tt)
  {
    && |tt| == |ss| && NoNewClash(c, ss, tt)
    && (forall p: Id :: p in queue || Settled(c, ss, p, target) ==> Settled(c, tt, p, target))
    && (forall p: Id :: p < |ss| && p !in queue ==> tt[p] == ss[p])
  }

  lemma QueueStarts(c: Campus, ss: seq<Session>, target: Modality)
    requires SessionsLinked(c, ss)
    ensures QueueSettled(c, ss, ss, [], target)
  {
    NoNewClashReflexive(c, ss);
  }

  lemma QueueGrows(
    c: Campus, ss: seq<Session>, mid: seq<Session>, tt: seq<Session>, queue: seq<Id>, i: Id, target: Modality)
    requires SessionsLinked(c, ss) && SessionsLinked(c, mid) && SessionsLinked(c, tt)
    requires QueueSettled(c, ss, mid, queue, target) && Advances(c, mid, tt, i, target)
    ensures QueueSettled(c, ss, tt, queue + [i], target)
  {
    hide Settled;
    hide NoNewClash;
    NoNewClashTransitive(c, ss, mid, tt);
  }

  lemma QueueRowOccupies(c: Campus, ss: seq<Session>, mid: seq<Session>, queue: seq<Id>, target: Modality, i: Id)
    requires SessionsLinked(c, ss) && SessionsLinked(c, mid) && i < |ss| && Occupying(ss[i])
    requires QueueSettled(c, ss, mid, queue, target)
    ensures |mid| == |ss| && Occupying(mid[i])
  {
    hide NoNewClash;
    if i in queue {
      assert Settled(c, mid, i, target);
    }
  }

  lemma ShiftNextSettles(
    c0: Campus, c: Campus, ss: seq<Session>, mid: seq<Session>, item: Id, queue: seq<Id>, i: Id, target: Modality,
    dean: Id, now: Instant)
    requires Linked(c) && SessionsLinked(c, ss) && SessionsLinked(c, mid) && item < |c.items|
    requires SameButItems(c0, c) && TargetOf(c, item) == target
    requires i < |ss| && Occupying(ss[i]) && |mid| == |ss| && QueueSettled(c0, ss, mid, queue, target)
    requires ShiftOne(c, mid, item, i, dean, now).Success?
    ensures QueueSettled(c0, ss, ShiftOne(c, mid, item, i, dean, now).value, queue + [i], target)
  {
    hide ShiftOne;
    hide QueueSettled;
    hide Advances;
    hide Linked;
    QueueRowOccupies(c0, ss, mid, queue, target, i);
    ShiftOneSettles(c0, c, mid, item, i, dean, now);
    QueueGrows(c0, ss, mid, ShiftOne(c, mid, item, i, dean, now).value, queue, i, target);
  }

  // Unfolding the queue by one, apart from everything the queue means.
  lemma ShiftFirstStep(c: Campus, ss: seq<Session>, item: Id, queue: seq<Id>, n: nat, dean: Id, now: Instant)
    requires Linked(c) && SessionsLinked(c, ss) && item < |c.items| && 0 < n <= |queue|
    requires forall j :: 0 <= j < |queue| ==> queue[j] < |ss|
    requires ShiftFirst(c, ss, item, queue, n, dean, now).Success?
    ensures ShiftFirst(c, ss, item, queue, n - 1, dean, now).Success?
    ensures
      var mid := ShiftFirst(c, ss, item, queue, n - 1, dean, now).value;
      && SessionsLinked(c, mid) && SameOccurrences(ss, mid)
      && ShiftOne(c, mid, item, queue[n - 1], dean, now) == ShiftFirst(c, ss, item, queue, n, dean, now)
  {
    hide ShiftOne;
    hide Linked;
    hide SameOccurrences;
  }

  predicate QueueOccupies(ss: seq<Session>, queue: seq<Id>) {
    forall j :: 0 <= j < |queue| ==> queue[j] < |ss| && Occupying(ss[queue[j]])
  }

  lemma {:induction false} ShiftFirstSettles(
    c0: Campus, c: Campus, ss: seq<Session>, item: Id, queue: seq<Id>, n: nat, target: Modality, dean: Id,
    now: Instant)
    requires Linked(c) && SessionsLinked(c, ss) && item < |c.items| && n <= |queue| && QueueOccupies(ss, queue)
    requires SameButItems(c0, c) && TargetOf(c, item) == target
    requires ShiftFirst(c, ss, item, queue, n, dean, now).Success?
    ensures QueueSettled(c0, ss, ShiftFirst(c, ss, item, queue, n, dean, now).value, queue[..n], target)
  {
    hide ShiftOne;
    hide QueueSettled;
    hide Linked;
    if n == 0 {
      assert queue[..0] == [];
      QueueStarts(c0, ss, target);
    } else {
      ShiftFirstStep(c, ss, item, queue, n, dean, now);
      hide ShiftFirst;
      hide SameOccurrences;
      ShiftFirstSettles(c0, c, ss, item, queue, n - 1, target, dean, now);
      var mid := ShiftFirst(c, ss, item, queue, n - 1, dean, now).value;
      ShiftNextSettles(c0, c, ss, mid, item, queue[..n - 1], queue[n - 1], target, dean, now);
      assert queue[..n] == queue[..n - 1] + [queue[n - 1]];
    }
  }

  /* One ticket */

  lemma ShiftRowSettles(c: Campus, st: ShiftState, req: Id, n: Id, dean: Id, now: Instant)
    requires Linked(c) && StateLinked(c, st) && req < |c.requests| && n < |c.items|
    requires ShiftItemRow(c, st, req, n, dean, now).Success?
    ensures
      var tt := ShiftItemRow(c, st, req, n, dean, now).value.sessions;
      && |tt| == |st.sessions| && NoNewClash(c, st.sessions, tt)
      && (forall p: Id :: p < |tt| && Affects(c, req, n, st.sessions[p]) ==> Settled(c, tt, p, c.requests[req].target))
      && (forall p: Id :: p < |tt| && !Affects(c, req, n, st.sessions[p]) ==> tt[p] == st.sessions[p])
      && (forall p: Id :: Settled(c, st.sessions, p, c.requests[req].target) ==>
            Settled(c, tt, p, c.requests[req].target))
  {
    hide Settled;
    hide NoNewClash;
    hide Linked;
    hide SameOccurrence;
    hide ShiftFirst;
    if c.items[n].request != req {
      NoNewClashReflexive(c, st.sessions);
    } else {
      StillLinked(c, st.items);
      var r := c.requests[req];
      var queue := InWindowSessions(st.sessions, c.items[n].schedule, r.windowStart, r.windowEnd);
      ShiftFirstSettles(c, c.(items := st.items), st.sessions, n, queue, |queue|, r.target, dean, now);
      assert queue[..|queue|] == queue;
    }
  }

  predicate AffectedBy(c: Campus, req: Id, n: nat, s: Session)
    requires req < |c.requests| && n <= |c.items|
  {
    exists m :: 0 <= m < n && Affects(c, req, m, s)
  }

  lemma {:induction false} ShiftItemsSettles(c: Campus, ss: seq<Session>, req: Id, n: nat, dean: Id, now: Instant)
    requires Linked(c) && SessionsLinked(c, ss) && req < |c.requests| && n <= |c.items|
    requires ShiftItems(c, ss, req, n, dean, now).Success?
    ensures
      var tt := ShiftItems(c, ss, req, n, dean, now).value.sessions;
      && NoNewClash(c, ss, tt)
      && (forall p: Id :: p < |ss| && AffectedBy(c, req, n, ss[p]) ==> Settled(c, tt, p, c.requests[req].target))
      && (forall p: Id :: p < |ss| && !AffectedBy(c, req, n, ss[p]) ==> tt[p] == ss[p])
  {
    hide Settled;
    hide NoNewClash;
    hide Linked;
    hide ShiftItemRow;
    if n == 0 {
      NoNewClashReflexive(c, ss);
    } else {
      ShiftItemsSettles(c, ss, req, n - 1, dean, now);
      var st := ShiftItems(c, ss, req, n - 1, dean, now).value;
      ShiftRowSettles(c, st, req, n - 1, dean, now);
      NoNewClashTransitive(c, ss, st.sessions, ShiftItems(c, ss, req, n, dean, now).value.sessions);
      forall p: Id | p < |ss| ensures AffectedBy(c, req, n, ss[p])
        <==> AffectedBy(c, req, n - 1, ss[p]) || Affects(c, req, n - 1, st.sessions[p])
      {
        assert SameOccurrence(ss[p], st.sessions[p]);
      }
    }
  }

  /* Instructors of retimed sessions */

  // The instructor of p teaches nothing else at p's time.
  predicate InstructorFree(ss: seq<Session>, p: Id) {
    p < |ss| && !FacultyHasConflict(ss, ss[p].faculty, ss[p].start, ss[p].end, Some(p))
  }

  // Occupying sessions whose instructor was free still have a free instructor.
  ghost predicate KeepsFree(ss: seq<Session>, tt: seq<Session>) {
    && |tt| == |ss| && (forall p :: 0 <= p < |ss| ==> (Occupying(tt[p]) <==> Occupying(ss[p])))
    && forall p: Id :: p < |ss| && Occupying(ss[p]) && InstructorFree(ss, p) ==> InstructorFree(tt, p)
  }

  lemma KeepsFreeComposes(ss: seq<Session>, mid: seq<Session>, tt: seq<Session>)
    ensures KeepsFree(ss, ss)
    ensures KeepsFree(ss, mid) && KeepsFree(mid, tt) ==> KeepsFree(ss, tt)
  {
  }

  // Reseating a session at its own time, or at a time its instructor is free, takes nobody else's.
  lemma ReseatKeepsFree(ss: seq<Session>, i: Id, t: Session)
    requires i < |ss| && t.faculty == ss[i].faculty && t.status == ss[i].status
    requires
      || (t.start == ss[i].start && t.end == ss[i].end)
      || !FacultyHasConflict(ss, t.faculty, t.start, t.end, Some(i))
    ensures KeepsFree(ss, ss[i := t])
    ensures !FacultyHasConflict(ss, t.faculty, t.start, t.end, Some(i)) ==> InstructorFree(ss[i := t], i)
  {
    var tt := ss[i := t];
    forall p: Id | p < |ss| && Occupying(ss[p]) && InstructorFree(ss, p) ensures InstructorFree(tt, p) {
      forall j | 0 <= j < |tt| && j != p && tt[j].faculty == tt[p].faculty && Occupying(tt[j])
        ensures !Overlaps(tt[j].start, tt[j].end, tt[p].start, tt[p].end)
      {
        assert j != i ==> tt[j] == ss[j];
        assert p != i ==> tt[p] == ss[p];
      }
    }
  }

  lemma ShiftOneKeepsFree(c: Campus, ss: seq<Session>, item: Id, i: Id, dean: Id, now: Instant)
    requires Linked(c) && SessionsLinked(c, ss) && item < |c.items| && i < |ss|
    requires ShiftOne(c, ss, item, i, dean, now).Success?
    ensures
      var tt := ShiftOne(c, ss, item, i, dean, now).value;
      KeepsFree(ss, tt) && (IsMove(c.items[item]) ==> InstructorFree(tt, i))
  {
    hide KeepsFree;
    hide FacultyHasConflict;
    hide InstructorFree;
    var tt := ShiftOne(c, ss, item, i, dean, now).value;
    ReseatKeepsFree(ss, i, tt[i]);
    assert tt == ss[i := tt[i]];
  }

  lemma {:induction false} ShiftFirstKeepsFree(
    c: Campus, ss: seq<Session>, item: Id, queue: seq<Id>, n: nat, dean: Id, now: Instant)
    requires Linked(c) && SessionsLinked(c, ss) && item < |c.items| && n <= |queue|
    requires forall j :: 0 <= j < |queue| ==> queue[j] < |ss| && Occupying(ss[queue[j]])
    requires ShiftFirst(c, ss, item, queue, n, dean, now).Success?
    ensures
      var tt := ShiftFirst(c, ss, item, queue, n, dean, now).value;
      KeepsFree(ss, tt) && (IsMove(c.items[item]) ==> AllFree(tt, queue[..n]))
  {
    hide ShiftOne;
    hide InstructorFree;
    hide KeepsFree;
    hide AllFree;
    hide Linked;
    if n == 0 {
      KeepsFreeComposes(ss, ss, ss);
      NoneFree(ss, queue);
    } else {
      ShiftFirstStep(c, ss, item, queue, n, dean, now);
      hide ShiftFirst;
      hide SameOccurrences;
      ShiftFirstKeepsFree(c, ss, item, queue, n - 1, dean, now);
      var mid := ShiftFirst(c, ss, item, queue, n - 1, dean, now).value;
      var tt := ShiftOne(c, mid, item, queue[n - 1], dean, now).value;
      ShiftOneKeepsFree(c, mid, item, queue[n - 1], dean, now);
      KeepsFreeComposes(ss, mid, tt);
      if IsMove(c.items[item]) {
        AllFreeGrows(ss, mid, tt, queue, n);
      }
    }
  }

  predicate AllFree(ss: seq<Session>, queue: seq<Id>) {
    forall j :: 0 <= j < |queue| ==> InstructorFree(ss, queue[j])
  }

  lemma NoneFree(ss: seq<Session>, queue: seq<Id>)
    ensures AllFree(ss, queue[..0])
  {
  }

  lemma AllFreeGrows(ss: seq<Session>, mid: seq<Session>, tt: seq<Session>, queue: seq<Id>, n: nat)
    requires 0 < n <= |queue| && forall j :: 0 <= j < |queue| ==> queue[j] < |ss| && Occupying(ss[queue[j]])
    requires KeepsFree(ss, mid) && KeepsFree(mid, tt)
    requires AllFree(mid, queue[..n - 1]) && InstructorFree(tt, queue[n - 1])
    ensures AllFree(tt, queue[..n])
  {
    hide InstructorFree;
    forall j | 0 <= j < n ensures InstructorFree(tt, queue[..n][j]) {
      assert j < n - 1 ==> queue[..n - 1][j] == queue[j];
    }
  }

  // The session is affected by an item of the first n that carries a time move.
  predicate RetimedBy(c: Campus, req: Id, n: nat, s: Session)
    requires req < |c.requests| && n <= |c.items|
  {
    exists m :: 0 <= m < n && Affects(c, req, m, s) && IsMove(c.items[m])
  }

  lemma ShiftRowKeepsFree(c: Campus, st: ShiftState, req: Id, n: Id, dean: Id, now: Instant)
    requires Linked(c) && StateLinked(c, st) && req < |c.requests| && n < |c.items|
    requires ShiftItemRow(c, st, req, n, dean, now).Success?
    ensures
      var tt := ShiftItemRow(c, st, req, n, dean, now).value.sessions;
      && KeepsFree(st.sessions, tt)
      && (IsMove(c.items[n]) ==>
            forall p: Id :: p < |tt| && Affects(c, req, n, st.sessions[p]) ==> InstructorFree(tt, p))
  {
    hide KeepsFree;
    hide InstructorFree;
    hide Linked;
    hide ShiftFirst;
    if c.items[n].request != req {
      KeepsFreeComposes(st.sessions, st.sessions, st.sessions);
    } else {
      StillLinked(c, st.items);
      var r := c.requests[req];
      var queue := InWindowSessions(st.sessions, c.items[n].schedule, r.windowStart, r.windowEnd);
      ShiftFirstKeepsFree(c.(items := st.items), st.sessions, n, queue, |queue|, dean, now);
      assert queue[..|queue|] == queue;
    }
  }

  lemma {:induction false} ShiftItemsKeepFree(c: Campus, ss: seq<Session>, req: Id, n: nat, dean: Id, now: Instant)
    requires Linked(c) && SessionsLinked(c, ss) && req < |c.requests| && n <= |c.items|
    requires ShiftItems(c, ss, req, n, dean, now).Success?
    ensures
      var tt := ShiftItems(c, ss, req, n, dean, now).value.sessions;
      && KeepsFree(ss, tt)
      && (forall p: Id :: p < |ss| && RetimedBy(c, req, n, ss[p]) ==> InstructorFree(tt, p))
  {
    hide InstructorFree;
    hide Linked;
    hide ShiftItemRow;
    if n == 0 {
      KeepsFreeComposes(ss, ss, ss);
    } else {
      ShiftItemsKeepFree(c, ss, req, n - 1, dean, now);
      var st := ShiftItems(c, ss, req, n - 1, dean, now).value;
      ShiftRowKeepsFree(c, st, req, n - 1, dean, now);
      KeepsFreeComposes(ss, st.sessions, ShiftItems(c, ss, req, n, dean, now).value.sessions);
      forall p: Id | p < |ss| && RetimedBy(c, req, n, ss[p])
        ensures RetimedBy(c, req, n - 1, ss[p]) || (Affects(c, req, n - 1, st.sessions[p]) && IsMove(c.items[n - 1]))
      {
        assert SameOccurrence(ss[p], st.sessions[p]);
      }
    }
  }

  /* The decision as a whole */

  // An approval creates no clash, and no affected session is left in one.
  lemma ApprovalNeverClashes(c: Campus, ss: seq<Session>, req: Id, dean: Id, now: Instant)
    requires Linked(c) && SessionsLinked(c, ss) && req < |c.requests|
    requires Consequence(c, ss, req, dean, now).Success?
    ensures
      var tt := Consequence(c, ss, req, dean, now).value.sessions;
      && |tt| == |ss| && SessionsLinked(c, tt)
      && NoNewClash(c, ss, tt)
      && (forall p: Id :: p < |ss| && InTicket(c, req, ss[p]) ==> Unclashed(c, tt, p))
  {
    hide ShiftItems;
    if c.requests[req].target.Online? {
      OnlineDropsClashes(c, ss, req, dean, now);
    } else {
      ShiftItemsSettles(c, ss, req, |c.items|, dean, now);
      assert forall p: Id :: p < |ss| ==> InTicket(c, req, ss[p]) == AffectedBy(c, req, |c.items|, ss[p]);
    }
  }

  lemma OnlineDropsClashes(c: Campus, ss: seq<Session>, req: Id, dean: Id, now: Instant)
    requires Linked(c) && SessionsLinked(c, ss) && req < |c.requests|
    ensures
      var tt := AllOnline(c, ss, req, dean, now);
      && SessionsLinked(c, tt) && NoNewClash(c, ss, tt)
      && (forall p: Id :: p < |ss| && InTicket(c, req, ss[p]) ==> Unclashed(c, tt, p))
  {
    hide HoldsRoom;
    hide BookingOccupies;
    hide InTicket;
    hide AllOnline;
    var tt := AllOnline(c, ss, req, dean, now);
    assert SessionsLinked(c, tt);
    forall p: Id | p < |ss| && HoldsRoom(c, tt[p]) ensures tt[p] == ss[p] && !InTicket(c, req, ss[p]) {
      OnlineHoldsNothing(c, ss[p], dean, now);
    }
    forall p: Id, q: Id | Clash(c, tt, p, q) ensures Clash(c, ss, p, q) {
      assert HoldsRoom(c, tt[p]) && HoldsRoom(c, tt[q]);
    }
  }

  lemma OnlineHoldsNothing(c: Campus, s: Session, dean: Id, now: Instant)
    requires s.schedule < |c.schedules|
    ensures !HoldsRoom(c, WentOnline(s, dean, now))
  {
  }

  // Approved: every affected session has the target modality and every other session is as it
  // was. (When it is not approved, ApplyApproval's own contract says nothing has changed.)
  lemma ApprovalReachesEverySession(c: Campus, ss: seq<Session>, req: Id, dean: Id, now: Instant, p: Id)
    requires Linked(c) && SessionsLinked(c, ss) && req < |c.requests| && p < |ss|
    requires Consequence(c, ss, req, dean, now).Success?
    ensures
      var tt := Consequence(c, ss, req, dean, now).value.sessions;
      && p < |tt|
      && (InTicket(c, req, ss[p]) ==> tt[p].declared == Some(c.requests[req].target) && Occupying(tt[p]))
      && (InTicket(c, req, ss[p]) && c.requests[req].target.Online? ==> tt[p].released.Some?)
      && (!InTicket(c, req, ss[p]) ==> tt[p] == ss[p])
      && tt[p].status == ss[p].status && tt[p].date == ss[p].date && tt[p].schedule == ss[p].schedule
  {
    hide ShiftItems;
    if !c.requests[req].target.Online? {
      ShiftItemsSettles(c, ss, req, |c.items|, dean, now);
      assert InTicket(c, req, ss[p]) == AffectedBy(c, req, |c.items|, ss[p]);
      assert SameOccurrence(ss[p], ShiftItems(c, ss, req, |c.items|, dean, now).value.sessions[p]);
    }
  }

  // An approved time move leaves no session it affects over another class of its instructor,
  // whatever the ticket's other items do.
  lemma RetimedInstructorsAreFree(c: Campus, ss: seq<Session>, req: Id, dean: Id, now: Instant, p: Id)
    requires Linked(c) && SessionsLinked(c, ss) && req < |c.requests| && p < |ss|
    requires !c.requests[req].target.Online? && RetimedBy(c, req, |c.items|, ss[p])
    requires Consequence(c, ss, req, dean, now).Success?
    ensures InstructorFree(Consequence(c, ss, req, dean, now).value.sessions, p)
  {
    hide ShiftItems;
    ShiftItemsKeepFree(c, ss, req, |c.items|, dean, now);
  }

  // A shift to a room takes hold exactly for the sessions whose room was never released: the
  // approval does not clear an earlier release.
  lemma HoldsUnlessReleased(c: Campus, ss: seq<Session>, req: Id, dean: Id, now: Instant, p: Id)
    requires Linked(c) && SessionsLinked(c, ss) && req < |c.requests| && p < |ss|
    requires !c.requests[req].target.Online?
    requires Consequence(c, ss, req, dean, now).Success? && InTicket(c, req, ss[p])
    ensures
      var tt := Consequence(c, ss, req, dean, now).value.sessions;
      p < |tt| && tt[p].schedule < |c.schedules| && (HoldsRoom(c, tt[p]) <==> ss[p].released.None?)
  {
    hide ShiftItems;
    ShiftItemsSettles(c, ss, req, |c.items|, dean, now);
    assert AffectedBy(c, req, |c.items|, ss[p]);
    assert SameOccurrence(ss[p], ShiftItems(c, ss, req, |c.items|, dean, now).value.sessions[p]);
  }
}
