/** What an approval makes of each session and item of its ticket, and why a ticket is denied. */
module ShiftOutcome {
  import opened Availability
  import opened Calendar
  import opened Queries
  import opened ShiftApproval
  import opened ShiftSafety
  import opened Tables
  import opened Wrappers

  /* One session */

  predicate CarriesMove(it: ShiftItem) {
    it.newStart.Some? && it.newEnd.Some?
  }

  // Somebody's other SCHEDULED or ACTIVE session, of the same instructor, overlaps [x, y).
  predicate InstructorBusy(ss: seq<Session>, i: Id, x: Instant, y: Instant)
    requires i < |ss|
  {
    exists j :: 0 <= j < |ss| && j != i && ss[j].faculty == ss[i].faculty
                && (ss[j].status.Scheduled? || ss[j].status.Active?) && ss[j].start < y && x < ss[j].end
  }

  // Some room of the class's building is free for [x, y), the session's own seat aside.
  predicate HasRoom(c: Campus, ss: seq<Session>, item: Id, i: Id, x: Instant, y: Instant)
    requires Linked(c) && SessionsLinked(c, ss) && item < |c.items| && i < |ss|
  {
    assert ItemLinked(c, c.items[item]);
    exists room: Id :: room < |c.rooms|
      && BuildingOf(c, room) == BuildingOf(c, c.schedules[c.items[item].schedule].room)
      && RoomIsFree(c, ss, room, x, y, Some(i), None)
  }

  // t is s moved by the item: its time if it carries one, a room of the class's building, the
  // target modality and the decision's stamp; and nothing else of s is different.
  predicate SeatedBy(c: Campus, it: ShiftItem, s: Session, t: Session, dean: Id, now: Instant)
    requires Linked(c) && ItemLinked(c, it)
  {
    && t == s.(
         room := t.room, declared := Some(c.requests[it.request].target), changedAt := Some(now), changedBy := Some(dean),
         start := if CarriesMove(it) then At(s.date, it.newStart.value) else s.start,
         end := if CarriesMove(it) then At(s.date, it.newEnd.value) else s.end)
    && t.room < |c.rooms| && BuildingOf(c, t.room) == BuildingOf(c, c.schedules[it.schedule].room)
  }

  // Moving one session succeeds exactly when the item carries no time or the instructor is free
  // at that time, and the building has a free room; a refusal says which of the two it was. Its
  // own room is kept when free.
  lemma ShiftOneSucceedsIff(c: Campus, ss: seq<Session>, item: Id, i: Id, dean: Id, now: Instant)
    requires Linked(c) && SessionsLinked(c, ss) && item < |c.items| && i < |ss|
    ensures ItemLinked(c, c.items[item])
    ensures
      var it, s, r := c.items[item], ss[i], ShiftOne(c, ss, item, i, dean, now);
      var x := if CarriesMove(it) then At(s.date, it.newStart.value) else s.start;
      var y := if CarriesMove(it) then At(s.date, it.newEnd.value) else s.end;
      var busy, own := CarriesMove(it) && InstructorBusy(ss, i, x, y), c.schedules[it.schedule].room;
      && (r.Success? <==> !busy && HasRoom(c, ss, item, i, x, y))
      && (r.Failure? ==> r.error == if busy then DOUBLE_BOOKED else NO_ROOM)
      && (r.Success? ==>
            && r.value == ss[i := r.value[i]] && SeatedBy(c, it, s, r.value[i], dean, now)
            && RoomIsFree(c, ss, r.value[i].room, x, y, Some(i), None)
            && (RoomIsFree(c, ss, own, x, y, Some(i), None) ==> r.value[i].room == own))
  {
    hide RoomIsFree;
    hide FreeRoomsInBuilding;
    var it, s := c.items[item], ss[i];
    assert ItemLinked(c, it);
    var x, y := TargetStart(it, s), TargetEnd(it, s);
    assert InstructorBusy(ss, i, x, y) <==> FacultyHasConflict(ss, s.faculty, x, y, Some(i));
    var room := ResolveShiftRoom(c, ss, item, x, y, Some(i));
    assert room.Some? <==> HasRoom(c, ss, item, i, x, y);
  }

  /* One item */

  lemma SeatedTwice(c: Campus, it: ShiftItem, s: Session, t: Session, u: Session, dean: Id, now: Instant)
    requires Linked(c) && ItemLinked(c, it)
    requires SeatedBy(c, it, s, t, dean, now) && SeatedBy(c, it, t, u, dean, now)
    ensures SeatedBy(c, it, s, u, dean, now)
  {
  }

  // The listed sessions are moved by the item, and nothing else is.
  predicate QueueSeated(
    c: Campus, it: ShiftItem, ss: seq<Session>, tt: seq<Session>, queue: seq<Id>, dean: Id, now: Instant)
    requires Linked(c) && ItemLinked(c, it)
  {
    |tt| == |ss| && forall p: Id :: p < |ss| ==>
      if p in queue then SeatedBy(c, it, ss[p], tt[p], dean, now) else tt[p] == ss[p]
  }

  lemma QueueSeatedGrows(
    c: Campus, it: ShiftItem, ss: seq<Session>, mid: seq<Session>, tt: seq<Session>, queue: seq<Id>, i: Id,
    dean: Id, now: Instant)
    requires Linked(c) && ItemLinked(c, it) && QueueSeated(c, it, ss, mid, queue, dean, now) && i < |mid|
    requires |tt| == |mid| && tt == mid[i := tt[i]] && SeatedBy(c, it, mid[i], tt[i], dean, now)
    ensures QueueSeated(c, it, ss, tt, queue + [i], dean, now)
  {
    hide SeatedBy;
    if i in queue {
      SeatedTwice(c, it, ss[i], mid[i], tt[i], dean, now);
    }
  }

  lemma {:induction false} ShiftFirstSeats(
    c: Campus, ss: seq<Session>, item: Id, queue: seq<Id>, n: nat, dean: Id, now: Instant)
    requires Linked(c) && SessionsLinked(c, ss) && item < |c.items| && n <= |queue| && ItemLinked(c, c.items[item])
    requires forall j :: 0 <= j < |queue| ==> queue[j] < |ss|
    requires ShiftFirst(c, ss, item, queue, n, dean, now).Success?
    ensures QueueSeated(
      c, c.items[item], ss, ShiftFirst(c, ss, item, queue, n, dean, now).value, queue[..n], dean, now)
  {
    hide ShiftOne;
    hide SeatedBy;
    hide Linked;
    hide ItemLinked;
    if n > 0 {
      ShiftFirstStep(c, ss, item, queue, n, dean, now);
      ShiftFirstSeats(c, ss, item, queue, n - 1, dean, now);
      hide ShiftFirst;
      hide QueueSeated;
      var mid := ShiftFirst(c, ss, item, queue, n - 1, dean, now).value;
      ShiftOneSeats(c, mid, item, queue[n - 1], dean, now);
      var tt := ShiftOne(c, mid, item, queue[n - 1], dean, now).value;
      assert |mid| == |ss|;
      QueueSeatedGrows(c, c.items[item], ss, mid, tt, queue[..n - 1], queue[n - 1], dean, now);
      assert queue[..n] == queue[..n - 1] + [queue[n - 1]];
    }
  }

  lemma ShiftOneSeats(c: Campus, ss: seq<Session>, item: Id, i: Id, dean: Id, now: Instant)
    requires Linked(c) && SessionsLinked(c, ss) && item < |c.items| && i < |ss| && ItemLinked(c, c.items[item])
    requires ShiftOne(c, ss, item, i, dean, now).Success?
    ensures
      var tt := ShiftOne(c, ss, item, i, dean, now).value;
      |tt| == |ss| && tt == ss[i := tt[i]] && SeatedBy(c, c.items[item], ss[i], tt[i], dean, now)
  {
    hide ShiftOne;
    hide SeatedBy;
    ShiftOneSucceedsIff(c, ss, item, i, dean, now);
  }

  /* One row of the ticket */

  // The sessions item n affects are moved by it, and nothing else is.
  predicate RowSeated(c: Campus, req: Id, n: Id, ss: seq<Session>, tt: seq<Session>, dean: Id, now: Instant)
    requires Linked(c) && req < |c.requests| && n < |c.items| && ItemLinked(c, c.items[n])
  {
    |tt| == |ss| && forall p: Id :: p < |ss| ==>
      if Affects(c, req, n, ss[p]) then SeatedBy(c, c.items[n], ss[p], tt[p], dean, now) else tt[p] == ss[p]
  }

  lemma SeatedAlike(c: Campus, items: seq<ShiftItem>, n: Id, s: Session, t: Session, dean: Id, now: Instant)
    requires Linked(c) && OnlyRoomsDiffer(c, items) && RoomsLinked(c, items) && n < |items|
    ensures
      var c' := c.(items := items);
      && Linked(c') && ItemLinked(c', items[n]) && ItemLinked(c, c.items[n])
      && (SeatedBy(c', items[n], s, t, dean, now) <==> SeatedBy(c, c.items[n], s, t, dean, now))
  {
    StillLinked(c, items);
    assert ItemLinked(c, c.items[n]) && ItemLinked(c.(items := items), items[n]);
  }

  lemma RowLinked(c: Campus, items: seq<ShiftItem>, n: Id)
    requires Linked(c) && OnlyRoomsDiffer(c, items) && RoomsLinked(c, items) && n < |items|
    ensures Linked(c.(items := items)) && ItemLinked(c.(items := items), items[n]) && ItemLinked(c, c.items[n])
  {
    StillLinked(c, items);
  }

  lemma ShiftRowSeats(c: Campus, st: ShiftState, req: Id, n: Id, dean: Id, now: Instant)
    requires Linked(c) && StateLinked(c, st) && req < |c.requests| && n < |c.items|
    requires ShiftItemRow(c, st, req, n, dean, now).Success?
    ensures ItemLinked(c, c.items[n])
    ensures RowSeated(c, req, n, st.sessions, ShiftItemRow(c, st, req, n, dean, now).value.sessions, dean, now)
  {
    hide SeatedBy;
    hide SameOccurrence;
    hide ShiftFirst;
    hide RoomIsFree;
    RowLinked(c, st.items, n);
    hide Linked;
    hide ItemLinked;
    if c.items[n].request == req {
      var c', r := c.(items := st.items), c.requests[req];
      var queue := InWindowSessions(st.sessions, c.items[n].schedule, r.windowStart, r.windowEnd);
      ShiftFirstSeats(c', st.sessions, n, queue, |queue|, dean, now);
      assert queue[..|queue|] == queue;
      var tt := ShiftFirst(c', st.sessions, n, queue, |queue|, dean, now).value;
      forall p: Id | p < |tt| && p in queue ensures SeatedBy(c, c.items[n], st.sessions[p], tt[p], dean, now) {
        SeatedAlike(c, st.items, n, st.sessions[p], tt[p], dean, now);
      }
    }
  }

  /* The ticket */

  // Item m of the first n affects s and carries a time.
  predicate Retimes(c: Campus, req: Id, m: Id, s: Session)
    requires req < |c.requests| && m < |c.items|
  {
    Affects(c, req, m, s) && CarriesMove(c.items[m])
  }

  predicate LastRetime(c: Campus, req: Id, n: nat, m: Id, s: Session)
    requires req < |c.requests| && n <= |c.items|
  {
    m < n && Retimes(c, req, m, s) && forall j: Id :: m < j < n ==> !Retimes(c, req, j, s)
  }

  // t has the time that the last of the first n items to carry one for s gives it, or else its own.
  ghost predicate TimedBy(c: Campus, req: Id, n: nat, s: Session, t: Session)
    requires req < |c.requests| && n <= |c.items|
  {
    && (forall m: Id :: LastRetime(c, req, n, m, s) ==>
          t.start == At(s.date, c.items[m].newStart.value) && t.end == At(s.date, c.items[m].newEnd.value))
    && ((forall m: Id :: m < n ==> !Retimes(c, req, m, s)) ==> t.start == s.start && t.end == s.end)
  }

  // t is what the first n items make of s: untouched when none affects it, else seated in a room
  // of its class's building, at the time above, with the target modality and the stamp.
  ghost predicate Placed(c: Campus, req: Id, n: nat, s: Session, t: Session, dean: Id, now: Instant)
    requires Linked(c) && req < |c.requests| && n <= |c.items| && s.schedule < |c.schedules|
  {
    if !AffectedBy(c, req, n, s) then t == s
    else
      && t == s.(
           room := t.room, declared := Some(c.requests[req].target), changedAt := Some(now), changedBy := Some(dean),
           start := t.start, end := t.end)
      && t.room < |c.rooms| && BuildingOf(c, t.room) == BuildingOf(c, c.schedules[s.schedule].room)
      && TimedBy(c, req, n, s, t)
  }

  lemma PlacedNext(
    c: Campus, req: Id, n: Id, s: Session, mid: Session, t: Session, dean: Id, now: Instant)
    requires Linked(c) && req < |c.requests| && n < |c.items| && ItemLinked(c, c.items[n])
    requires s.schedule < |c.schedules| && Placed(c, req, n, s, mid, dean, now)
    requires if Affects(c, req, n, mid) then SeatedBy(c, c.items[n], mid, t, dean, now) else t == mid
    ensures Placed(c, req, n + 1, s, t, dean, now)
  {
    hide Linked;
    assert Affects(c, req, n, mid) <==> Affects(c, req, n, s);
    assert AffectedBy(c, req, n + 1, s) <==> AffectedBy(c, req, n, s) || Affects(c, req, n, s);
    Untimed(c, req, n, s);
    TimedNext(c, req, n, s, mid, t);
    hide TimedBy;
  }

  lemma Untimed(c: Campus, req: Id, n: nat, s: Session)
    requires req < |c.requests| && n <= |c.items|
    ensures !AffectedBy(c, req, n, s) ==> TimedBy(c, req, n, s, s)
  {
  }

  lemma TimedNext(c: Campus, req: Id, n: Id, s: Session, mid: Session, t: Session)
    requires req < |c.requests| && n < |c.items|
    ensures
      && TimedBy(c, req, n, s, mid) && mid.date == s.date
      && (if Retimes(c, req, n, s)
          then t.start == At(s.date, c.items[n].newStart.value) && t.end == At(s.date, c.items[n].newEnd.value)
          else t.start == mid.start && t.end == mid.end)
      ==> TimedBy(c, req, n + 1, s, t)
  {
    hide Affects;
    if Retimes(c, req, n, s) {
      var next := n + 1;
      forall m: Id | LastRetime(c, req, next, m, s) ensures m == n {
      }
    } else {
      SameRetimes(c, req, n, s);
    }
  }

  // An item that carries no time for s leaves the last one that does what it was.
  lemma SameRetimes(c: Campus, req: Id, n: Id, s: Session)
    requires req < |c.requests| && n < |c.items| && !Retimes(c, req, n, s)
    ensures forall m: Id :: LastRetime(c, req, n + 1, m, s) <==> LastRetime(c, req, n, m, s)
  {
    hide Retimes;
  }

  ghost predicate AllPlaced(c: Campus, req: Id, n: nat, ss: seq<Session>, tt: seq<Session>, dean: Id, now: Instant)
    requires Linked(c) && SessionsLinked(c, ss) && req < |c.requests| && n <= |c.items|
  {
    |tt| == |ss| && forall p: Id :: p < |ss| ==> Placed(c, req, n, ss[p], tt[p], dean, now)
  }

  lemma {:induction false} ShiftItemsPlace(c: Campus, ss: seq<Session>, req: Id, n: nat, dean: Id, now: Instant)
    requires Linked(c) && SessionsLinked(c, ss) && req < |c.requests| && n <= |c.items|
    requires ShiftItems(c, ss, req, n, dean, now).Success?
    ensures AllPlaced(c, req, n, ss, ShiftItems(c, ss, req, n, dean, now).value.sessions, dean, now)
  {
    hide Linked;
    hide SameOccurrences;
    hide ShiftItemRow;
    if n == 0 {
      NothingPlaced(c, req, ss, dean, now);
    } else {
      ShiftItemsStep(c, ss, req, n, dean, now);
      ShiftItemsPlace(c, ss, req, n - 1, dean, now);
      var st := ShiftItems(c, ss, req, n - 1, dean, now).value;
      hide ShiftItems;
      hide AllPlaced;
      hide RowSeated;
      ShiftRowSeats(c, st, req, n - 1, dean, now);
      RowPlaces(c, req, n - 1, ss, st.sessions, ShiftItemRow(c, st, req, n - 1, dean, now).value.sessions, dean, now);
    }
  }

  lemma NothingPlaced(c: Campus, req: Id, ss: seq<Session>, dean: Id, now: Instant)
    requires Linked(c) && SessionsLinked(c, ss) && req < |c.requests|
    ensures AllPlaced(c, req, 0, ss, ss, dean, now)
  {
    hide Linked;
  }

  // Unfolding the ticket by one item, apart from everything an item means.
  lemma ShiftItemsStep(c: Campus, ss: seq<Session>, req: Id, n: nat, dean: Id, now: Instant)
    requires Linked(c) && SessionsLinked(c, ss) && req < |c.requests| && 0 < n <= |c.items|
    requires ShiftItems(c, ss, req, n, dean, now).Success?
    ensures ShiftItems(c, ss, req, n - 1, dean, now).Success?
    ensures
      var st := ShiftItems(c, ss, req, n - 1, dean, now).value;
      && StateLinked(c, st) && |st.sessions| == |ss|
      && ShiftItemRow(c, st, req, n - 1, dean, now) == ShiftItems(c, ss, req, n, dean, now)
  {
    hide ShiftItemRow;
    hide Linked;
    hide StateLinked;
  }

  lemma RowPlaces(
    c: Campus, req: Id, n: Id, ss: seq<Session>, mid: seq<Session>, tt: seq<Session>, dean: Id, now: Instant)
    requires Linked(c) && SessionsLinked(c, ss) && req < |c.requests| && n < |c.items| && ItemLinked(c, c.items[n])
    requires AllPlaced(c, req, n, ss, mid, dean, now) && RowSeated(c, req, n, mid, tt, dean, now)
    ensures AllPlaced(c, req, n + 1, ss, tt, dean, now)
  {
    hide Linked;
    hide ItemLinked;
    hide Placed;
    hide SeatedBy;
    hide Affects;
    forall p: Id | p < |ss| ensures Placed(c, req, n + 1, ss[p], tt[p], dean, now) {
      PlacedNext(c, req, n, ss[p], mid[p], tt[p], dean, now);
    }
  }

  // The room, time, modality and stamp that an approval to a room gives each session.
  lemma ApprovalPlacesEverySession(c: Campus, ss: seq<Session>, req: Id, dean: Id, now: Instant, p: Id)
    requires Linked(c) && SessionsLinked(c, ss) && req < |c.requests| && p < |ss|
    requires !c.requests[req].target.Online? && Consequence(c, ss, req, dean, now).Success?
    ensures
      var tt := Consequence(c, ss, req, dean, now).value.sessions;
      p < |tt| && Placed(c, req, |c.items|, ss[p], tt[p], dean, now)
  {
    hide ShiftItems;
    hide Placed;
    ShiftItemsPlace(c, ss, req, |c.items|, dean, now);
  }

  // And to Online: each affected session keeps room and time, releases the room and is stamped.
  lemma OnlineApprovalOnlyReleases(c: Campus, ss: seq<Session>, req: Id, dean: Id, now: Instant, p: Id)
    requires Linked(c) && SessionsLinked(c, ss) && req < |c.requests| && p < |ss|
    requires c.requests[req].target.Online?
    ensures Consequence(c, ss, req, dean, now).Success?
    ensures
      var st := Consequence(c, ss, req, dean, now).value;
      && p < |st.sessions| && st.items == c.items
      && st.sessions[p] == if InTicket(c, req, ss[p])
                           then ss[p].(declared := Some(Online), released := Some(now), changedAt := Some(now),
                                       changedBy := Some(dean))
                           else ss[p]
  {
    hide AllOnline;
    hide InTicket;
  }

  /* Why a ticket is denied */

  lemma {:induction false} FirstFailure(
    c: Campus, ss: seq<Session>, item: Id, queue: seq<Id>, n: nat, dean: Id, now: Instant) returns (j: nat)
    requires Linked(c) && SessionsLinked(c, ss) && item < |c.items| && n <= |queue|
    requires forall j :: 0 <= j < |queue| ==> queue[j] < |ss|
    requires ShiftFirst(c, ss, item, queue, n, dean, now).Failure?
    ensures j < n && ShiftFirst(c, ss, item, queue, j, dean, now).Success?
    ensures ShiftOne(c, ShiftFirst(c, ss, item, queue, j, dean, now).value, item, queue[j], dean, now)
      == ShiftFirst(c, ss, item, queue, n, dean, now)
  {
    hide ShiftOne;
    hide Linked;
    if ShiftFirst(c, ss, item, queue, n - 1, dean, now).Failure? {
      j := FirstFailure(c, ss, item, queue, n - 1, dean, now);
    } else {
      j := n - 1;
    }
  }

  lemma {:induction false} FirstFailedRow(
    c: Campus, ss: seq<Session>, req: Id, n: nat, dean: Id, now: Instant) returns (m: Id)
    requires Linked(c) && SessionsLinked(c, ss) && req < |c.requests| && n <= |c.items|
    requires ShiftItems(c, ss, req, n, dean, now).Failure?
    ensures m < n && ShiftItems(c, ss, req, m, dean, now).Success?
    ensures ShiftItemRow(c, ShiftItems(c, ss, req, m, dean, now).value, req, m, dean, now)
      == ShiftItems(c, ss, req, n, dean, now)
  {
    hide ShiftItemRow;
    hide Linked;
    if ShiftItems(c, ss, req, n - 1, dean, now).Failure? {
      m := FirstFailedRow(c, ss, req, n - 1, dean, now);
    } else {
      m := n - 1;
    }
  }

  // Each session is as the first n items place it, or the first n + 1.
  ghost predicate HalfPlaced(c: Campus, req: Id, n: Id, ss: seq<Session>, mid: seq<Session>, dean: Id, now: Instant)
    requires Linked(c) && SessionsLinked(c, ss) && req < |c.requests| && n < |c.items|
  {
    |mid| == |ss| && forall p: Id :: p < |ss| ==>
      Placed(c, req, n, ss[p], mid[p], dean, now) || Placed(c, req, n + 1, ss[p], mid[p], dean, now)
  }

  // Session i cannot be seated by the item among the sessions mid, and why.
  predicate Unseatable(c: Campus, mid: seq<Session>, item: Id, i: Id, reason: string)
    requires Linked(c) && SessionsLinked(c, mid) && item < |c.items| && i < |mid|
  {
    var it, s := c.items[item], mid[i];
    var x := if CarriesMove(it) then At(s.date, it.newStart.value) else s.start;
    var y := if CarriesMove(it) then At(s.date, it.newEnd.value) else s.end;
    if CarriesMove(it) && InstructorBusy(mid, i, x, y) then reason == DOUBLE_BOOKED
    else reason == NO_ROOM && !HasRoom(c, mid, item, i, x, y)
  }

  // The items as the ticket has left them, with nothing but assigned rooms different, and the
  // session that could not be seated among the sessions as they then stood.
  ghost predicate Cause(
    c: Campus, ss: seq<Session>, req: Id, dean: Id, now: Instant, reason: string,
    n: Id, i: Id, items: seq<ShiftItem>, mid: seq<Session>)
    requires Linked(c) && SessionsLinked(c, ss) && req < |c.requests|
  {
    && n < |c.items| && c.items[n].request == req && i < |ss| && Affects(c, req, n, ss[i])
    && OnlyRoomsDiffer(c, items) && Linked(c.(items := items)) && SessionsLinked(c, mid)
    && HalfPlaced(c, req, n, ss, mid, dean, now) && Unseatable(c.(items := items), mid, n, i, reason)
  }

  // A ticket is denied only for a cause: after some of its sessions were placed as an approval
  // would place them, the next one had a busy instructor at its new time, or no free room.
  lemma DenialHasCause(c: Campus, ss: seq<Session>, req: Id, dean: Id, now: Instant)
    requires Linked(c) && SessionsLinked(c, ss) && req < |c.requests|
    requires Consequence(c, ss, req, dean, now).Failure?
    ensures !c.requests[req].target.Online?
    ensures exists n: Id, i: Id, items, mid ::
      Cause(c, ss, req, dean, now, Consequence(c, ss, req, dean, now).error, n, i, items, mid)
  {
    hide ShiftItems;
    hide Cause;
    var n, i, items, mid := FindCause(c, ss, req, dean, now);
  }

  lemma FindCause(c: Campus, ss: seq<Session>, req: Id, dean: Id, now: Instant)
    returns (n: Id, i: Id, items: seq<ShiftItem>, mid: seq<Session>)
    requires Linked(c) && SessionsLinked(c, ss) && req < |c.requests|
    requires ShiftItems(c, ss, req, |c.items|, dean, now).Failure?
    ensures Cause(c, ss, req, dean, now, ShiftItems(c, ss, req, |c.items|, dean, now).error, n, i, items, mid)
  {
    hide ShiftItemRow;
    hide Cause;
    n := FirstFailedRow(c, ss, req, |c.items|, dean, now);
    var st := ShiftItems(c, ss, req, n, dean, now).value;
    items := st.items;
    ShiftItemsPlace(c, ss, req, n, dean, now);
    hide ShiftItems;
    i, mid := FindRowCause(c, ss, st, req, n, dean, now);
  }

  lemma FindRowCause(c: Campus, ss: seq<Session>, st: ShiftState, req: Id, n: Id, dean: Id, now: Instant)
    returns (i: Id, mid: seq<Session>)
    requires Linked(c) && SessionsLinked(c, ss) && req < |c.requests| && n < |c.items| && StateLinked(c, st)
    requires AllPlaced(c, req, n, ss, st.sessions, dean, now) && SameOccurrences(ss, st.sessions)
    requires ShiftItemRow(c, st, req, n, dean, now).Failure?
    ensures Cause(c, ss, req, dean, now, ShiftItemRow(c, st, req, n, dean, now).error, n, i, st.items, mid)
  {
    hide ShiftFirst;
    hide ShiftOne;
    hide Placed;
    hide QueueSeated;
    hide HalfPlaced;
    hide AllPlaced;
    hide Unseatable;
    RowLinked(c, st.items, n);
    hide Linked;
    hide ItemLinked;
    var c', r := c.(items := st.items), c.requests[req];
    var queue := InWindowSessions(st.sessions, st.items[n].schedule, r.windowStart, r.windowEnd);
    var j := FirstFailure(c', st.sessions, n, queue, |queue|, dean, now);
    i, mid := queue[j], ShiftFirst(c', st.sessions, n, queue, j, dean, now).value;
    ShiftFirstSeats(c', st.sessions, n, queue, j, dean, now);
    QueueHalfPlaces(c, req, n, ss, st, mid, queue[..j], dean, now);
    FailureIsUnseatable(c', mid, n, i, dean, now);
    assert SameOccurrence(ss[i], st.sessions[i]);
  }

  lemma FailureIsUnseatable(c: Campus, mid: seq<Session>, item: Id, i: Id, dean: Id, now: Instant)
    requires Linked(c) && SessionsLinked(c, mid) && item < |c.items| && i < |mid|
    requires ShiftOne(c, mid, item, i, dean, now).Failure?
    ensures Unseatable(c, mid, item, i, ShiftOne(c, mid, item, i, dean, now).error)
  {
    hide ShiftOne;
    hide InstructorBusy;
    hide HasRoom;
    ShiftOneSucceedsIff(c, mid, item, i, dean, now);
  }

  lemma QueueHalfPlaces(
    c: Campus, req: Id, n: Id, ss: seq<Session>, st: ShiftState, mid: seq<Session>, queue: seq<Id>, dean: Id,
    now: Instant)
    requires Linked(c) && SessionsLinked(c, ss) && req < |c.requests| && n < |c.items| && StateLinked(c, st)
    requires Linked(c.(items := st.items)) && ItemLinked(c.(items := st.items), st.items[n])
    requires AllPlaced(c, req, n, ss, st.sessions, dean, now)
    requires forall j :: 0 <= j < |queue| ==> queue[j] < |st.sessions| && Affects(c, req, n, st.sessions[queue[j]])
    requires QueueSeated(c.(items := st.items), st.items[n], st.sessions, mid, queue, dean, now)
    ensures HalfPlaced(c, req, n, ss, mid, dean, now)
  {
    hide Placed;
    hide SeatedBy;
    hide Affects;
    hide Linked;
    forall p: Id | p < |ss|
      ensures Placed(c, req, n, ss[p], mid[p], dean, now) || Placed(c, req, n + 1, ss[p], mid[p], dean, now)
    {
      if p in queue {
        SeatedAlike(c, st.items, n, st.sessions[p], mid[p], dean, now);
        PlacedNext(c, req, n, ss[p], st.sessions[p], mid[p], dean, now);
      }
    }
  }

  /* The rooms a ticket reserves */

  // The affected session of item n with the latest date, there being no other on that date.
  predicate LastOf(c: Campus, req: Id, n: Id, ss: seq<Session>, p: Id)
    requires req < |c.requests| && n < |c.items|
  {
    p < |ss| && Affects(c, req, n, ss[p])
    && forall q :: 0 <= q < |ss| && q != p && Affects(c, req, n, ss[q]) ==> ss[q].date < ss[p].date
  }

  lemma QueueEndsWithLast(c: Campus, req: Id, n: Id, ss: seq<Session>, p: Id)
    requires req < |c.requests| && n < |c.items| && LastOf(c, req, n, ss, p)
    ensures
      var queue := InWindowSessions(
        ss, c.items[n].schedule, c.requests[req].windowStart, c.requests[req].windowEnd);
      queue != [] && queue[|queue| - 1] == p
  {
    var k, from, until := c.items[n].schedule, c.requests[req].windowStart, c.requests[req].windowEnd;
    var queue := InWindowSessions(ss, k, from, until);
    var rows := IdsWhere(ss, (s: Session) => InWindow(s, k, from, until));
    var byDate, byStart := (i: Id) => if i < |ss| then ss[i].date else 0, (i: Id) => if i < |ss| then ss[i].start else 0;
    OrderBySorts(rows, byDate, byStart);
    assert queue == OrderBy(rows, byDate, byStart);
    assert p in queue;
    var a :| 0 <= a < |queue| && queue[a] == p;
    var b := |queue| - 1;
    assert queue[b] in queue && Affects(c, req, n, ss[queue[b]]);
    if a != b {
      assert !ByKeys(byDate, byStart)(queue[b], queue[a]);
    }
  }

  // One row reserves, for its own item, the room its last session was seated in; no session, no
  // reservation; and no other item is changed.
  lemma RowReserves(c: Campus, st: ShiftState, req: Id, n: Id, dean: Id, now: Instant, p: Id)
    requires Linked(c) && StateLinked(c, st) && req < |c.requests| && n < |c.items|
    requires ShiftItemRow(c, st, req, n, dean, now).Success?
    ensures
      var r := ShiftItemRow(c, st, req, n, dean, now).value;
      && |r.items| == |st.items|
      && (forall m: Id :: m < |r.items| && m != n ==> r.items[m] == st.items[m])
      && ((forall q :: 0 <= q < |st.sessions| ==> !Affects(c, req, n, st.sessions[q])) ==> r == st)
      && (LastOf(c, req, n, st.sessions, p) ==> r.items[n].assignedRoom == Some(r.sessions[p].room))
  {
    hide ShiftFirst;
    hide Linked;
    hide SameOccurrence;
    if LastOf(c, req, n, st.sessions, p) {
      QueueEndsWithLast(c, req, n, st.sessions, p);
    }
    if c.items[n].request == req && forall q :: 0 <= q < |st.sessions| ==> !Affects(c, req, n, st.sessions[q]) {
      NothingQueued(c, st, req, n, dean, now);
    }
  }

  lemma NothingQueued(c: Campus, st: ShiftState, req: Id, n: Id, dean: Id, now: Instant)
    requires Linked(c) && StateLinked(c, st) && req < |c.requests| && n < |c.items| && c.items[n].request == req
    requires forall q :: 0 <= q < |st.sessions| ==> !Affects(c, req, n, st.sessions[q])
    ensures ShiftItemRow(c, st, req, n, dean, now) == Success(st)
  {
    hide ShiftOne;
    var r := c.requests[req];
    var queue := InWindowSessions(st.sessions, c.items[n].schedule, r.windowStart, r.windowEnd);
    HeadIsMember(queue);
  }

  // No later item of the ticket, up to until, asks for the class of item n again.
  predicate NotAskedAgain(c: Campus, req: Id, n: Id, until: nat)
    requires n < until <= |c.items|
  {
    forall m :: n < m < until && c.items[m].request == req ==> c.items[m].schedule != c.items[n].schedule
  }

  lemma SameLast(c: Campus, req: Id, n: Id, ss: seq<Session>, mid: seq<Session>, p: Id)
    requires req < |c.requests| && n < |c.items| && LastOf(c, req, n, ss, p) && SameOccurrences(ss, mid)
    ensures LastOf(c, req, n, mid, p)
  {
    forall q | 0 <= q < |mid| ensures Affects(c, req, n, mid[q]) <==> Affects(c, req, n, ss[q]) {
      assert SameOccurrence(ss[q], mid[q]);
    }
    assert SameOccurrence(ss[p], mid[p]);
  }

  lemma {:induction false} ItemsReserve(
    c: Campus, ss: seq<Session>, req: Id, until: nat, dean: Id, now: Instant, n: Id, p: Id)
    requires Linked(c) && SessionsLinked(c, ss) && req < |c.requests| && n < until <= |c.items|
    requires ShiftItems(c, ss, req, until, dean, now).Success?
    requires LastOf(c, req, n, ss, p) && NotAskedAgain(c, req, n, until)
    ensures
      var r := ShiftItems(c, ss, req, until, dean, now).value;
      |r.sessions| == |ss| && r.items[n].assignedRoom == Some(r.sessions[p].room)
  {
    hide ShiftItemRow;
    hide Linked;
    hide LastOf;
    hide SeatedBy;
    var m := until - 1;
    var st := ShiftItems(c, ss, req, m, dean, now).value;
    hide ShiftItems;
    if n == m {
      SameLast(c, req, n, ss, st.sessions, p);
      RowReserves(c, st, req, m, dean, now, p);
    } else {
      assert LastOf(c, req, n, ss, p) ==> p < |ss| && Affects(c, req, n, ss[p]) by {
        LastIsAffected(c, req, n, ss, p);
      }
      ItemsReserve(c, ss, req, m, dean, now, n, p);
      RowReserves(c, st, req, m, dean, now, p);
      ShiftRowSeats(c, st, req, m, dean, now);
      assert SameOccurrence(ss[p], st.sessions[p]);
      assert !Affects(c, req, m, st.sessions[p]);
    }
  }

  lemma LastIsAffected(c: Campus, req: Id, n: Id, ss: seq<Session>, p: Id)
    requires req < |c.requests| && n < |c.items| && LastOf(c, req, n, ss, p)
    ensures p < |ss| && Affects(c, req, n, ss[p])
  {
  }

  lemma {:induction false} OtherItemsStay(
    c: Campus, ss: seq<Session>, req: Id, until: nat, dean: Id, now: Instant, n: Id)
    requires Linked(c) && SessionsLinked(c, ss) && req < |c.requests| && n < |c.items| && until <= |c.items|
    requires ShiftItems(c, ss, req, until, dean, now).Success?
    requires c.items[n].request != req || until <= n
    ensures ShiftItems(c, ss, req, until, dean, now).value.items[n] == c.items[n]
  {
    hide ShiftItemRow;
    hide Linked;
    if until > 0 {
      OtherItemsStay(c, ss, req, until - 1, dean, now, n);
      var st := ShiftItems(c, ss, req, until - 1, dean, now).value;
      hide ShiftItems;
      RowReserves(c, st, req, until - 1, dean, now, 0);
      ForeignRow(c, st, req, until - 1, dean, now);
    }
  }

  lemma ForeignRow(c: Campus, st: ShiftState, req: Id, n: Id, dean: Id, now: Instant)
    requires Linked(c) && StateLinked(c, st) && req < |c.requests| && n < |c.items|
    ensures c.items[n].request != req ==> ShiftItemRow(c, st, req, n, dean, now) == Success(st)
  {
  }

  // An approval to a room reserves, for each class that the ticket asks for once, the room its last
  // session was seated in; and it leaves every other ticket's items alone.
  lemma ApprovalReservesLastRoom(c: Campus, ss: seq<Session>, req: Id, dean: Id, now: Instant, n: Id, p: Id)
    requires Linked(c) && SessionsLinked(c, ss) && req < |c.requests| && n < |c.items|
    requires !c.requests[req].target.Online? && Consequence(c, ss, req, dean, now).Success?
    ensures
      var st := Consequence(c, ss, req, dean, now).value;
      && (c.items[n].request != req ==> st.items[n] == c.items[n])
      && (LastOf(c, req, n, ss, p) && NotAskedAgain(c, req, n, |c.items|) ==>
            p < |st.sessions| && st.items[n].assignedRoom == Some(st.sessions[p].room))
  {
    hide ShiftItems;
    hide LastOf;
    if c.items[n].request != req {
      OtherItemsStay(c, ss, req, |c.items|, dean, now, n);
    }
    if LastOf(c, req, n, ss, p) && NotAskedAgain(c, req, n, |c.items|) {
      LastIsAffected(c, req, n, ss, p);
      ItemsReserve(c, ss, req, |c.items|, dean, now, n, p);
    }
  }

  // A class that cannot keep its own room gets the preferred one, when that is of the building
  // and free.
  lemma PreferredRoomComesNext(
    c: Campus, ss: seq<Session>, item: Id, start: Instant, end: Instant, own: Option<Id>, prefer: Id)
    requires Linked(c) && SessionsLinked(c, ss) && item < |c.items| && c.items[item].preferredRoom == Some(prefer)
    requires ItemLinked(c, c.items[item]) && prefer < |c.rooms|
    requires RoomIsFree(c, ss, prefer, start, end, own, None)
    requires BuildingOf(c, prefer) == BuildingOf(c, c.schedules[c.items[item].schedule].room)
    requires !RoomIsFree(c, ss, c.schedules[c.items[item].schedule].room, start, end, own, None)
    ensures ResolveShiftRoom(c, ss, item, start, end, own) == Some(prefer)
  {
    hide RoomIsFree;
    var building := BuildingOf(c, prefer);
    var free := FreeRoomsInBuilding(c, ss, building, start, end, own, Some(prefer));
    assert prefer in free;
    FirstFreeRoom(c, ss, building, start, end, own, Some(prefer));
  }

  /* The audit of a release */

  // The items of the ticket are of different classes.
  predicate AsksOnce(c: Campus, req: Id) {
    forall m, n :: 0 <= m < n < |c.items| && c.items[m].request == req && c.items[n].request == req ==>
      c.items[m].schedule != c.items[n].schedule
  }

  lemma {:induction false} AffectedOnce(c: Campus, ss: seq<Session>, req: Id, n: nat)
    requires req < |c.requests| && n <= |c.items| && AsksOnce(c, req)
    ensures Distinct(AffectedSessions(c, ss, req, n))
    ensures forall i :: i in AffectedSessions(c, ss, req, n) ==>
      i < |ss| && exists m :: 0 <= m < n && Affects(c, req, m, ss[i])
  {
    hide InWindowSessions;
    if n > 0 {
      AffectedOnce(c, ss, req, n - 1);
      if c.items[n - 1].request == req {
        var r := c.requests[req];
        var before, own := AffectedSessions(c, ss, req, n - 1),
          InWindowSessions(ss, c.items[n - 1].schedule, r.windowStart, r.windowEnd);
        QueueIsDistinct(ss, c.items[n - 1].schedule, r.windowStart, r.windowEnd);
        forall i | i in own ensures i < |ss| && Affects(c, req, n - 1, ss[i]) && i !in before {
          var j :| 0 <= j < |own| && own[j] == i;
        }
        DistinctTogether(before, own);
      }
    }
  }

  lemma QueueIsDistinct(ss: seq<Session>, k: Id, from: Date, until: Date)
    ensures Distinct(InWindowSessions(ss, k, from, until))
  {
    OrderByKeepsDistinct(
      IdsWhere(ss, (s: Session) => InWindow(s, k, from, until)),
      (i: Id) => if i < |ss| then ss[i].date else 0, (i: Id) => if i < |ss| then ss[i].start else 0);
  }

  lemma DistinctTogether(a: seq<Id>, b: seq<Id>)
    requires Distinct(a) && Distinct(b) && forall i :: i in b ==> i !in a
    ensures Distinct(a + b)
  {
    forall x, y | 0 <= x < y < |a + b| ensures (a + b)[x] != (a + b)[y] {
      if x < |a| <= y {
        assert a[x] in a && b[y - |a|] in b;
      }
    }
  }

  // A ticket to Online that asks for each class once leaves exactly one release entry for each
  // session it affects, and no other.
  lemma EachReleaseIsAuditedOnce(c: Campus, ss: seq<Session>, req: Id, i: Id)
    requires req < |c.requests| && i < |ss| && AsksOnce(c, req) && c.requests[req].target.Online?
    ensures multiset(ReleaseAudit(c, ss, req))[AuditEntry(RoomReleased, i)] == if InTicket(c, req, ss[i]) then 1 else 0
  {
    hide InTicket;
    var ids := AffectedSessions(c, ss, req, |c.items|);
    AffectedOnce(c, ss, req, |c.items|);
    MembersAreInTicket(c, ss, req, i);
    AuditCounts(RoomReleased, ids, i);
    hide AuditAll;
    AppearsOnce(ids, i);
    assert i in ids <==> i in multiset(ids);
  }

  lemma MembersAreInTicket(c: Campus, ss: seq<Session>, req: Id, i: Id)
    requires req < |c.requests| && i < |ss|
    ensures i in AffectedSessions(c, ss, req, |c.items|) <==> InTicket(c, req, ss[i])
  {
    var ids := AffectedSessions(c, ss, req, |c.items|);
    if i in ids {
      var j :| 0 <= j < |ids| && ids[j] == i;
    }
    if InTicket(c, req, ss[i]) {
      var m :| 0 <= m < |c.items| && Affects(c, req, m, ss[i]);
    }
  }

  lemma {:induction false} AuditCounts(event: AuditEvent, ids: seq<Id>, i: Id)
    ensures multiset(AuditAll(event, ids))[AuditEntry(event, i)] == multiset(ids)[i]
  {
    if ids != [] {
      var n := |ids| - 1;
      AuditCounts(event, ids[..n], i);
      AuditGrows(event, ids, n);
      assert ids[..n + 1] == ids && ids == ids[..n] + [ids[n]];
    }
  }
}
