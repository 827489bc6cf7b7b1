/**
  The Dean's approval of a modality-shift ticket: one transaction that re-resolves a room for
  every affected session, or leaves every session as it was.
 */
module ShiftApproval {
  import opened Availability
  import opened Calendar
  import opened Queries
  import opened Tables
  import opened Wrappers

  datatype Role = Faculty | Dean | OtherRole
  datatype User = User(id: Id, role: Role, department: Option<Id>)

  datatype ShiftError = ManyTerms | ArchivedTerm | NotTheRoutedDean | NotTheRequester | NotPending

  const DOUBLE_BOOKED := "the new time double-books the requesting faculty"
  const NO_ROOM := "No room available that day."

  /* Which sessions a ticket touches */

  predicate InWindow(s: Session, k: Id, from: Date, until: Date) {
    s.schedule == k && Occupying(s) && from <= s.date <= until
  }

  // SCHEDULED and ACTIVE sessions of class k dated inside the window, by date and start.
  function InWindowSessions(ss: seq<Session>, k: Id, from: Date, until: Date): (ids: seq<Id>)
    ensures forall j :: 0 <= j < |ids| ==> ids[j] in ids && ids[j] < |ss| && InWindow(ss[ids[j]], k, from, until)
    ensures forall i: Id :: i < |ss| && InWindow(ss[i], k, from, until) ==> i in ids
  {
    var ids := OrderBy(IdsWhere(ss, (s: Session) => InWindow(s, k, from, until)),
                       (i: Id) => if i < |ss| then ss[i].date else 0,
                       (i: Id) => if i < |ss| then ss[i].start else 0);
    assert forall j :: 0 <= j < |ids| ==> ids[j] in ids;
    ids
  }

  // Item n of the ticket affects a session like s.
  predicate Affects(c: Campus, req: Id, n: Id, s: Session)
    requires req < |c.requests| && n < |c.items|
  {
    c.items[n].request == req
    && InWindow(s, c.items[n].schedule, c.requests[req].windowStart, c.requests[req].windowEnd)
  }

  predicate InTicket(c: Campus, req: Id, s: Session)
    requires req < |c.requests|
  {
    exists n :: 0 <= n < |c.items| && Affects(c, req, n, s)
  }

  // The keys of the affected sessions of the first n items.
  function AffectedSessions(c: Campus, ss: seq<Session>, req: Id, n: nat): (ids: seq<Id>)
    requires req < |c.requests| && n <= |c.items|
    ensures forall j :: 0 <= j < |ids| ==> ids[j] < |ss| && InTicket(c, req, ss[ids[j]])
    ensures forall m, i: Id :: 0 <= m < n && i < |ss| && Affects(c, req, m, ss[i]) ==> i in ids
  {
    if n == 0 then
      []
    else if c.items[n - 1].request != req then
      AffectedSessions(c, ss, req, n - 1)
    else
      var r := c.requests[req];
      var own := InWindowSessions(ss, c.items[n - 1].schedule, r.windowStart, r.windowEnd);
      assert forall j :: 0 <= j < |own| ==> Affects(c, req, n - 1, ss[own[j]]);
      AffectedSessions(c, ss, req, n - 1) + own
  }

  /* Room resolution */

  // The original room when free, else the first free room of its building.
  function ResolveShiftRoom(
    c: Campus, ss: seq<Session>, item: Id, start: Instant, end: Instant, own: Option<Id>): (r: Option<Id>)
    requires Linked(c) && SessionsLinked(c, ss) && item < |c.items|
    ensures
      var original := c.schedules[c.items[item].schedule].room;
      && (RoomIsFree(c, ss, original, start, end, own, None) ==> r == Some(original))
      && (r.Some? ==> r.value < |c.rooms| && BuildingOf(c, r.value) == BuildingOf(c, original)
                      && RoomIsFree(c, ss, r.value, start, end, own, None))
      && (r.None? ==> forall room: Id :: room < |c.rooms| && BuildingOf(c, room) == BuildingOf(c, original) ==>
            !RoomIsFree(c, ss, room, start, end, own, None))
  {
    var original := c.schedules[c.items[item].schedule].room;
    if RoomIsFree(c, ss, original, start, end, own, None) then
      Some(original)
    else
      var free := FreeRoomsInBuilding(c, ss, BuildingOf(c, original), start, end, own, c.items[item].preferredRoom);
      if free == [] then
        assert forall room: Id :: room !in free;
        None
      else
        assert free[0] in free;
        Some(free[0])
  }

  /* One session */

  predicate IsMove(item: ShiftItem) {
    item.newStart.Some? && item.newEnd.Some?
  }

  function TargetStart(item: ShiftItem, s: Session): Instant {
    if IsMove(item) then At(s.date, item.newStart.value) else s.start
  }

  function TargetEnd(item: ShiftItem, s: Session): Instant {
    if IsMove(item) then At(s.date, item.newEnd.value) else s.end
  }

  // A shift rewrites place, time and modality; who, when dated, status and release stay.
  predicate SameOccurrence(s: Session, t: Session) {
    && t.schedule == s.schedule && t.faculty == s.faculty && t.date == s.date && t.status == s.status
    && t.actualStart == s.actualStart && t.actualEnd == s.actualEnd && t.checkin == s.checkin
    && t.released == s.released && t.cancelledReason == s.cancelledReason && t.onlineChecker == s.onlineChecker
  }

  predicate SameOccurrences(ss: seq<Session>, tt: seq<Session>) {
    |ss| == |tt| && forall i :: 0 <= i < |ss| ==> SameOccurrence(ss[i], tt[i])
  }

  function Reseat(
    c: Campus, ss: seq<Session>, i: Id, room: Id, start: Instant, end: Instant, target: Modality, dean: Id, now: Instant)
    : (tt: seq<Session>)
    requires SessionsLinked(c, ss) && i < |ss| && room < |c.rooms|
    ensures SessionsLinked(c, tt) && SameOccurrences(ss, tt)
    ensures forall j :: 0 <= j < |ss| && j != i ==> tt[j] == ss[j]
  {
    ss[i := ss[i].(room := room, declared := Some(target), changedAt := Some(now), changedBy := Some(dean),
                   start := start, end := end)]
  }

  function ShiftOne(c: Campus, ss: seq<Session>, item: Id, i: Id, dean: Id, now: Instant)
    : (r: Result<seq<Session>, string>)
    requires Linked(c) && SessionsLinked(c, ss) && item < |c.items| && i < |ss|
    ensures r.Success? ==> SessionsLinked(c, r.value) && SameOccurrences(ss, r.value)
    ensures r.Success? ==> forall j :: 0 <= j < |ss| && j != i ==> r.value[j] == ss[j]
  {
    var it, s := c.items[item], ss[i];
    var start, end := TargetStart(it, s), TargetEnd(it, s);
    if IsMove(it) && FacultyHasConflict(ss, s.faculty, start, end, Some(i)) then
      Failure(DOUBLE_BOOKED)
    else
      match ResolveShiftRoom(c, ss, item, start, end, Some(i))
      case None => Failure(NO_ROOM)
      case Some(room) =>
        Success(Reseat(c, ss, i, room, start, end, c.requests[it.request].target, dean, now))
  }

  /* One item, one ticket */

  // The first n sessions of the queue.
  function ShiftFirst(c: Campus, ss: seq<Session>, item: Id, queue: seq<Id>, n: nat, dean: Id, now: Instant)
    : (r: Result<seq<Session>, string>)
    requires Linked(c) && SessionsLinked(c, ss) && item < |c.items| && n <= |queue|
    requires forall j :: 0 <= j < |queue| ==> queue[j] < |ss|
    ensures r.Success? ==> SessionsLinked(c, r.value) && SameOccurrences(ss, r.value)
  {
    if n == 0 then
      Success(ss)
    else
      match ShiftFirst(c, ss, item, queue, n - 1, dean, now)
      case Failure(reason) => Failure(reason)
      case Success(tt) => ShiftOne(c, tt, item, queue[n - 1], dean, now)
  }

  datatype ShiftState = ShiftState(items: seq<ShiftItem>, sessions: seq<Session>)

  // The room of the last session moved is the item's reservation; no session, no reservation.
  function Reserved(tt: seq<Session>, queue: seq<Id>): (r: Option<Id>)
    requires forall j :: 0 <= j < |queue| ==> queue[j] < |tt|
  {
    if queue == [] then None else Some(tt[queue[|queue| - 1]].room)
  }

  // items differs from the campus's own items in assigned rooms only.
  predicate OnlyRoomsDiffer(c: Campus, items: seq<ShiftItem>) {
    |items| == |c.items|
    && forall n :: 0 <= n < |items| ==> items[n] == c.items[n].(assignedRoom := items[n].assignedRoom)
  }

  predicate RoomsLinked(c: Campus, items: seq<ShiftItem>) {
    forall n :: 0 <= n < |items| && items[n].assignedRoom.Some? ==> items[n].assignedRoom.value < |c.rooms|
  }

  function Assign(c: Campus, items: seq<ShiftItem>, n: Id, room: Option<Id>): (r: seq<ShiftItem>)
    requires OnlyRoomsDiffer(c, items) && RoomsLinked(c, items) && n < |items|
    requires room.Some? ==> room.value < |c.rooms|
    ensures OnlyRoomsDiffer(c, r) && RoomsLinked(c, r)
  {
    if room.None? then items else items[n := items[n].(assignedRoom := room)]
  }

  lemma StillLinked(c: Campus, items: seq<ShiftItem>)
    requires Linked(c) && OnlyRoomsDiffer(c, items) && RoomsLinked(c, items)
    ensures Linked(c.(items := items))
  {
    forall n | 0 <= n < |items| ensures ItemLinked(c, items[n]) {
      assert ItemLinked(c, c.items[n]);
    }
  }

  predicate StateLinked(c: Campus, st: ShiftState) {
    OnlyRoomsDiffer(c, st.items) && RoomsLinked(c, st.items) && SessionsLinked(c, st.sessions)
  }

  // Item n of the table, when it belongs to the ticket.
  function ShiftItemRow(c: Campus, st: ShiftState, req: Id, n: Id, dean: Id, now: Instant)
    : (r: Result<ShiftState, string>)
    requires Linked(c) && StateLinked(c, st) && req < |c.requests| && n < |c.items|
    ensures r.Success? ==> StateLinked(c, r.value) && SameOccurrences(st.sessions, r.value.sessions)
  {
    if st.items[n].request != req then
      Success(st)
    else
      StillLinked(c, st.items);
      var queue := InWindowSessions(
        st.sessions, st.items[n].schedule, c.requests[req].windowStart, c.requests[req].windowEnd);
      match ShiftFirst(c.(items := st.items), st.sessions, n, queue, |queue|, dean, now)
      case Failure(reason) => Failure(reason)
      case Success(tt) => Success(ShiftState(Assign(c, st.items, n, Reserved(tt, queue)), tt))
  }

  function ShiftItems(c: Campus, ss: seq<Session>, req: Id, n: nat, dean: Id, now: Instant)
    : (r: Result<ShiftState, string>)
    requires Linked(c) && SessionsLinked(c, ss) && req < |c.requests| && n <= |c.items|
    ensures r.Success? ==> StateLinked(c, r.value) && SameOccurrences(ss, r.value.sessions)
  {
    if n == 0 then
      assert forall m :: 0 <= m < |c.items| ==> ItemLinked(c, c.items[m]);
      Success(ShiftState(c.items, ss))
    else
      match ShiftItems(c, ss, req, n - 1, dean, now)
      case Failure(reason) => Failure(reason)
      case Success(st) => ShiftItemRow(c, st, req, n - 1, dean, now)
  }

  // Failure is final: nothing after it is tried.
  lemma {:induction false} FailureIsFinal(
    c: Campus, ss: seq<Session>, item: Id, queue: seq<Id>, m: nat, n: nat, dean: Id, now: Instant)
    requires Linked(c) && SessionsLinked(c, ss) && item < |c.items| && m <= n <= |queue|
    requires forall j :: 0 <= j < |queue| ==> queue[j] < |ss|
    requires ShiftFirst(c, ss, item, queue, m, dean, now).Failure?
    ensures ShiftFirst(c, ss, item, queue, n, dean, now) == ShiftFirst(c, ss, item, queue, m, dean, now)
  {
    hide ShiftOne;
    if m < n {
      FailureIsFinal(c, ss, item, queue, m, n - 1, dean, now);
      assert ShiftFirst(c, ss, item, queue, n - 1, dean, now).Failure?;
    }
  }

  lemma {:induction false} ItemFailureIsFinal(
    c: Campus, ss: seq<Session>, req: Id, m: nat, n: nat, dean: Id, now: Instant)
    requires Linked(c) && SessionsLinked(c, ss) && req < |c.requests| && m <= n <= |c.items|
    requires ShiftItems(c, ss, req, m, dean, now).Failure?
    ensures ShiftItems(c, ss, req, n, dean, now) == ShiftItems(c, ss, req, m, dean, now)
  {
    hide ShiftItemRow;
    if m < n {
      ItemFailureIsFinal(c, ss, req, m, n - 1, dean, now);
      assert ShiftItems(c, ss, req, n - 1, dean, now).Failure?;
    }
  }

  method ApplySession(db: Database, item: Id, i: Id, dean: Id, now: Instant) returns (deny: Option<string>)
    requires db.Valid() && item < |db.items| && i < |db.sessions|
    modifies db`sessions
    ensures match ShiftOne(old(db.Context()), old(db.sessions), item, i, dean, now)
            case Failure(reason) => deny == Some(reason) && db.sessions == old(db.sessions)
            case Success(tt) => deny == None && db.sessions == tt
  {
    var it, s := db.items[item], db.sessions[i];
    var start, end := s.start, s.end;
    if IsMove(it) {
      start, end := At(s.date, it.newStart.value), At(s.date, it.newEnd.value);
      if FacultyHasConflict(db.sessions, s.faculty, start, end, Some(i)) {
        return Some(DOUBLE_BOOKED);
      }
    }
    var room := ResolveShiftRoom(db.Context(), db.sessions, item, start, end, Some(i));
    if room.None? {
      return Some(NO_ROOM);
    }
    var target := db.requests[it.request].target;
    db.sessions := db.sessions[i := s.(
      room := room.value, declared := Some(target), changedAt := Some(now), changedBy := Some(dean),
      start := start, end := end)];
    deny := None;
  }

  method ApplyItem(db: Database, item: Id, queue: seq<Id>, dean: Id, now: Instant)
    returns (deny: Option<string>, resolved: Option<Id>)
    requires db.Valid() && item < |db.items|
    requires forall j :: 0 <= j < |queue| ==> queue[j] < |db.sessions|
    modifies db`sessions
    ensures match ShiftFirst(old(db.Context()), old(db.sessions), item, queue, |queue|, dean, now)
            case Failure(reason) => deny == Some(reason)
            case Success(tt) => deny == None && db.sessions == tt && resolved == Reserved(tt, queue)
  {
    ghost var c, ss := db.Context(), db.sessions;
    resolved := None;
    for n := 0 to |queue|
      invariant db.Context() == c && SessionsLinked(c, db.sessions) && |db.sessions| == |ss|
      invariant ShiftFirst(c, ss, item, queue, n, dean, now) == Success(db.sessions)
      invariant resolved == Reserved(db.sessions, queue[..n])
    {
      deny := ApplySession(db, item, queue[n], dean, now);
      if deny.Some? {
        FailureIsFinal(c, ss, item, queue, n + 1, |queue|, dean, now);
        return;
      }
      resolved := Some(db.sessions[queue[n]].room);
    }
    assert queue[..|queue|] == queue;
    deny := None;
  }

  method ApplyRow(db: Database, ghost c: Campus, req: Id, n: Id, dean: Id, now: Instant) returns (deny: Option<string>)
    requires Linked(c) && db.Context() == c.(items := db.items)
    requires StateLinked(c, ShiftState(db.items, db.sessions))
    requires req < |db.requests| && n < |db.items|
    modifies db`sessions, db`items
    ensures match ShiftItemRow(c, ShiftState(old(db.items), old(db.sessions)), req, n, dean, now)
            case Failure(reason) => deny == Some(reason)
            case Success(st) => deny == None && db.sessions == st.sessions && db.items == st.items
  {
    if db.items[n].request != req {
      return None;
    }
    StillLinked(c, db.items);
    var request := db.requests[req];
    var queue := InWindowSessions(db.sessions, db.items[n].schedule, request.windowStart, request.windowEnd);
    var resolved;
    deny, resolved := ApplyItem(db, n, queue, dean, now);
    if deny.None? && resolved.Some? {
      db.items := db.items[n := db.items[n].(assignedRoom := resolved)];
    }
  }

  method ApplyF2F(db: Database, req: Id, dean: Id, now: Instant) returns (deny: Option<string>)
    requires db.Valid() && req < |db.requests|
    modifies db`sessions, db`items
    ensures match ShiftItems(old(db.Context()), old(db.sessions), req, |old(db.items)|, dean, now)
            case Failure(reason) => deny == Some(reason)
            case Success(st) => deny == None && db.sessions == st.sessions && db.items == st.items
  {
    hide ShiftItemRow;
    ghost var c, ss := db.Context(), db.sessions;
    for n := 0 to |db.items|
      invariant |db.items| == |c.items| && db.Context() == c.(items := db.items)
      invariant ShiftItems(c, ss, req, n, dean, now) == Success(ShiftState(db.items, db.sessions))
    {
      deny := ApplyRow(db, c, req, n, dean, now);
      if deny.Some? {
        ItemFailureIsFinal(c, ss, req, n + 1, |c.items|, dean, now);
        return;
      }
    }
    deny := None;
  }

  /* To Online: flip and release */

  function OnlineFirst(ss: seq<Session>, ids: seq<Id>, n: nat, dean: Id, now: Instant): (r: seq<Session>)
    requires n <= |ids| && forall j :: 0 <= j < |ids| ==> ids[j] < |ss|
    ensures |r| == |ss|
    ensures forall i :: 0 <= i < |ss| ==> r[i] == if i in ids[..n] then WentOnline(ss[i], dean, now) else ss[i]
  {
    if n == 0 then
      ss
    else
      assert ids[..n] == ids[..n - 1] + [ids[n - 1]];
      var r := OnlineFirst(ss, ids, n - 1, dean, now);
      r[ids[n - 1] := WentOnline(r[ids[n - 1]], dean, now)]
  }

  // Every affected session of the ticket, and no other, goes online.
  function AllOnline(c: Campus, ss: seq<Session>, req: Id, dean: Id, now: Instant): (r: seq<Session>)
    requires req < |c.requests|
    ensures |r| == |ss|
    ensures forall i :: 0 <= i < |ss| ==> r[i] == if InTicket(c, req, ss[i]) then WentOnline(ss[i], dean, now) else ss[i]
  {
    var ids := AffectedSessions(c, ss, req, |c.items|);
    assert ids[..|ids|] == ids;
    assert forall i :: 0 <= i < |ss| ==> (i in ids <==> InTicket(c, req, ss[i])) by {
      forall i | 0 <= i < |ss| && InTicket(c, req, ss[i]) ensures i in ids {
        var m :| 0 <= m < |c.items| && Affects(c, req, m, ss[i]);
      }
    }
    OnlineFirst(ss, ids, |ids|, dean, now)
  }

  function WentOnline(s: Session, dean: Id, now: Instant): Session {
    s.(declared := Some(Online), changedAt := Some(now), changedBy := Some(dean), released := Some(now))
  }

  // One session goes Online and gives its room up.
  method GoOnline(db: Database, i: Id, dean: Id, now: Instant)
    requires i < |db.sessions|
    modifies db`sessions, db`audit
    ensures db.sessions == old(db.sessions)[i := WentOnline(old(db.sessions)[i], dean, now)]
    ensures db.audit == old(db.audit) + [AuditEntry(RoomReleased, i)]
  {
    db.sessions := db.sessions[i := db.sessions[i].(
      declared := Some(Online), changedAt := Some(now), changedBy := Some(dean))];
    db.sessions := db.sessions[i := db.sessions[i].(released := Some(now))];
    db.audit := db.audit + [AuditEntry(RoomReleased, i)];
  }

  method ApplyOnline(db: Database, ids: seq<Id>, dean: Id, now: Instant)
    requires forall j :: 0 <= j < |ids| ==> ids[j] < |db.sessions|
    modifies db`sessions, db`audit
    ensures db.sessions == OnlineFirst(old(db.sessions), ids, |ids|, dean, now)
    ensures db.audit == old(db.audit) + AuditAll(RoomReleased, ids)
  {
    ghost var ss, log := db.sessions, db.audit;
    NoneOnline(ss, ids, dean, now);
    hide OnlineFirst;
    hide AuditAll;
    hide WentOnline;
    for n := 0 to |ids|
      invariant |db.sessions| == |ss| && db.sessions == OnlineFirst(ss, ids, n, dean, now)
      invariant db.audit == log + AuditAll(RoomReleased, ids[..n])
    {
      var i := ids[n];
      OnlineStep(ss, ids, n, dean, now);
      AuditGrows(RoomReleased, ids, n);
      GoOnline(db, i, dean, now);
    }
    assert ids[..|ids|] == ids;
  }

  lemma NoneOnline(ss: seq<Session>, ids: seq<Id>, dean: Id, now: Instant)
    requires forall j :: 0 <= j < |ids| ==> ids[j] < |ss|
    ensures OnlineFirst(ss, ids, 0, dean, now) == ss && AuditAll(RoomReleased, ids[..0]) == []
  {
  }

  lemma OnlineStep(ss: seq<Session>, ids: seq<Id>, n: nat, dean: Id, now: Instant)
    requires n < |ids| && forall j :: 0 <= j < |ids| ==> ids[j] < |ss|
    ensures
      var r := OnlineFirst(ss, ids, n, dean, now);
      OnlineFirst(ss, ids, n + 1, dean, now) == r[ids[n] := WentOnline(r[ids[n]], dean, now)]
  {
  }

  /* The decision */

  function TermIds(c: Campus, req: Id): set<Id>
    requires Linked(c)
  {
    set n | 0 <= n < |c.items| && c.items[n].request == req :: TermOfItem(c, n)
  }

  function TermOfItem(c: Campus, n: Id): Id
    requires Linked(c) && n < |c.items|
  {
    assert ItemLinked(c, c.items[n]);
    c.schedules[c.items[n].schedule].term
  }

  // Why a ticket cannot be decided at all; None when the Dean may go ahead.
  function DecisionRefusal(c: Campus, req: Id, dean: User): Option<ShiftError>
    requires Linked(c) && req < |c.requests|
  {
    if |TermIds(c, req)| != 1 then Some(ManyTerms)
    else if exists t :: t in TermIds(c, req) && t < |c.terms| && c.terms[t].status.TermArchived? then Some(ArchivedTerm)
    else if !dean.role.Dean? || c.requests[req].department != dean.department then Some(NotTheRoutedDean)
    else if !c.requests[req].status.Pending? then Some(NotPending)
    else None
  }

  function Consequence(c: Campus, ss: seq<Session>, req: Id, dean: Id, now: Instant)
    : (r: Result<ShiftState, string>)
    requires Linked(c) && SessionsLinked(c, ss) && req < |c.requests|
    ensures r.Success? ==> StateLinked(c, r.value) && |r.value.sessions| == |ss|
  {
    if c.requests[req].target.Online? then
      assert forall m :: 0 <= m < |c.items| ==> ItemLinked(c, c.items[m]);
      Success(ShiftState(c.items, AllOnline(c, ss, req, dean, now)))
    else
      ShiftItems(c, ss, req, |c.items|, dean, now)
  }

  function DecidedRow(r: ShiftRequest, status: ShiftStatus, reason: string, dean: Id, now: Instant): ShiftRequest {
    r.(status := status, reason := reason, decidedAt := Some(now), decidedBy := Some(dean))
  }

  // Only a shift to Online releases rooms, one entry per affected session.
  function ReleaseAudit(c: Campus, ss: seq<Session>, req: Id): seq<AuditEntry>
    requires req < |c.requests|
  {
    if c.requests[req].target.Online? then AuditAll(RoomReleased, AffectedSessions(c, ss, req, |c.items|)) else []
  }

  method ApplyApproval(db: Database, req: Id, dean: User, now: Instant) returns (r: Result<ShiftStatus, ShiftError>)
    requires db.Valid() && req < |db.requests|
    modifies db`sessions, db`items, db`requests, db`audit
    ensures DecisionRefusal(old(db.Context()), req, dean).Some? ==>
      && r == Failure(DecisionRefusal(old(db.Context()), req, dean).value)
      && unchanged(db)
    ensures DecisionRefusal(old(db.Context()), req, dean).None? ==>
      match Consequence(old(db.Context()), old(db.sessions), req, dean.id, now)
      case Failure(reason) =>
        && r == Success(Denied)
        && db.sessions == old(db.sessions) && db.items == old(db.items) && db.audit == old(db.audit)
        && db.requests == old(db.requests)[req := DecidedRow(old(db.requests)[req], Denied, reason, dean.id, now)]
      case Success(st) =>
        && r == Success(Approved)
        && db.sessions == st.sessions && db.items == st.items
        && db.requests == old(db.requests)[req :=
             DecidedRow(old(db.requests)[req], Approved, old(db.requests)[req].reason, dean.id, now)]
        && db.audit == old(db.audit) + ReleaseAudit(old(db.Context()), old(db.sessions), req)
  {
    var row := db.requests[req];
    var refusal := DecisionRefusal(db.Context(), req, dean);
    if refusal.Some? {
      return Failure(refusal.value);
    }
    var affected := AffectedSessions(db.Context(), db.sessions, req, |db.items|);
    var sessions, items, audit := db.sessions, db.items, db.audit;
    var deny := None;
    if row.target.Online? {
      ApplyOnline(db, affected, dean.id, now);
    } else {
      deny := ApplyF2F(db, req, dean.id, now);
    }
    if deny.Some? {
      db.sessions, db.items, db.audit := sessions, items, audit;
      db.requests := db.requests[req := row.(
        status := Denied, reason := deny.value, decidedAt := Some(now), decidedBy := Some(dean.id))];
      return Success(Denied);
    }
    db.requests := db.requests[req := row.(status := Approved, decidedAt := Some(now), decidedBy := Some(dean.id))];
    return Success(Approved);
  }
}