/** What a checker's scan of a room means: the session it points at, and whether it may be acted on. */
module CheckerGate {
  import opened Calendar
  import opened Duty
  import opened Jobs
  import opened Queries
  import opened Tables
  import opened Wrappers

  datatype Action = Verified | FlagIdentityMismatch | FlagNotPresent | VerifiedEmpty

  datatype Validation = Validation(
    session: Option<Id>, room: Id, checker: Id, action: Action, identityMatch: Option<bool>,
    note: string, scannedAt: Instant, offline: bool)

  // A session counts as verified once any verification of it is on record.
  predicate VerifiedByChecker(validations: seq<Validation>, session: Id) {
    exists v :: v in validations && v.session == Some(session) && v.action.Verified?
  }

  /* The pure decision */

  datatype GateOutcome = OffDuty | WrongFloor | NoSession | ActiveUnverified | AlreadyVerified | AbsentExcluded

  datatype SessionState = SessionState(id: Id, status: SessionStatus, verified: bool)

  predicate Actionable(o: GateOutcome) {
    o.ActiveUnverified? || o.NoSession?
  }

  predicate Congruent(o: GateOutcome, a: Action) {
    if o.NoSession? then a.VerifiedEmpty? else o.ActiveUnverified? && !a.VerifiedEmpty?
  }

  function ResolveCheckerScan(floors: set<Id>, floor: Id, state: Option<SessionState>): GateOutcome {
    if floors == {} then OffDuty
    else if floor !in floors then WrongFloor
    else if state.None? || state.value.status.Scheduled? then NoSession
    else if state.value.status.Absent? then AbsentExcluded
    else if state.value.verified then AlreadyVerified
    else ActiveUnverified
  }

  /* The facts it is fed */

  predicate OnFloorDuty(c: Campus, p: Posting, user: Id, now: Instant) {
    && p.user == user && p.role.CheckerDuty? && p.scope.FloorScope? && p.active
    && ActiveTerm(c).Some? && p.term == ActiveTerm(c) && CoversInstant(p, now)
  }

  // The floors the checker is on duty for right now.
  function ActiveFloors(c: Campus, postings: seq<Posting>, user: Id, now: Instant): set<Id> {
    set p, f | p in postings && OnFloorDuty(c, p, user, now) && f in p.floors :: f
  }

  function IsActive(ss: seq<Session>): nat -> bool {
    (i: nat) => i < |ss| && ss[i].status.Active?
  }

  // The window is closed at both ends.
  function HoldsNow(ss: seq<Session>, now: Instant): nat -> bool {
    (i: nat) => i < |ss| && ss[i].start <= now <= ss[i].end
  }

  function NotOnline(c: Campus, ss: seq<Session>): nat -> bool
    requires SessionsLinked(c, ss)
  {
    (i: nat) => i < |ss| && !EffectiveModality(c, ss[i]).Online?
  }

  predicate MeetsIn(c: Campus, room: Id, d: Date, s: Session) {
    && s.room == room && s.date == d && ActiveTerm(c).Some?
    && s.schedule < |c.schedules| && Some(c.schedules[s.schedule].term) == ActiveTerm(c)
  }

  // Today's sessions of the room that have not finished, earliest start first.
  function RoomSessions(c: Campus, ss: seq<Session>, room: Id, now: Instant): (ids: seq<Id>)
    ensures forall i: Id :: i in ids <==> i < |ss| && MeetsIn(c, room, DateOf(now), ss[i]) && !ss[i].status.Completed?
  {
    OrderBy(
      IdsWhere(ss, (s: Session) => MeetsIn(c, room, DateOf(now), s) && !s.status.Completed?), StartOf(ss), KeyOf())
  }

  // The running session of the room, else the one whose window holds now; an online one reads
  // as an empty room.
  function RoomSession(c: Campus, ss: seq<Session>, room: Id, now: Instant): (r: Option<Id>)
    requires SessionsLinked(c, ss)
    ensures r.Some? ==>
      && r.value < |ss| && MeetsIn(c, room, DateOf(now), ss[r.value]) && !ss[r.value].status.Completed?
      && (ss[r.value].status.Active? || ss[r.value].start <= now <= ss[r.value].end)
      && !EffectiveModality(c, ss[r.value]).Online?
  {
    var ids := RoomSessions(c, ss, room, now);
    var running := First(ids, IsActive(ss));
    var pick := if running.Some? then running else First(ids, HoldsNow(ss, now));
    if pick.Some? && NotOnline(c, ss)(pick.value) then pick else None
  }

  // A stale session earlier in the day never hides the class that runs, or is due, right now.
  lemma CurrentClassIsShown(c: Campus, ss: seq<Session>, room: Id, now: Instant, i: Id)
    requires SessionsLinked(c, ss) && i < |ss|
    requires MeetsIn(c, room, DateOf(now), ss[i]) && !EffectiveModality(c, ss[i]).Online?
    requires
      || ss[i].status.Active?
      || (!ss[i].status.Completed? && ss[i].start <= now <= ss[i].end)
    requires forall j :: 0 <= j < |ss| && j != i && MeetsIn(c, room, DateOf(now), ss[j]) ==>
      && !ss[j].status.Active?
      && (ss[i].status.Active? || ss[j].status.Completed? || !(ss[j].start <= now <= ss[j].end)
          || ss[i].start < ss[j].start)
    ensures RoomSession(c, ss, room, now) == Some(i)
  {
    hide MeetsIn;
    hide EffectiveModality;
    hide OrderBy;
    hide IdsWhere;
    var ids := RoomSessions(c, ss, room, now);
    assert i in ids;
    if !ss[i].status.Active? {
      OrderBySorts(
        IdsWhere(ss, (s: Session) => MeetsIn(c, room, DateOf(now), s) && !s.status.Completed?), StartOf(ss), KeyOf());
      FirstIsLeast(ids, HoldsNow(ss, now), StartOf(ss), KeyOf());
    }
  }

  // The session whose window held the time of an old scan, whatever became of it since.
  function RoomSessionAtScan(c: Campus, ss: seq<Session>, room: Id, at: Instant): (r: Option<Id>)
    requires SessionsLinked(c, ss)
    ensures r.Some? ==>
      && r.value < |ss| && MeetsIn(c, room, DateOf(at), ss[r.value])
      && ss[r.value].start <= at <= ss[r.value].end && !EffectiveModality(c, ss[r.value]).Online?
  {
    First(
      OrderBy(
        IdsWhere(ss, (s: Session) => MeetsIn(c, room, DateOf(at), s) && s.start <= at <= s.end), StartOf(ss), KeyOf()),
      NotOnline(c, ss))
  }

  // The session could have been the one a scan at that time was of.
  predicate HeldAt(c: Campus, s: Session, room: Id, at: Instant)
    requires s.schedule < |c.schedules|
  {
    MeetsIn(c, room, DateOf(at), s) && s.start <= at && at <= s.end && !EffectiveModality(c, s).Online?
  }

  // An old scan never misses its session, and of several takes one that started first.
  lemma ScanSessionIsFirst(c: Campus, ss: seq<Session>, room: Id, at: Instant, i: Id)
    requires SessionsLinked(c, ss) && i < |ss| && HeldAt(c, ss[i], room, at)
    ensures
      var r := RoomSessionAtScan(c, ss, room, at);
      r.Some? && HeldAt(c, ss[r.value], room, at) && ss[r.value].start <= ss[i].start
  {
    hide MeetsIn;
    hide EffectiveModality;
    hide OrderBy;
    hide IdsWhere;
    var rows := IdsWhere(ss, (s: Session) => MeetsIn(c, room, DateOf(at), s) && s.start <= at <= s.end);
    var ids := OrderBy(rows, StartOf(ss), KeyOf());
    assert i in ids;
    OrderBySorts(rows, StartOf(ss), KeyOf());
    if First(ids, NotOnline(c, ss)).Some? {
      FirstIsLeast(ids, NotOnline(c, ss), StartOf(ss), KeyOf());
    }
  }

  function StateOf(ss: seq<Session>, validations: seq<Validation>, session: Option<Id>): Option<SessionState>
    requires session.Some? ==> session.value < |ss|
  {
    if session.None? then None
    else Some(SessionState(session.value, ss[session.value].status, VerifiedByChecker(validations, session.value)))
  }

  /** Everything a checker's request is judged against, at one moment. */
  datatype Situation = Situation(
    campus: Campus, sessions: seq<Session>, postings: seq<Posting>, user: Id, now: Instant,
    qrTokens: map<string, Id>, manualCodes: map<string, Id>)

  predicate WellFormed(w: Situation) {
    && Linked(w.campus) && SessionsLinked(w.campus, w.sessions)
    && (forall t :: t in w.qrTokens ==> w.qrTokens[t] < |w.campus.rooms|)
    && (forall t :: t in w.manualCodes ==> w.manualCodes[t] < |w.campus.rooms|)
  }

  function CurrentSession(w: Situation, room: Id): Option<Id>
    requires WellFormed(w)
  {
    RoomSession(w.campus, w.sessions, room, w.now)
  }

  function Gate(w: Situation, validations: seq<Validation>, room: Id): GateOutcome
    requires WellFormed(w) && room < |w.campus.rooms|
  {
    ResolveCheckerScan(
      ActiveFloors(w.campus, w.postings, w.user, w.now), w.campus.rooms[room].floor,
      StateOf(w.sessions, validations, CurrentSession(w, room)))
  }

  predicate OnDutyOn(w: Situation, floor: Id) {
    exists p :: p in w.postings && OnFloorDuty(w.campus, p, w.user, w.now) && floor in p.floors
  }

  predicate OnDutyAt(w: Situation, room: Id)
    requires WellFormed(w) && room < |w.campus.rooms|
  {
    OnDutyOn(w, w.campus.rooms[room].floor)
  }

  // The checker has some floor to be on right now.
  ghost predicate OnDutySomewhere(w: Situation) {
    exists floor: Id :: OnDutyOn(w, floor)
  }

  lemma SomeFloor(floors: set<Id>)
    ensures floors == {} <==> !exists f: Id :: f in floors
  {
    if floors != {} {
      var f :| f in floors;
    }
  }

  // Exactly when each outcome arises. A room is open to verification when its session is
  // running, or was cancelled but its hour is now: the gate does not look at cancellation.
  lemma GateMeans(w: Situation, validations: seq<Validation>, room: Id)
    requires WellFormed(w) && room < |w.campus.rooms|
    ensures
      var o := Gate(w, validations, room);
      var s := CurrentSession(w, room);
      && (o.OffDuty? <==> !OnDutySomewhere(w))
      && (o.WrongFloor? <==> OnDutySomewhere(w) && !OnDutyAt(w, room))
      && (o.AbsentExcluded? <==> OnDutyAt(w, room) && s.Some? && w.sessions[s.value].status.Absent?)
      && (o.AlreadyVerified? <==>
            && OnDutyAt(w, room) && s.Some?
            && (w.sessions[s.value].status.Active? || w.sessions[s.value].status.Cancelled?)
            && VerifiedByChecker(validations, s.value))
      && (o.NoSession? <==> OnDutyAt(w, room) && (s.None? || w.sessions[s.value].status.Scheduled?))
      && (o.ActiveUnverified? <==>
            && OnDutyAt(w, room) && s.Some?
            && (w.sessions[s.value].status.Active? || w.sessions[s.value].status.Cancelled?)
            && !VerifiedByChecker(validations, s.value))
  {
    hide OnFloorDuty;
    hide RoomSession;
    hide VerifiedByChecker;
    var floors := ActiveFloors(w.campus, w.postings, w.user, w.now);
    SomeFloor(floors);
    assert forall floor: Id :: floor in floors <==> OnDutyOn(w, floor);
  }

  // So a cancelled class, alone in its room at its own hour, is offered for verification.
  lemma CancelledClassReadsActive(w: Situation, validations: seq<Validation>, room: Id, i: Id)
    requires WellFormed(w) && room < |w.campus.rooms| && OnDutyAt(w, room) && i < |w.sessions|
    requires
      var s := w.sessions[i];
      && s.status.Cancelled? && MeetsIn(w.campus, room, DateOf(w.now), s) && s.start <= w.now <= s.end
      && !EffectiveModality(w.campus, s).Online?
    requires forall j :: 0 <= j < |w.sessions| && j != i ==> !MeetsIn(w.campus, room, DateOf(w.now), w.sessions[j])
    requires !VerifiedByChecker(validations, i)
    ensures Gate(w, validations, room).ActiveUnverified?
  {
    hide Gate;
    hide OnDutyAt;
    hide VerifiedByChecker;
    CurrentClassIsShown(w.campus, w.sessions, room, w.now, i);
    GateMeans(w, validations, room);
  }

  // What the session shown for a room is, in plain facts.
  lemma ShownSessionMeans(w: Situation, room: Id)
    requires WellFormed(w) && CurrentSession(w, room).Some?
    ensures
      var i := CurrentSession(w, room).value;
      && i < |w.sessions|
      && var s := w.sessions[i];
         && s.room == room && s.date == DateOf(w.now) && EffectiveModality(w.campus, s) != Online
         && w.campus.terms[w.campus.schedules[s.schedule].term].status == TermActive
         && s.status != Completed && (s.status == Active || (s.start <= w.now && w.now <= s.end))
  {
    hide EffectiveModality;
    hide RoomSessions;
  }

  // And the one an old scan was of.
  lemma ScannedSessionMeans(w: Situation, room: Id, at: Instant)
    requires WellFormed(w) && RoomSessionAtScan(w.campus, w.sessions, room, at).Some?
    ensures
      var i := RoomSessionAtScan(w.campus, w.sessions, room, at).value;
      && i < |w.sessions|
      && var s := w.sessions[i];
         && s.room == room && s.date == DateOf(at) && EffectiveModality(w.campus, s) != Online
         && w.campus.terms[w.campus.schedules[s.schedule].term].status == TermActive
         && s.start <= at && at <= s.end
  {
    hide EffectiveModality;
  }
}
