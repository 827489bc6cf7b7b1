/**
  What each service that writes sessions does to the world: the database together with, for each
  session, the suspension whose declaration cancelled it, as the audit log's cancellation entries
  record it.
 */
module SessionMoves {
  import opened Availability
  import opened Calendar
  import opened Duty
  import opened Foresight
  import opened Jobs
  import opened Materialization
  import opened MergeFill
  import OnlineAssignment
  import opened ScheduleOps
  import opened ShiftApproval
  import opened ShiftSafety
  import opened Suspensions
  import opened Tables
  import opened Wrappers

  datatype World = World(c: Campus, ss: seq<Session>, cause: seq<Option<Id>>)

  predicate Sound(w: World) {
    Linked(w.c) && SessionsLinked(w.c, w.ss) && |w.cause| == |w.ss|
  }

  /* The services, as functions of the world */

  // The cause after ids are (de)attributed.
  function Attribute(cause: seq<Option<Id>>, hit: nat -> bool, id: Option<Id>): (r: seq<Option<Id>>)
    ensures |r| == |cause| && forall i :: 0 <= i < |r| ==> r[i] == if hit(i) then id else cause[i]
  {
    seq(|cause|, i requires 0 <= i < |cause| => if hit(i) then id else cause[i])
  }

  function AfterSuspend(w: World, sup: Suspension): World
    requires Sound(w)
  {
    World(w.c.(suspensions := w.c.suspensions + [sup]), Suspended(w.c, w.ss, sup),
          Attribute(w.cause, (i: Id) => i < |w.ss| && Cancels(w.c, sup, w.ss[i]), Some(|w.c.suspensions|)))
  }

  // The suspension's term still takes writes.
  predicate Writable(c: Campus, id: Id)
    requires Linked(c) && id < |c.suspensions|
  {
    !c.terms[c.suspensions[id].term].status.TermArchived?
  }

  function AfterLift(w: World, id: Id, now: Instant): World
    requires Sound(w) && id < |w.c.suspensions|
  {
    var sup := w.c.suspensions[id];
    if sup.lifted.Some? || !Writable(w.c, id) then w
    else
      World(w.c.(suspensions := w.c.suspensions[id := sup.(lifted := Some(now))]), Lifted(w.c, w.ss, sup), w.cause)
  }

  function AfterEdit(w: World, k: Id, e: Edit, today: Date): World
    requires Sound(w) && k < |w.c.schedules|
  {
    var row := Edited(w.c.schedules[k], e);
    w.(c := w.c.(schedules := w.c.schedules[k := row]), ss := Propagated(w.ss, k, row, today))
  }

  function AfterDrop(w: World, k: Id, reason: string, today: Date): World
    requires Sound(w) && k < |w.c.schedules|
  {
    World(w.c.(schedules := w.c.schedules[k := w.c.schedules[k].(status := ScheduleArchived)]),
          Dropped(w.ss, k, today, DropReason(reason)),
          Attribute(w.cause, (i: Id) => i < |w.ss| && FutureScheduled(w.ss[i], k, today), None))
  }

  function AfterDecision(w: World, req: Id, dean: Id, now: Instant): World
    requires Sound(w) && req < |w.c.requests|
  {
    var r := w.c.requests[req];
    match Consequence(w.c, w.ss, req, dean, now)
    case Failure(reason) =>
      w.(c := w.c.(requests := w.c.requests[req := DecidedRow(r, Denied, reason, dean, now)]))
    case Success(st) =>
      w.(c := w.c.(requests := w.c.requests[req := DecidedRow(r, Approved, r.reason, dean, now)], items := st.items),
         ss := st.sessions)
  }

  function AfterMaterialization(w: World, tie: Ties, term: Id, from: Date, days: nat, now: Instant): World
    requires Sound(w) && term < |w.c.terms|
  {
    var tt := MaterializedTerm(w.c, tie, w.ss, term, from, days, now).sessions;
    World(w.c, tt, w.cause + seq(|tt| - |w.ss|, _ => None))
  }

  // Attendance writes the columns a scan writes and no other.
  predicate Attends(c: Campus, s: Session, t: Session) {
    && !t.status.Cancelled? && t.room < |c.rooms|
    && t == s.(status := t.status, actualStart := t.actualStart, actualEnd := t.actualEnd, checkin := t.checkin,
               room := t.room)
  }

  // A wrongly absent class was held after all, at its scheduled times where none were recorded.
  function Corrected(s: Session): Session {
    s.(status := Completed,
       actualStart := Some(if s.actualStart.Some? then s.actualStart.value else s.start),
       actualEnd := Some(if s.actualEnd.Some? then s.actualEnd.value else s.end))
  }

  /* What they spare */

  predicate Finished(s: Session) {
    s.status.Completed? || s.status.Absent?
  }

  // t is s, but for an online owner where there was none.
  predicate OwnerOnly(s: Session, t: Session) {
    t == s.(onlineChecker := t.onlineChecker) && (s.onlineChecker.Some? ==> t.onlineChecker == s.onlineChecker)
  }

  // Finished sessions keep all but a missing online owner.
  predicate Spares(ss: seq<Session>, tt: seq<Session>) {
    |ss| <= |tt| && forall i :: 0 <= i < |ss| && Finished(ss[i]) ==> OwnerOnly(ss[i], tt[i])
  }

  // No session is newly cancelled, and those still cancelled keep all but a missing online owner.
  predicate Quiet(ss: seq<Session>, tt: seq<Session>) {
    && |ss| <= |tt|
    && (forall i :: 0 <= i < |ss| && tt[i].status.Cancelled? ==> OwnerOnly(ss[i], tt[i]))
    && (forall i :: |ss| <= i < |tt| ==> !tt[i].status.Cancelled?)
  }

  lemma SweepIsQuiet(c: Campus, ss: seq<Session>, now: Instant, graceMinutes: int)
    requires Linked(c) && SessionsLinked(c, ss)
    ensures
      var tt := Swept(c, ss, now, graceMinutes);
      |tt| == |ss| && SessionsLinked(c, tt) && Quiet(ss, tt) && Spares(ss, tt)
  {
    hide ActiveTerm;
  }

  lemma FillsAreQuiet(c: Campus, ss: seq<Session>, anchor: Id, now: Instant)
    requires SessionsLinked(c, ss)
    ensures
      var tt := FilledPresent(c, ss, anchor, now);
      |tt| == |ss| && SessionsLinked(c, tt) && Quiet(ss, tt) && Spares(ss, tt)
    ensures
      var tt := FilledAbsent(c, ss, anchor);
      |tt| == |ss| && SessionsLinked(c, tt) && Quiet(ss, tt) && Spares(ss, tt)
  {
    hide Siblings;
  }

  lemma OneRowIsQuiet(c: Campus, ss: seq<Session>, i: Id, t: Session)
    requires SessionsLinked(c, ss) && i < |ss| && t.schedule == ss[i].schedule && t.room < |c.rooms|
    requires !t.status.Cancelled?
    ensures SessionsLinked(c, ss[i := t]) && Quiet(ss, ss[i := t])
    ensures !Finished(ss[i]) ==> Spares(ss, ss[i := t])
  {
  }

  lemma EditIsQuiet(w: World, k: Id, e: Edit, today: Date)
    requires Sound(w) && k < |w.c.schedules| && Edited(w.c.schedules[k], e).room < |w.c.rooms|
    ensures
      var w' := AfterEdit(w, k, e, today);
      Sound(w') && SameGround(w.c, w'.c) && Quiet(w.ss, w'.ss) && Spares(w.ss, w'.ss)
  {
    ItemsStayLinked(w.c, AfterEdit(w, k, e, today).c);
    hide ItemLinked;
  }

  lemma DecisionIsQuiet(w: World, req: Id, dean: Id, now: Instant)
    requires Sound(w) && req < |w.c.requests|
    ensures
      var w' := AfterDecision(w, req, dean, now);
      Sound(w') && SameGround(w.c, w'.c) && Quiet(w.ss, w'.ss) && Spares(w.ss, w'.ss) && w'.cause == w.cause
  {
    hide Consequence;
    var w' := AfterDecision(w, req, dean, now);
    if Consequence(w.c, w.ss, req, dean, now).Success? {
      StillLinked(w.c, w'.c.items);
      forall p: Id | p < |w.ss| && !Occupying(w.ss[p]) ensures w'.ss[p] == w.ss[p] {
        ApprovalReachesEverySession(w.c, w.ss, req, dean, now, p);
      }
      forall p: Id | p < |w.ss| ensures w'.ss[p].status == w.ss[p].status {
        ApprovalReachesEverySession(w.c, w.ss, req, dean, now, p);
      }
    }
    DecisionStaysLinked(w, req, dean, now);
  }

  lemma DecisionStaysLinked(w: World, req: Id, dean: Id, now: Instant)
    requires Sound(w) && req < |w.c.requests|
    ensures Sound(AfterDecision(w, req, dean, now))
  {
    hide Consequence;
    var w' := AfterDecision(w, req, dean, now);
    if Consequence(w.c, w.ss, req, dean, now).Success? {
      StillLinked(w.c, w'.c.items);
    }
    forall n | 0 <= n < |w'.c.items| ensures ItemLinked(w'.c, w'.c.items[n]) {
      assert ItemLinked(w.c.(items := w'.c.items), w'.c.items[n]);
    }
  }

  lemma MaterializationIsQuiet(w: World, tie: Ties, term: Id, from: Date, days: nat, now: Instant)
    requires Sound(w) && term < |w.c.terms|
    ensures
      var w' := AfterMaterialization(w, tie, term, from, days, now);
      && Sound(w') && Quiet(w.ss, w'.ss) && Spares(w.ss, w'.ss) && w.cause <= w'.cause
      && w'.c == w.c && forall i :: |w.cause| <= i < |w'.cause| ==> w'.cause[i].None?
  {
    hide MaterializedTerm;
    hide Newborn;
    hide Due;
    hide Materialized;
    var first, until := FirstDate(w.c, term, from), StopDate(w.c, term, from, days);
    MaterializationIsComplete(w.c, tie, w.ss, term, from, days, now);
    var tt := AfterMaterialization(w, tie, term, from, days, now).ss;
    forall i | |w.ss| <= i < |tt|
      ensures tt[i].status.Scheduled? && tt[i].schedule < |w.c.schedules| && tt[i].room < |w.c.rooms|
    {
      assert BornIn(w.c, tie, w.ss, tt[i], term, first, until, now);
      DueIsKnown(w.c, term, tt[i].schedule, tt[i].date);
    }
    forall i | 0 <= i < |w.ss| ensures tt[i] == w.ss[i] {
    }
  }

  lemma AssignmentIsQuiet(
    c: Campus, postings: seq<Posting>, term: Id, date: Date, ss: seq<Session>, tt: seq<Session>)
    requires SessionsLinked(c, ss) && OnlineAssignment.Assigns(c, postings, term, date, ss, tt)
    ensures |tt| == |ss| && SessionsLinked(c, tt) && Quiet(ss, tt) && Spares(ss, tt)
  {
    hide OnlineAssignment.Assigns;
    OnlineAssignment.AssignsKeepsLength(c, postings, term, date, ss, tt);
    forall i: Id | i < |ss| ensures OwnerOnly(ss[i], tt[i]) {
      OnlineAssignment.OnlyMissingOwners(c, postings, term, date, ss, tt, i);
    }
  }

  lemma ItemsStayLinked(c: Campus, d: Campus)
    requires Linked(c)
    requires |d.requests| == |c.requests| && |d.schedules| == |c.schedules| && d.rooms == c.rooms && d.items == c.items
    ensures forall n :: 0 <= n < |d.items| ==> ItemLinked(d, d.items[n])
  {
    forall n | 0 <= n < |d.items| ensures ItemLinked(d, d.items[n]) {
      assert ItemLinked(c, c.items[n]);
    }
  }

  /* A suspension's cancellations never outlive it */

  // The un-lifted suspension id covers s and would reinstate it.
  predicate CausedBy(c: Campus, s: Session, id: Id)
    requires Linked(c) && s.schedule < |c.schedules| && s.room < |c.rooms|
  {
    id < |c.suspensions| && c.suspensions[id].lifted.None? && Reinstates(c, c.suspensions[id], s)
  }

  // Every session cancelled by a suspension still has that suspension over it.
  predicate Caused(w: World)
    requires Sound(w)
  {
    forall i :: 0 <= i < |w.ss| && w.ss[i].status.Cancelled? && w.cause[i].Some? ==>
      CausedBy(w.c, w.ss[i], w.cause[i].value)
  }

  // Nothing a suspension's reach depends on differs.
  predicate SameGround(c: Campus, d: Campus) {
    && |c.schedules| == |d.schedules|
    && (forall k :: 0 <= k < |c.schedules| ==> c.schedules[k].term == d.schedules[k].term)
    && c.rooms == d.rooms && c.floors == d.floors && c.suspensions == d.suspensions
  }

  lemma QuietKeepsCauses(w: World, w': World)
    requires Sound(w) && Sound(w') && Caused(w)
    requires SameGround(w.c, w'.c) && Quiet(w.ss, w'.ss) && w.cause <= w'.cause
    ensures Caused(w')
  {
    hide ItemLinked;
    forall i | 0 <= i < |w'.ss| && w'.ss[i].status.Cancelled? && w'.cause[i].Some?
      ensures CausedBy(w'.c, w'.ss[i], w'.cause[i].value)
    {
      assert i < |w.ss| && OwnerOnly(w.ss[i], w'.ss[i]) && w'.cause[i] == w.cause[i];
      assert CausedBy(w.c, w.ss[i], w.cause[i].value);
    }
  }

  // A quiet rewrite of the sessions alone keeps the causes.
  lemma RowsKeepCauses(w: World, tt: seq<Session>)
    requires Sound(w) && Caused(w) && |tt| == |w.ss| && SessionsLinked(w.c, tt) && Quiet(w.ss, tt)
    ensures Sound(w.(ss := tt)) && Caused(w.(ss := tt))
  {
    hide Quiet;
    hide Caused;
    QuietKeepsCauses(w, w.(ss := tt));
  }

  lemma SuspendIsSound(w: World, sup: Suspension)
    requires Sound(w) && sup.term < |w.c.terms|
    ensures Sound(AfterSuspend(w, sup)) && Spares(w.ss, AfterSuspend(w, sup).ss)
  {
    hide InReach;
    hide ItemLinked;
    ItemsStayLinked(w.c, AfterSuspend(w, sup).c);
  }

  lemma SuspendKeepsCauses(w: World, sup: Suspension)
    requires Sound(w) && Caused(w) && sup.term < |w.c.terms| && sup.lifted.None?
    ensures Sound(AfterSuspend(w, sup)) && Caused(AfterSuspend(w, sup))
  {
    hide ItemLinked;
    SuspendIsSound(w, sup);
    var w' := AfterSuspend(w, sup);
    forall i | 0 <= i < |w'.ss| && w'.ss[i].status.Cancelled? && w'.cause[i].Some?
      ensures CausedBy(w'.c, w'.ss[i], w'.cause[i].value)
    {
      if !Cancels(w.c, sup, w.ss[i]) {
        assert CausedBy(w.c, w.ss[i], w.cause[i].value);
      }
    }
  }

  // Lifting changes neither the terms nor which term a suspension is of.
  predicate SameTerms(c: Campus, d: Campus) {
    && c.terms == d.terms && |c.suspensions| == |d.suspensions|
    && forall id :: 0 <= id < |c.suspensions| ==> c.suspensions[id].term == d.suspensions[id].term
  }

  lemma LiftIsSound(w: World, id: Id, now: Instant)
    requires Sound(w) && id < |w.c.suspensions|
    ensures
      var w' := AfterLift(w, id, now);
      && Sound(w') && |w'.ss| == |w.ss| && SameTerms(w.c, w'.c) && w'.cause == w.cause && Spares(w.ss, w'.ss)
  {
    hide InReach;
    hide ItemLinked;
    ItemsStayLinked(w.c, AfterLift(w, id, now).c);
  }

  lemma LiftKeepsCauses(w: World, id: Id, now: Instant)
    requires Sound(w) && Caused(w) && id < |w.c.suspensions|
    ensures Sound(AfterLift(w, id, now)) && Caused(AfterLift(w, id, now))
  {
    hide ItemLinked;
    LiftIsSound(w, id, now);
    var w' := AfterLift(w, id, now);
    forall i | 0 <= i < |w'.ss| && w'.ss[i].status.Cancelled? && w'.cause[i].Some?
      ensures CausedBy(w'.c, w'.ss[i], w'.cause[i].value)
    {
      assert w'.ss[i] == w.ss[i];
      assert CausedBy(w.c, w.ss[i], w.cause[i].value);
    }
  }

  lemma DropIsSound(w: World, k: Id, reason: string, today: Date)
    requires Sound(w) && k < |w.c.schedules|
    ensures
      var w' := AfterDrop(w, k, reason, today);
      Sound(w') && SameGround(w.c, w'.c) && Spares(w.ss, w'.ss)
  {
    hide ItemLinked;
    ItemsStayLinked(w.c, AfterDrop(w, k, reason, today).c);
  }

  lemma DropKeepsCauses(w: World, k: Id, reason: string, today: Date)
    requires Sound(w) && Caused(w) && k < |w.c.schedules|
    ensures Sound(AfterDrop(w, k, reason, today)) && Caused(AfterDrop(w, k, reason, today))
  {
    hide ItemLinked;
    DropIsSound(w, k, reason, today);
    var w' := AfterDrop(w, k, reason, today);
    forall i | 0 <= i < |w'.ss| && w'.ss[i].status.Cancelled? && w'.cause[i].Some?
      ensures CausedBy(w'.c, w'.ss[i], w'.cause[i].value)
    {
      assert w'.ss[i] == w.ss[i] && w'.cause[i] == w.cause[i];
      assert CausedBy(w.c, w.ss[i], w.cause[i].value);
    }
  }
}
