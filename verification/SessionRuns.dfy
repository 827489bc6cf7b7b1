/**
  Every interleaving of the services that write sessions. A service that refuses writes nothing,
  so, but for a lift, whose effect is claimed below, the moves leave the refusals out: there are
  then more runs than the program has, and what holds along all of them holds along its own.
 */
module SessionRuns {
  import opened Calendar
  import opened Duty
  import opened Jobs
  import opened Materialization
  import opened MergeFill
  import OnlineAssignment
  import opened ScheduleOps
  import opened SessionMoves
  import opened Suspensions
  import opened Tables
  import opened Wrappers

  datatype Move =
    | Suspend(sup: Suspension)
    | Lift(id: Id, now: Instant)
    | Sweep(now: Instant, graceMinutes: int)
    | EditClass(k: Id, edit: Edit, today: Date)
    | DropClass(k: Id, reason: string, today: Date)
    | FillPresent(anchor: Id, now: Instant)
    | FillAbsent(anchor: Id)
    // What a scan, an online start or a checker's verdict records of a class not yet finished.
    | Attend(i: Id, after: Session)
    | Release(i: Id, now: Instant)
    // The correction of a wrong absence.
    | Correct(i: Id)
    | AssignOnline(postings: seq<Posting>, term: Id, date: Date, owned: seq<Session>)
    | Decide(req: Id, dean: Id, now: Instant)
    | Materialize(tie: Ties, term: Id, from: Date, days: nat, now: Instant)

  // The move names rows that exist and that the service would write.
  predicate Enabled(w: World, m: Move)
    requires Sound(w)
  {
    match m
    case Suspend(sup) => sup.term < |w.c.terms| && sup.lifted.None?
    case Lift(id, _) => id < |w.c.suspensions|
    case Sweep(_, _) => true
    case EditClass(k, e, _) => k < |w.c.schedules| && Edited(w.c.schedules[k], e).room < |w.c.rooms|
    case DropClass(k, _, _) => k < |w.c.schedules|
    case FillPresent(anchor, _) => anchor < |w.ss|
    case FillAbsent(anchor) => anchor < |w.ss|
    case Attend(i, after) => i < |w.ss| && !Finished(w.ss[i]) && Attends(w.c, w.ss[i], after)
    case Release(i, _) => i < |w.ss| && (w.ss[i].status.Scheduled? || w.ss[i].status.Active?)
    case Correct(i) => i < |w.ss| && w.ss[i].status.Absent?
    case AssignOnline(postings, term, date, owned) =>
      OnlineAssignment.Assigns(w.c, postings, term, date, w.ss, owned)
    case Decide(req, _, _) => req < |w.c.requests|
    case Materialize(_, term, _, _, _) => term < |w.c.terms|
  }

  function Next(w: World, m: Move): World
    requires Sound(w) && Enabled(w, m)
  {
    match m
    case Suspend(sup) => AfterSuspend(w, sup)
    case Lift(id, now) => AfterLift(w, id, now)
    case Sweep(now, grace) => w.(ss := Swept(w.c, w.ss, now, grace))
    case EditClass(k, e, today) => AfterEdit(w, k, e, today)
    case DropClass(k, reason, today) => AfterDrop(w, k, reason, today)
    case FillPresent(anchor, now) => w.(ss := FilledPresent(w.c, w.ss, anchor, now))
    case FillAbsent(anchor) => w.(ss := FilledAbsent(w.c, w.ss, anchor))
    case Attend(i, after) => w.(ss := w.ss[i := after])
    case Release(i, now) => w.(ss := w.ss[i := w.ss[i].(released := Some(now))])
    case Correct(i) => w.(ss := w.ss[i := Corrected(w.ss[i])])
    case AssignOnline(_, _, _, owned) => w.(ss := owned)
    case Decide(req, dean, now) => AfterDecision(w, req, dean, now)
    case Materialize(tie, term, from, days, now) => AfterMaterialization(w, tie, term, from, days, now)
  }

  /* One step */

  // The moves that rewrite sessions and nothing else.
  predicate RowMove(m: Move) {
    m.Sweep? || m.FillPresent? || m.FillAbsent? || m.Attend? || m.Release? || m.Correct? || m.AssignOnline?
  }

  lemma RowMoveIsQuiet(w: World, m: Move)
    requires Sound(w) && Enabled(w, m) && RowMove(m)
    ensures
      var w' := Next(w, m);
      && w' == w.(ss := w'.ss) && |w'.ss| == |w.ss| && SessionsLinked(w.c, w'.ss) && Quiet(w.ss, w'.ss)
      && (!m.Correct? ==> Spares(w.ss, w'.ss))
  {
    assert m.Attend? || m.Release? || m.Correct? ==> w.ss[m.i].room < |w.c.rooms|;
    hide Linked;
    hide SessionsLinked;
    hide Quiet;
    hide Spares;
    hide AfterSuspend;
    hide AfterLift;
    hide AfterEdit;
    hide AfterDrop;
    hide AfterDecision;
    hide AfterMaterialization;
    hide OnlineAssignment.Assigns;
    match m {
      case Sweep(now, grace) => SweepIsQuiet(w.c, w.ss, now, grace);
      case FillPresent(anchor, now) => FillsAreQuiet(w.c, w.ss, anchor, now);
      case FillAbsent(anchor) => FillsAreQuiet(w.c, w.ss, anchor, 0);
      case AssignOnline(postings, term, date, owned) => AssignmentIsQuiet(w.c, postings, term, date, w.ss, owned);
      case Attend(i, after) => OneRowIsQuiet(w.c, w.ss, i, after);
      case Release(i, now) => OneRowIsQuiet(w.c, w.ss, i, w.ss[i].(released := Some(now)));
      case Correct(i) => OneRowIsQuiet(w.c, w.ss, i, Corrected(w.ss[i]));
    }
  }

  lemma MoveKeepsCauses(w: World, m: Move)
    requires Sound(w) && Enabled(w, m) && Caused(w)
    ensures Sound(Next(w, m)) && Caused(Next(w, m))
  {
    hide Caused;
    hide Linked;
    hide SessionsLinked;
    hide Quiet;
    hide Spares;
    hide AfterSuspend;
    hide AfterLift;
    hide AfterDrop;
    hide AfterDecision;
    match m {
      case Suspend(sup) => SuspendKeepsCauses(w, sup);
      case Lift(id, now) => LiftKeepsCauses(w, id, now);
      case DropClass(k, reason, today) => DropKeepsCauses(w, k, reason, today);
      case EditClass(k, e, today) =>
        EditIsQuiet(w, k, e, today);
        QuietKeepsCauses(w, Next(w, m));
      case Decide(req, dean, now) =>
        DecisionIsQuiet(w, req, dean, now);
        QuietKeepsCauses(w, Next(w, m));
      case Materialize(tie, term, from, days, now) =>
        MaterializationIsQuiet(w, tie, term, from, days, now);
        QuietKeepsCauses(w, Next(w, m));
      case _ =>
        RowMoveIsQuiet(w, m);
        RowsKeepCauses(w, Next(w, m).ss);
    }
  }

  lemma MoveSpares(w: World, m: Move)
    requires Sound(w) && Enabled(w, m) && !m.Correct?
    ensures Spares(w.ss, Next(w, m).ss)
  {
    hide Linked;
    hide Quiet;
    hide Spares;
    hide AfterSuspend;
    hide AfterLift;
    hide AfterDrop;
    hide AfterDecision;
    match m {
      case Suspend(sup) => SuspendIsSound(w, sup);
      case Lift(id, now) => LiftIsSound(w, id, now);
      case DropClass(k, reason, today) => DropIsSound(w, k, reason, today);
      case EditClass(k, e, today) => EditIsQuiet(w, k, e, today);
      case Decide(req, dean, now) => DecisionIsQuiet(w, req, dean, now);
      case Materialize(tie, term, from, days, now) => MaterializationIsQuiet(w, tie, term, from, days, now);
      case _ => RowMoveIsQuiet(w, m);
    }
  }

  /* Runs */

  ghost predicate Run(worlds: seq<World>, moves: seq<Move>) {
    && |worlds| == |moves| + 1
    && (forall i :: 0 <= i < |worlds| ==> Sound(worlds[i]))
    && (forall i :: 0 <= i < |moves| ==> Enabled(worlds[i], moves[i]) && worlds[i + 1] == Next(worlds[i], moves[i]))
  }

  // Whatever happens in between, a session cancelled by a suspension stays under it: the
  // suspension is un-lifted, reaches the session's date and building, and carries its reason.
  lemma {:induction false} CancellationsNeverOutliveTheirCause(worlds: seq<World>, moves: seq<Move>, i: nat)
    requires Run(worlds, moves) && i < |worlds| && Caused(worlds[0])
    ensures Caused(worlds[i])
  {
    hide Next;
    hide Caused;
    if i > 0 {
      CancellationsNeverOutliveTheirCause(worlds, moves, i - 1);
      MoveKeepsCauses(worlds[i - 1], moves[i - 1]);
    }
  }

  // What a finished session may become: only a missing online owner is ever filled in, and an
  // absence may be corrected, once.
  predicate Keeps(s: Session, t: Session) {
    OwnerOnly(s, t) || (s.status.Absent? && OwnerOnly(Corrected(s), t))
  }

  lemma MoveKeepsFinished(w: World, m: Move, p: Id)
    requires Sound(w) && Enabled(w, m) && p < |w.ss| && Finished(w.ss[p])
    ensures p < |Next(w, m).ss| && Keeps(w.ss[p], Next(w, m).ss[p])
    ensures m != Correct(p) ==> OwnerOnly(w.ss[p], Next(w, m).ss[p])
  {
    hide Linked;
    if !m.Correct? {
      MoveSpares(w, m);
    }
  }

  lemma KeepsCompose(s: Session, t: Session, u: Session)
    ensures Keeps(s, s) && OwnerOnly(s, s)
    ensures Finished(s) && Keeps(s, t) && Keeps(t, u) ==> Finished(t) && Finished(u) && Keeps(s, u)
    ensures OwnerOnly(s, t) && OwnerOnly(t, u) ==> OwnerOnly(s, u)
  {
  }

  ghost predicate Uncorrected(moves: seq<Move>, i: nat, j: nat, p: Id) {
    forall m :: i <= m < j && m < |moves| ==> moves[m] != Correct(p)
  }

  // A COMPLETED session stays as it is for ever, and an ABSENT one until it is corrected, but for
  // the online owner that a later assignment fills in where there was none.
  lemma {:induction false} FinishedSessionsAreFinal(worlds: seq<World>, moves: seq<Move>, i: nat, j: nat, p: Id)
    requires Run(worlds, moves) && i <= j < |worlds|
    requires p < |worlds[i].ss| && Finished(worlds[i].ss[p])
    ensures p < |worlds[j].ss| && Finished(worlds[j].ss[p]) && Keeps(worlds[i].ss[p], worlds[j].ss[p])
    ensures Uncorrected(moves, i, j, p) ==> OwnerOnly(worlds[i].ss[p], worlds[j].ss[p])
  {
    hide Next;
    hide Keeps;
    hide OwnerOnly;
    hide Finished;
    if i == j {
      KeepsCompose(worlds[i].ss[p], worlds[i].ss[p], worlds[i].ss[p]);
    } else {
      FinishedSessionsAreFinal(worlds, moves, i, j - 1, p);
      MoveKeepsFinished(worlds[j - 1], moves[j - 1], p);
      KeepsCompose(worlds[i].ss[p], worlds[j - 1].ss[p], worlds[j].ss[p]);
      assert Uncorrected(moves, i, j, p) ==> moves[j - 1] != Correct(p) && Uncorrected(moves, i, j - 1, p);
    }
  }

  /* Lifting everything */

  function LiftAll(w: World, order: seq<Id>, now: Instant): (r: World)
    requires Sound(w) && Keys(order, |w.c.suspensions|)
    ensures Sound(r) && |r.ss| == |w.ss| && |r.c.suspensions| == |w.c.suspensions|
  {
    if order == [] then
      w
    else
      var rest := LiftAll(w, order[..|order| - 1], now);
      LiftIsSound(rest, order[|order| - 1], now);
      AfterLift(rest, order[|order| - 1], now)
  }

  // One lift in a writable term reinstates what it caused, and touches cancelled sessions only.
  lemma LiftReinstatesItsOwn(w: World, id: Id, now: Instant, i: Id)
    requires Sound(w) && Caused(w) && id < |w.c.suspensions| && i < |w.ss|
    ensures
      var s, s' := w.ss[i], AfterLift(w, id, now).ss[i];
      && (s' == s || (s.status.Cancelled? && s' == Flip(s, Scheduled, "")))
      && (s.status.Cancelled? && w.cause[i] == Some(id) && Writable(w.c, id) ==> s' == Flip(s, Scheduled, ""))
      && (!Writable(w.c, id) ==> s' == s)
  {
    hide InReach;
    hide ItemLinked;
    if w.ss[i].status.Cancelled? && w.cause[i] == Some(id) {
      assert CausedBy(w.c, w.ss[i], id);
    }
  }

  // In any order, lifting reinstates every session whose cause is among the lifted and of a term
  // still writable, with an empty reason; and it leaves reinstated what an earlier lift reinstated.
  lemma {:induction false} LiftingReinstates(w: World, order: seq<Id>, now: Instant, i: Id)
    requires Sound(w) && Caused(w) && Keys(order, |w.c.suspensions|)
    requires i < |w.ss| && w.ss[i].status.Cancelled? && w.cause[i].Some? && w.cause[i].value < |w.c.suspensions|
    ensures
      var r := LiftAll(w, order, now);
      && Caused(r) && r.cause == w.cause && SameTerms(w.c, r.c)
      && (r.ss[i] == w.ss[i] || r.ss[i] == Flip(w.ss[i], Scheduled, ""))
      && (w.cause[i].value in order && Writable(w.c, w.cause[i].value) ==> r.ss[i] == Flip(w.ss[i], Scheduled, ""))
  {
    hide AfterLift;
    hide Linked;
    hide Caused;
    hide SessionsLinked;
    if order != [] {
      var n := |order| - 1;
      var rest := LiftAll(w, order[..n], now);
      LiftingReinstates(w, order[..n], now, i);
      LiftIsSound(rest, order[n], now);
      LiftKeepsCauses(rest, order[n], now);
      LiftReinstatesItsOwn(rest, order[n], now, i);
    }
  }

  /* Whose cancellation a lift undoes */

  // A session cancelled by something else that the lift of id would reinstate all the same.
  predicate Foreign(w: World, id: Id, i: Id)
    requires Sound(w) && id < |w.c.suspensions|
  {
    i < |w.ss| && w.cause[i] != Some(id) && Reinstates(w.c, w.c.suspensions[id], w.ss[i])
  }

  // The lift of id changes its own cancellations and no other session.
  predicate UndoesOnlyItsOwn(w: World, id: Id, tt: seq<Session>)
    requires Sound(w)
  {
    |tt| == |w.ss| && forall i :: 0 <= i < |w.ss| ==>
      (tt[i] != w.ss[i] <==> w.ss[i].status.Cancelled? && w.cause[i] == Some(id))
  }

  // That is so exactly when no other cancelled session in its reach carries the same reason.
  lemma LiftUndoesOnlyItsOwnIff(w: World, id: Id, now: Instant)
    requires Sound(w) && Caused(w) && id < |w.c.suspensions| && w.c.suspensions[id].lifted.None? && Writable(w.c, id)
    ensures UndoesOnlyItsOwn(w, id, AfterLift(w, id, now).ss) <==> !exists i: Id :: Foreign(w, id, i)
  {
    hide InReach;
    var tt := AfterLift(w, id, now).ss;
    forall i: Id | i < |w.ss| ensures tt[i] != w.ss[i] <==> Reinstates(w.c, w.c.suspensions[id], w.ss[i]) {
    }
    forall i: Id | i < |w.ss| && w.ss[i].status.Cancelled? && w.cause[i] == Some(id)
      ensures Reinstates(w.c, w.c.suspensions[id], w.ss[i])
    {
      assert CausedBy(w.c, w.ss[i], id);
    }
    if UndoesOnlyItsOwn(w, id, tt) {
      forall i: Id ensures !Foreign(w, id, i) {
        assert i < |w.ss| ==> (tt[i] != w.ss[i] <==> w.ss[i].status.Cancelled? && w.cause[i] == Some(id));
      }
    } else {
      var i :| 0 <= i < |w.ss| && !(tt[i] != w.ss[i] <==> w.ss[i].status.Cancelled? && w.cause[i] == Some(id));
      assert Foreign(w, id, i);
    }
  }

  // Two declarations of one storm: lifting the later one, which cancelled nothing, reinstates
  // the class that the earlier one, still in force, had cancelled.
  lemma LiftCanUndoAnother() returns (w: World)
    ensures Sound(w) && Caused(w) && |w.c.suspensions| == 2 && |w.ss| == 1
    ensures w.ss[0].status.Cancelled? && w.cause[0] == Some(0) && w.c.suspensions[0].lifted.None?
    ensures Foreign(w, 1, 0)
    ensures
      var w' := AfterLift(w, 1, 0);
      w'.ss[0].status.Scheduled? && w'.c.suspensions[0].lifted.None?
  {
    var storm := Suspension(0, 0, 0, None, "Typhoon", None);
    var lecture := Schedule(0, "CS1", 0, 0, 0, 0, 3600 * SECOND, F2F, ScheduleActive, 30);
    var c := Campus([Term(0, 6, TermActive)], [], [storm, storm], [Floor(0, 1)], [Room(0, "R101", false)],
                    [lecture], [], [], []);
    var s := Session(0, 0, 0, 0, 0, 3600 * SECOND, Cancelled, None, None, NoCheckin, None, None, None, None, "Typhoon", None);
    w := World(c, [s], [Some(0)]);
    assert Reinstates(c, storm, s);
  }
}