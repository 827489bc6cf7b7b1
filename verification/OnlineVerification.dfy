/** A checker's verdict on an online class: the one scan that writes the class's status. */
module OnlineVerification {
  import opened Calendar
  import opened CheckerGate
  import opened Duty
  import opened Excusal
  import opened FacultyScan
  import opened Jobs
  import opened MergeFill
  import opened Suspensions
  import opened Tables
  import opened Text
  import opened Wrappers

  predicate HoldsOnlineDuty(c: Campus, postings: seq<Posting>, user: Id, now: Instant) {
    exists p :: p in postings && p.user == user && p.role.CheckerDuty? && p.scope.OnlineScope? && p.active
      && ActiveTerm(c).Some? && p.term == ActiveTerm(c) && CoversInstant(p, now)
  }

  // The session is an online one of the running term and is assigned to the user.
  predicate OwnsOnline(c: Campus, ss: seq<Session>, i: Id, user: Id)
    requires SessionsLinked(c, ss)
  {
    && i < |ss| && Some(c.schedules[ss[i].schedule].term) == ActiveTerm(c)
    && EffectiveModality(c, ss[i]).Online? && ss[i].onlineChecker == Some(user)
  }

  // Neither ABSENT nor COMPLETED: a CANCELLED class may still be acted on.
  predicate StillOpen(s: Session) {
    !s.status.Absent? && !s.status.Completed?
  }

  function AfterVerify(c: Campus, ss: seq<Session>, i: Id, now: Instant): (tt: seq<Session>)
    requires SessionsLinked(c, ss) && i < |ss|
    ensures |tt| == |ss|
  {
    FilledPresent(c, ss[i := ss[i].(status := Active, actualStart := Some(now), checkin := OnlineManual)], i, now)
  }

  function AfterNotPresent(c: Campus, ss: seq<Session>, i: Id, now: Instant, graceMinutes: int): (tt: seq<Session>)
    requires SessionsLinked(c, ss) && i < |ss|
    ensures |tt| == |ss|
  {
    var marked := ss[i := ss[i].(status := Absent)];
    if NoShowPastGrace(ss[i].start, now, graceMinutes) then FilledAbsent(c, marked, i) else marked
  }

  datatype Reply = Refused(finished: bool) | BadAction | NeedsNote | Shown

  // Who may act and with what; None when the action goes through.
  function OnlineRefusal(
    c: Campus, ss: seq<Session>, postings: seq<Posting>, i: Id, user: Id, action: Option<Action>, note: string,
    now: Instant)
    : Option<Reply>
    requires SessionsLinked(c, ss)
  {
    var owns := OwnsOnline(c, ss, i, user);
    if !owns || !HoldsOnlineDuty(c, postings, user, now) || !StillOpen(ss[i]) then Some(Refused(owns && !StillOpen(ss[i])))
    else if action.None? || !(action.value.Verified? || action.value.FlagNotPresent?) then Some(BadAction)
    else if action.value.FlagNotPresent? && Strip(note) == "" then Some(NeedsNote)
    else None
  }

  method OnlineAction(
    db: Database, postings: seq<Posting>, i: Id, user: Id, action: Option<Action>, note: string, now: Instant,
    graceMinutes: int, first: bool)
    returns (reply: Reply, written: Option<Validation>, filled: seq<Id>)
    requires db.Valid()
    modifies db`sessions, db`audit
    ensures
      var c, ss := db.Context(), old(db.sessions);
      var refusal := OnlineRefusal(c, ss, postings, i, user, action, note, now);
      if refusal.Some? then
        reply == refusal.value && written == None && filled == [] && unchanged(db)
      else
        && reply == Shown && i < |ss| && action.Some?
        && (!first ==> written == None && filled == [] && unchanged(db))
        && (first ==>
              && db.sessions == (if action.value.Verified? then AfterVerify(c, ss, i, now)
                                 else AfterNotPresent(c, ss, i, now, graceMinutes))
              && written == Some(Validation(
                   Some(i), ss[i].room, user, action.value, if action.value.Verified? then Some(true) else None,
                   note, now, false))
              && db.audit == old(db.audit) + AuditAll(if action.value.Verified? then MergedPresent else MergedAbsent, filled)
              && forall j: Id :: j in filled <==> j < |ss| && j != i && db.sessions[j] != ss[j])
  {
    hide EffectiveModality;
    hide Merges;
    hide HoldsOnlineDuty;
    hide ActiveTerm;
    written, filled := None, [];
    var refusal := OnlineRefusal(db.Context(), db.sessions, postings, i, user, action, note, now);
    if refusal.Some? {
      return refusal.value, None, [];
    }
    if !first {
      return Shown, None, [];
    }
    var s := db.sessions[i];
    written := Some(Validation(
      Some(i), s.room, user, action.value, if action.value.Verified? then Some(true) else None, note, now, false));
    if action.value.Verified? {
      db.sessions := db.sessions[i := s.(status := Active, actualStart := Some(now), checkin := OnlineManual)];
      var r := PropagatePresent(db, i, now);
      filled := r.value;
    } else {
      db.sessions := db.sessions[i := s.(status := Absent)];
      var r := PropagateAbsent(db, i, now, graceMinutes);
      filled := r.value;
    }
    reply := Shown;
  }

  // A verified class and every sibling of it that was still SCHEDULED are present, and no later
  // sweep marks any of them.
  lemma VerifiedGroupIsNeverSwept(
    c: Campus, ss: seq<Session>, i: Id, now: Instant, later: Instant, graceMinutes: int, j: Id)
    requires Linked(c) && SessionsLinked(c, ss) && i < |ss| && (j == i || Siblings(c, ss, i, j))
    ensures
      var tt := AfterVerify(c, ss, i, now);
      && SessionsLinked(c, tt) && j < |tt|
      && (j == i || ss[j].status.Scheduled? ==> tt[j].status.Active? && tt[j].actualStart == Some(now))
      && Swept(c, tt, later, graceMinutes)[j] == tt[j]
  {
    hide SessionExcused;
    hide ActiveTerm;
    var mid := ss[i := ss[i].(status := Active, actualStart := Some(now), checkin := OnlineManual)];
    assert Siblings(c, mid, i, j) <==> Siblings(c, ss, i, j);
  }

  // A class that a suspension cancelled can be verified all the same; it then runs under the
  // suspension, and lifting the suspension no longer touches it.
  lemma VerifyRevivesCancelled(
    c: Campus, ss: seq<Session>, postings: seq<Posting>, i: Id, user: Id, now: Instant, sup: Suspension)
    requires Linked(c) && SessionsLinked(c, ss) && OwnsOnline(c, ss, i, user) && HoldsOnlineDuty(c, postings, user, now)
    requires Reinstates(c, sup, ss[i])
    ensures OnlineRefusal(c, ss, postings, i, user, Some(Verified), "", now) == None
    ensures
      var tt := AfterVerify(c, ss, i, now);
      SessionsLinked(c, tt) && tt[i].status.Active? && Lifted(c, tt, sup)[i] == tt[i] != ss[i]
  {
    hide InReach;
    hide EffectiveModality;
    hide HoldsOnlineDuty;
    hide ActiveTerm;
  }

  // Flagging an online class marks it ABSENT, and with it exactly its SCHEDULED siblings once
  // grace has passed; inside grace it stands alone; and nobody else is touched.
  lemma NotPresentMeans(c: Campus, ss: seq<Session>, i: Id, now: Instant, graceMinutes: int, j: Id)
    requires SessionsLinked(c, ss) && i < |ss| && j < |ss|
    ensures
      var t := AfterNotPresent(c, ss, i, now, graceMinutes)[j];
      var late := ss[i].start + graceMinutes * MINUTE < now;
      if j == i || (late && Siblings(c, ss, i, j) && ss[j].status.Scheduled?) then t == ss[j].(status := Absent)
      else t == ss[j]
  {
    var marked := ss[i := ss[i].(status := Absent)];
    assert Siblings(c, marked, i, j) <==> Siblings(c, ss, i, j);
  }

  // Exactly when an online verdict goes through.
  lemma VerdictAllowedIff(
    c: Campus, ss: seq<Session>, postings: seq<Posting>, i: Id, user: Id, action: Option<Action>, note: string,
    now: Instant)
    requires SessionsLinked(c, ss)
    ensures
      match OnlineRefusal(c, ss, postings, i, user, action, note, now)
      case None =>
        && OwnsOnline(c, ss, i, user) && HoldsOnlineDuty(c, postings, user, now)
        && ss[i].status != Absent && ss[i].status != Completed
        && (action == Some(Verified) || (action == Some(FlagNotPresent) && !Blank(note)))
      case Some(Refused(finished)) =>
        && !(OwnsOnline(c, ss, i, user) && HoldsOnlineDuty(c, postings, user, now)
             && ss[i].status != Absent && ss[i].status != Completed)
        && (finished <==> OwnsOnline(c, ss, i, user) && (ss[i].status == Absent || ss[i].status == Completed))
      case Some(NeedsNote) => action == Some(FlagNotPresent) && Blank(note)
      case Some(BadAction) => action != Some(Verified) && action != Some(FlagNotPresent)
      case Some(Shown) => false
  {
    hide HoldsOnlineDuty;
    hide EffectiveModality;
    hide Strip;
    var front, back := StripDropsBlanks(note);
  }
}
