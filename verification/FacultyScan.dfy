/** What a faculty member's room scan means right now: a pure decision over today's sessions. */
module FacultyScan {
  import opened Calendar
  import opened Queries
  import opened Tables
  import opened Wrappers

  // The one no-show rule, shared by the scan and the sweep: strictly past start plus grace.
  predicate NoShowPastGrace(start: Instant, now: Instant, graceMinutes: int) {
    start + graceMinutes * 60_000_000 < now
  }

  datatype Outcome =
    | CheckedIn | CheckedOut | AbsentNow | TooEarly | WrongRoom | RoomOccupied | EarlyEnd | OnlineReject | NoSchedule

  datatype Resolution = Resolution(outcome: Outcome, session: Option<Id>, prior: Option<Id>)

  datatype Policy = Policy(graceMinutes: int, earlyEndMinutes: int, openMinutes: int)

  predicate InScanWindow(s: Session, now: Instant, p: Policy) {
    s.status.Scheduled? && s.start - p.openMinutes * 60_000_000 <= now <= s.end
  }

  function Running(ss: seq<Session>): Id -> bool {
    (i: Id) => i < |ss| && ss[i].status.Active?
  }

  function Open(ss: seq<Session>, now: Instant, p: Policy): Id -> bool {
    (i: Id) => i < |ss| && InScanWindow(ss[i], now, p)
  }

  function OpenHere(ss: seq<Session>, room: Id, now: Instant, p: Policy): Id -> bool {
    (i: Id) => i < |ss| && InScanWindow(ss[i], now, p) && ss[i].room == room
  }

  function UpcomingHere(ss: seq<Session>, room: Id, now: Instant, p: Policy): Id -> bool {
    (i: Id) => i < |ss| && ss[i].status.Scheduled? && ss[i].room == room && now < ss[i].start - p.openMinutes * 60_000_000
  }

  // today lists the faculty member's sessions of the day, by start.
  function ResolveFacultyScan(
    c: Campus, ss: seq<Session>, today: seq<Id>, room: Id, occupying: Option<Id>, now: Instant, p: Policy): Resolution
    requires SessionsLinked(c, ss) && forall j :: 0 <= j < |today| ==> today[j] < |ss|
  {
    var running := First(today, Running(ss));
    if running.Some? then
      var s := ss[running.value];
      if s.room != room then Resolution(WrongRoom, running, None)
      else if now < s.end - p.earlyEndMinutes * 60_000_000 then Resolution(EarlyEnd, running, None)
      else Resolution(CheckedOut, running, None)
    else
      var here := First(today, OpenHere(ss, room, now, p));
      var candidate := if here.Some? then here else First(today, Open(ss, now, p));
      if candidate.None? then
        var early := First(today, UpcomingHere(ss, room, now, p));
        if early.Some? then Resolution(TooEarly, early, None) else Resolution(NoSchedule, None, None)
      else
        var s := ss[candidate.value];
        if EffectiveModality(c, s).Online? then Resolution(OnlineReject, candidate, None)
        else if s.room != room then Resolution(WrongRoom, candidate, None)
        else if NoShowPastGrace(s.start, now, p.graceMinutes) then Resolution(AbsentNow, candidate, None)
        else if occupying.Some? then Resolution(RoomOccupied, candidate, occupying)
        else Resolution(CheckedIn, candidate, None)
  }

  /* What each outcome means, in facts of the day's sessions */

  // The j-th session of the day is the first one that runs.
  predicate RunsFirst(ss: seq<Session>, today: seq<Id>, j: nat)
    requires forall m :: 0 <= m < |today| ==> today[m] < |ss|
  {
    j < |today| && ss[today[j]].status.Active? && forall m :: 0 <= m < j ==> !ss[today[m]].status.Active?
  }

  predicate NoneRuns(ss: seq<Session>, today: seq<Id>)
    requires forall m :: 0 <= m < |today| ==> today[m] < |ss|
  {
    forall m :: 0 <= m < |today| ==> !ss[today[m]].status.Active?
  }

  // SCHEDULED, and now from the opening lead before its start to its end, both included.
  predicate IsOpen(s: Session, now: Instant, p: Policy) {
    s.status.Scheduled? && s.start - p.openMinutes * MINUTE <= now && now <= s.end
  }

  // SCHEDULED and not open yet.
  predicate IsUpcoming(s: Session, now: Instant, p: Policy) {
    s.status.Scheduled? && now < s.start - p.openMinutes * MINUTE
  }

  // Nothing runs, and the j-th session is the one meant: the first open one in the room, or the
  // first open one when none is in the room.
  predicate Meant(ss: seq<Session>, today: seq<Id>, room: Id, now: Instant, p: Policy, j: nat)
    requires forall m :: 0 <= m < |today| ==> today[m] < |ss|
  {
    && NoneRuns(ss, today) && j < |today| && IsOpen(ss[today[j]], now, p)
    && if ss[today[j]].room == room then
         forall m :: 0 <= m < j && IsOpen(ss[today[m]], now, p) ==> ss[today[m]].room != room
       else
         && (forall m :: 0 <= m < |today| && IsOpen(ss[today[m]], now, p) ==> ss[today[m]].room != room)
         && (forall m :: 0 <= m < j ==> !IsOpen(ss[today[m]], now, p))
  }

  predicate NoneOpen(ss: seq<Session>, today: seq<Id>, now: Instant, p: Policy)
    requires forall m :: 0 <= m < |today| ==> today[m] < |ss|
  {
    NoneRuns(ss, today) && forall m :: 0 <= m < |today| ==> !IsOpen(ss[today[m]], now, p)
  }

  // The j-th session is the first one in the room that opens later today.
  predicate OpensFirst(ss: seq<Session>, today: seq<Id>, room: Id, now: Instant, p: Policy, j: nat)
    requires forall m :: 0 <= m < |today| ==> today[m] < |ss|
  {
    && j < |today| && ss[today[j]].room == room && IsUpcoming(ss[today[j]], now, p)
    && forall m :: 0 <= m < j && IsUpcoming(ss[today[m]], now, p) ==> ss[today[m]].room != room
  }

  predicate Leaves(s: Session, room: Id, now: Instant, p: Policy) {
    s.room == room && s.end - p.earlyEndMinutes * MINUTE <= now
  }

  predicate LeavesEarly(s: Session, room: Id, now: Instant, p: Policy) {
    s.room == room && now < s.end - p.earlyEndMinutes * MINUTE
  }

  predicate Elsewhere(c: Campus, s: Session, room: Id)
    requires s.schedule < |c.schedules|
  {
    !EffectiveModality(c, s).Online? && s.room != room
  }

  // In person, in this room, strictly past grace.
  predicate Late(c: Campus, s: Session, room: Id, now: Instant, p: Policy)
    requires s.schedule < |c.schedules|
  {
    !EffectiveModality(c, s).Online? && s.room == room && s.start + p.graceMinutes * MINUTE < now
  }

  predicate InTime(c: Campus, s: Session, room: Id, now: Instant, p: Policy)
    requires s.schedule < |c.schedules|
  {
    !EffectiveModality(c, s).Online? && s.room == room && now <= s.start + p.graceMinutes * MINUTE
  }

  predicate RescanIs(
    ss: seq<Session>, today: seq<Id>, room: Id, now: Instant, p: Policy, j: nat, r: Resolution)
    requires j < |today| && today[j] < |ss|
  {
    && r.session == Some(today[j]) && r.prior == None
    && (r.outcome.WrongRoom? <==> ss[today[j]].room != room)
    && (r.outcome.CheckedOut? <==> Leaves(ss[today[j]], room, now, p))
    && (r.outcome.EarlyEnd? <==> LeavesEarly(ss[today[j]], room, now, p))
  }

  // A rescan while something of the member's runs: out when in its room and no earlier than the
  // early-end margin before its end, an early end before that, and elsewhere the wrong room.
  lemma RescanMeans(
    c: Campus, ss: seq<Session>, today: seq<Id>, room: Id, occupying: Option<Id>, now: Instant, p: Policy, j: nat)
    requires SessionsLinked(c, ss) && forall m :: 0 <= m < |today| ==> today[m] < |ss|
    requires RunsFirst(ss, today, j)
    ensures
      RescanIs(ss, today, room, now, p, j, ResolveFacultyScan(c, ss, today, room, occupying, now, p))
  {
    hide EffectiveModality;
    FirstIs(today, Running(ss), j);
  }

  predicate ScanIs(
    c: Campus, ss: seq<Session>, today: seq<Id>, room: Id, occupying: Option<Id>, now: Instant, p: Policy, j: nat,
    r: Resolution)
    requires SessionsLinked(c, ss) && j < |today| && today[j] < |ss|
  {
    var s := ss[today[j]];
    && r.session == Some(today[j])
    && (r.outcome.OnlineReject? <==> EffectiveModality(c, s).Online?)
    && (r.outcome.WrongRoom? <==> Elsewhere(c, s, room))
    && (r.outcome.AbsentNow? <==> Late(c, s, room, now, p))
    && (r.outcome.RoomOccupied? <==> InTime(c, s, room, now, p) && occupying.Some?)
    && (r.outcome.CheckedIn? <==> InTime(c, s, room, now, p) && occupying.None?)
    && r.prior == if r.outcome.RoomOccupied? then occupying else None
  }

  // A scan that means an open session: refused as online, as elsewhere or as past grace, in this
  // order, else admitted, by taking over when somebody else holds the room.
  lemma ScanMeans(
    c: Campus, ss: seq<Session>, today: seq<Id>, room: Id, occupying: Option<Id>, now: Instant, p: Policy, j: nat)
    requires SessionsLinked(c, ss) && forall m :: 0 <= m < |today| ==> today[m] < |ss|
    requires Meant(ss, today, room, now, p, j)
    ensures
      ScanIs(c, ss, today, room, occupying, now, p, j, ResolveFacultyScan(c, ss, today, room, occupying, now, p))
  {
    hide EffectiveModality;
    forall m | 0 <= m < |today|
      ensures !Running(ss)(today[m]) && Open(ss, now, p)(today[m]) == IsOpen(ss[today[m]], now, p)
      ensures OpenHere(ss, room, now, p)(today[m]) == (IsOpen(ss[today[m]], now, p) && ss[today[m]].room == room)
    {
    }
    NoFirst(today, Running(ss));
    if ss[today[j]].room == room {
      FirstIs(today, OpenHere(ss, room, now, p), j);
    } else {
      NoFirst(today, OpenHere(ss, room, now, p));
      FirstIs(today, Open(ss, now, p), j);
    }
  }

  // A scan with nothing running and nothing open: too early for the room's next session of the
  // day, else no schedule at all.
  lemma IdleScanMeans(
    c: Campus, ss: seq<Session>, today: seq<Id>, room: Id, occupying: Option<Id>, now: Instant, p: Policy)
    requires SessionsLinked(c, ss) && forall m :: 0 <= m < |today| ==> today[m] < |ss|
    requires NoneOpen(ss, today, now, p)
    ensures
      var r := ResolveFacultyScan(c, ss, today, room, occupying, now, p);
      && r.prior == None && (r.outcome.TooEarly? || r.outcome.NoSchedule?)
      && (r.outcome.NoSchedule? ==> r.session == None)
      && (r.outcome.TooEarly? <==> exists j: nat :: OpensFirst(ss, today, room, now, p, j))
      && forall j: nat :: OpensFirst(ss, today, room, now, p, j) ==> r.session == Some(today[j])
  {
    forall m | 0 <= m < |today|
      ensures !Running(ss)(today[m]) && !Open(ss, now, p)(today[m]) && !OpenHere(ss, room, now, p)(today[m])
      ensures UpcomingHere(ss, room, now, p)(today[m]) == (IsUpcoming(ss[today[m]], now, p) && ss[today[m]].room == room)
    {
      assert !IsOpen(ss[today[m]], now, p);
    }
    NoFirst(today, Running(ss));
    NoFirst(today, OpenHere(ss, room, now, p));
    NoFirst(today, Open(ss, now, p));
    forall j: nat | OpensFirst(ss, today, room, now, p, j)
      ensures First(today, UpcomingHere(ss, room, now, p)) == Some(today[j])
    {
      FirstIs(today, UpcomingHere(ss, room, now, p), j);
    }
    if First(today, UpcomingHere(ss, room, now, p)).Some? {
      var j := FirstAt(today, UpcomingHere(ss, room, now, p));
      assert OpensFirst(ss, today, room, now, p, j);
    }
  }

  // One of the three cases always applies, so the outcomes above are all there are.
  lemma EveryScanIsOneOf(ss: seq<Session>, today: seq<Id>, room: Id, now: Instant, p: Policy)
    requires forall m :: 0 <= m < |today| ==> today[m] < |ss|
    ensures
      || (exists j: nat :: RunsFirst(ss, today, j))
      || (exists j: nat :: Meant(ss, today, room, now, p, j))
      || NoneOpen(ss, today, now, p)
  {
    if First(today, Running(ss)).Some? {
      var j := FirstAt(today, Running(ss));
      assert RunsFirst(ss, today, j);
    } else {
      assert forall m :: 0 <= m < |today| ==> !Running(ss)(today[m]);
      if First(today, OpenHere(ss, room, now, p)).Some? {
        var j := FirstAt(today, OpenHere(ss, room, now, p));
        assert forall m :: 0 <= m < j ==> !OpenHere(ss, room, now, p)(today[m]);
        assert Meant(ss, today, room, now, p, j);
      } else {
        assert forall m :: 0 <= m < |today| ==> !OpenHere(ss, room, now, p)(today[m]);
        if First(today, Open(ss, now, p)).Some? {
          var j := FirstAt(today, Open(ss, now, p));
          assert forall m :: 0 <= m < j ==> !Open(ss, now, p)(today[m]);
          assert Meant(ss, today, room, now, p, j);
        } else {
          assert forall m :: 0 <= m < |today| ==> !Open(ss, now, p)(today[m]);
        }
      }
    }
  }

  lemma {:induction false} FirstAt(today: seq<Id>, p: Id -> bool) returns (j: nat)
    requires First(today, p).Some?
    ensures j < |today| && p(today[j]) && First(today, p) == Some(today[j])
    ensures forall m :: 0 <= m < j ==> !p(today[m])
  {
    if p(today[0]) {
      j := 0;
    } else {
      var rest := FirstAt(today[1..], p);
      j := rest + 1;
      assert forall m :: 0 < m < j ==> today[m] == today[1..][m - 1];
    }
  }

  lemma NoFirst(today: seq<Id>, p: Id -> bool)
    requires forall m :: 0 <= m < |today| ==> !p(today[m])
    ensures First(today, p) == None
  {
  }

  // So each outcome arises exactly when its facts hold.
  lemma OutcomesMean(
    c: Campus, ss: seq<Session>, today: seq<Id>, room: Id, occupying: Option<Id>, now: Instant, p: Policy)
    requires SessionsLinked(c, ss) && forall m :: 0 <= m < |today| ==> today[m] < |ss|
    ensures
      var o := ResolveFacultyScan(c, ss, today, room, occupying, now, p).outcome;
      && (o.CheckedOut? <==> exists j: nat :: RunsFirst(ss, today, j) && Leaves(ss[today[j]], room, now, p))
      && (o.EarlyEnd? <==> exists j: nat :: RunsFirst(ss, today, j) && LeavesEarly(ss[today[j]], room, now, p))
      && (o.WrongRoom? <==>
            || (exists j: nat :: RunsFirst(ss, today, j) && ss[today[j]].room != room)
            || (exists j: nat :: Meant(ss, today, room, now, p, j) && Elsewhere(c, ss[today[j]], room)))
      && (o.OnlineReject? <==>
            exists j: nat :: Meant(ss, today, room, now, p, j) && EffectiveModality(c, ss[today[j]]).Online?)
      && (o.AbsentNow? <==> exists j: nat :: Meant(ss, today, room, now, p, j) && Late(c, ss[today[j]], room, now, p))
      && (o.CheckedIn? <==>
            exists j: nat :: Meant(ss, today, room, now, p, j) && InTime(c, ss[today[j]], room, now, p) && occupying.None?)
      && (o.RoomOccupied? <==>
            exists j: nat :: Meant(ss, today, room, now, p, j) && InTime(c, ss[today[j]], room, now, p) && occupying.Some?)
      && (o.TooEarly? <==>
            NoneOpen(ss, today, now, p) && exists j: nat :: OpensFirst(ss, today, room, now, p, j))
      && (o.NoSchedule? <==>
            NoneOpen(ss, today, now, p) && !exists j: nat :: OpensFirst(ss, today, room, now, p, j))
  {
    hide EffectiveModality;
    hide ResolveFacultyScan;
    hide OpensFirst;
    forall j: nat | RunsFirst(ss, today, j)
      ensures RescanIs(ss, today, room, now, p, j, ResolveFacultyScan(c, ss, today, room, occupying, now, p))
    {
      RescanMeans(c, ss, today, room, occupying, now, p, j);
    }
    forall j: nat | Meant(ss, today, room, now, p, j)
      ensures ScanIs(c, ss, today, room, occupying, now, p, j, ResolveFacultyScan(c, ss, today, room, occupying, now, p))
    {
      ScanMeans(c, ss, today, room, occupying, now, p, j);
    }
    if NoneOpen(ss, today, now, p) {
      IdleScanMeans(c, ss, today, room, occupying, now, p);
    }
    EveryScanIsOneOf(ss, today, room, now, p);
  }

  predicate Admits(o: Outcome) {
    o.CheckedIn? || o.RoomOccupied?
  }

  // The session a scan can check in: in this room, in person, its window open, within grace.
  predicate Admissible(c: Campus, s: Session, room: Id, now: Instant, p: Policy)
    requires s.schedule < |c.schedules|
  {
    && InScanWindow(s, now, p) && s.room == room && !EffectiveModality(c, s).Online?
    && !NoShowPastGrace(s.start, now, p.graceMinutes)
  }

  // A scan that admits names a session that is admissible, while nothing of the member's runs.
  lemma AdmissionIsSound(
    c: Campus, ss: seq<Session>, today: seq<Id>, room: Id, occupying: Option<Id>, now: Instant, p: Policy)
    requires SessionsLinked(c, ss) && forall j :: 0 <= j < |today| ==> today[j] < |ss|
    requires Admits(ResolveFacultyScan(c, ss, today, room, occupying, now, p).outcome)
    ensures
      var r := ResolveFacultyScan(c, ss, today, room, occupying, now, p);
      && r.session.Some? && r.session.value in today && r.session.value < |ss|
      && Admissible(c, ss[r.session.value], room, now, p)
      && (r.outcome.RoomOccupied? <==> occupying.Some?) && r.prior == occupying
      && forall j :: 0 <= j < |today| ==> !ss[today[j]].status.Active?
  {
    hide EffectiveModality;
    assert forall j :: 0 <= j < |today| ==> !Running(ss)(today[j]);
  }

  // With nothing running, an admissible session that is the first one open in this room is admitted.
  lemma AdmissionIsComplete(
    c: Campus, ss: seq<Session>, today: seq<Id>, room: Id, occupying: Option<Id>, now: Instant, p: Policy, j: nat)
    requires SessionsLinked(c, ss) && forall m :: 0 <= m < |today| ==> today[m] < |ss|
    requires j < |today| && Admissible(c, ss[today[j]], room, now, p)
    requires forall m :: 0 <= m < |today| ==> !ss[today[m]].status.Active?
    requires forall m :: 0 <= m < j ==> !OpenHere(ss, room, now, p)(today[m])
    ensures
      var r := ResolveFacultyScan(c, ss, today, room, occupying, now, p);
      Admits(r.outcome) && r.session == Some(today[j])
  {
    hide EffectiveModality;
    FirstIs(today, OpenHere(ss, room, now, p), j);
  }

  lemma {:induction false} FirstIs(today: seq<Id>, p: Id -> bool, j: nat)
    requires j < |today| && p(today[j]) && forall m :: 0 <= m < j ==> !p(today[m])
    ensures First(today, p) == Some(today[j])
  {
    if j > 0 {
      FirstIs(today[1..], p, j - 1);
    }
  }
}
