/** The scheduled sweep: unscanned no-shows become ABSENT. */
module Jobs {
  import opened Calendar
  import opened Excusal
  import opened FacultyScan
  import opened MergeFill
  import opened Queries
  import opened Tables
  import opened Wrappers

  // The one running term, if there is one.
  function ActiveTerm(c: Campus): (r: Option<Id>)
    ensures r.Some? ==> r.value < |c.terms| && c.terms[r.value].status.TermActive?
    ensures r.None? ==> forall t :: 0 <= t < |c.terms| ==> !c.terms[t].status.TermActive?
  {
    var ids := IdsWhere(c.terms, (t: Term) => t.status.TermActive?);
    if ids == [] then
      assert forall t: Id :: t !in ids;
      None
    else
      assert ids[0] in ids;
      Some(ids[0])
  }

  // What the sweep marks: SCHEDULED, of the running term, past grace and not excused.
  predicate NoShow(c: Campus, s: Session, now: Instant, graceMinutes: int)
    requires Linked(c) && s.schedule < |c.schedules| && s.room < |c.rooms|
  {
    && s.status.Scheduled?
    && ActiveTerm(c) == Some(c.schedules[s.schedule].term)
    && NoShowPastGrace(s.start, now, graceMinutes)
    && !SessionExcused(c, s)
  }

  function Swept(c: Campus, ss: seq<Session>, now: Instant, graceMinutes: int): (tt: seq<Session>)
    requires Linked(c) && SessionsLinked(c, ss)
    ensures |tt| == |ss|
    ensures forall i :: 0 <= i < |ss| ==>
      tt[i] == if NoShow(c, ss[i], now, graceMinutes) then ss[i].(status := Absent) else ss[i]
  {
    seq(|ss|, i requires 0 <= i < |ss| =>
      if NoShow(c, ss[i], now, graceMinutes) then ss[i].(status := Absent) else ss[i])
  }

  // The SCHEDULED rows of the term that started before the cutoff, fetched before any write.
  function SweepCandidates(c: Campus, ss: seq<Session>, term: Id, cutoff: Instant): (ids: seq<Id>)
    ensures forall j :: 0 <= j < |ids| ==> ids[j] in ids && ids[j] < |ss|
    ensures forall a, b :: 0 <= a < b < |ids| ==> ids[a] < ids[b]
    ensures forall i: Id :: i in ids <==>
      && i < |ss| && ss[i].status.Scheduled? && ss[i].start < cutoff
      && ss[i].schedule < |c.schedules| && c.schedules[ss[i].schedule].term == term
  {
    var ids := IdsWhere(ss, (s: Session) =>
      s.status.Scheduled? && s.start < cutoff && s.schedule < |c.schedules| && c.schedules[s.schedule].term == term);
    assert forall j :: 0 <= j < |ids| ==> ids[j] in ids;
    ids
  }

  function NoShowTest(c: Campus, ss: seq<Session>, now: Instant, graceMinutes: int): Id -> bool
    requires Linked(c) && SessionsLinked(c, ss)
  {
    (i: Id) => i < |ss| && NoShow(c, ss[i], now, graceMinutes)
  }

  // The keys of the rows one sweep marks, ascending.
  function NoShowIds(c: Campus, ss: seq<Session>, now: Instant, graceMinutes: int): (ids: seq<Id>)
    requires Linked(c) && SessionsLinked(c, ss)
    ensures forall i: Id :: i in ids <==> i < |ss| && NoShow(c, ss[i], now, graceMinutes)
    ensures Keys(ids, |ss|)
  {
    if ActiveTerm(c).None? then
      []
    else
      var candidates := SweepCandidates(c, ss, ActiveTerm(c).value, now - graceMinutes * 60_000_000);
      var ids := Keep(candidates, NoShowTest(c, ss, now, graceMinutes));
      assert forall j :: 0 <= j < |ids| ==> ids[j] in ids;
      ids
  }

  function FloorOf(c: Campus, s: Session): Id
    requires Linked(c) && s.room < |c.rooms|
  {
    c.rooms[s.room].floor
  }

  function FloorsOf(c: Campus, ss: seq<Session>, ids: seq<Id>): seq<Id>
    requires Linked(c) && SessionsLinked(c, ss) && Keys(ids, |ss|)
  {
    seq(|ids|, j requires 0 <= j < |ids| => FloorOf(c, ss[ids[j]]))
  }

  lemma LogStarts(c: Campus, ss: seq<Session>)
    requires Linked(c) && SessionsLinked(c, ss)
    ensures Keys([], |ss|) && AuditAll(MarkedAbsent, []) == [] && FloorsOf(c, ss, []) == []
  {
  }

  lemma LogGrows(c: Campus, ss: seq<Session>, ids: seq<Id>, i: Id)
    requires Linked(c) && SessionsLinked(c, ss) && i < |ss| && Keys(ids, |ss|)
    ensures Keys(ids + [i], |ss|)
    ensures AuditAll(MarkedAbsent, ids + [i]) == AuditAll(MarkedAbsent, ids) + [AuditEntry(MarkedAbsent, i)]
    ensures FloorsOf(c, ss, ids + [i]) == FloorsOf(c, ss, ids) + [FloorOf(c, ss[i])]
  {
  }

  // The rows of ss with those of done marked ABSENT.
  predicate MarkedAbsentIn(ss: seq<Session>, tt: seq<Session>, done: seq<Id>) {
    |tt| == |ss| && forall i :: 0 <= i < |ss| ==> tt[i] == if i in done then ss[i].(status := Absent) else ss[i]
  }

  // The cutoff of the query and the shared predicate are one rule: of the fetched rows, exactly
  // the unexcused ones past grace are no-shows.
  lemma CutoffIsThePredicate(c: Campus, ss: seq<Session>, i: Id, now: Instant, graceMinutes: int)
    requires Linked(c) && SessionsLinked(c, ss) && ActiveTerm(c).Some? && i < |ss|
    ensures
      var candidates := SweepCandidates(c, ss, ActiveTerm(c).value, now - graceMinutes * 60_000_000);
      && (i in candidates ==> NoShowPastGrace(ss[i].start, now, graceMinutes))
      && (NoShow(c, ss[i], now, graceMinutes) <==> i in candidates && !SessionExcused(c, ss[i]))
  {
    hide SessionExcused;
  }

  lemma NoTermNoShow(c: Campus, ss: seq<Session>, now: Instant, graceMinutes: int)
    requires Linked(c) && SessionsLinked(c, ss) && ActiveTerm(c).None?
    ensures Swept(c, ss, now, graceMinutes) == ss && NoShowIds(c, ss, now, graceMinutes) == []
  {
    hide SessionExcused;
  }

  // One candidate: re-affirm the shared rule, skip the excused, and write only a SCHEDULED row.
  method MarkAbsent(db: Database, i: Id, now: Instant, graceMinutes: int) returns (flipped: bool)
    requires db.Valid() && i < |db.sessions|
    modifies db`sessions, db`audit
    ensures flipped <==>
      && NoShowPastGrace(old(db.sessions)[i].start, now, graceMinutes)
      && !SessionExcused(db.Context(), old(db.sessions)[i]) && old(db.sessions)[i].status.Scheduled?
    ensures db.sessions == if flipped then old(db.sessions)[i := old(db.sessions)[i].(status := Absent)] else old(db.sessions)
    ensures db.audit == if flipped then old(db.audit) + [AuditEntry(MarkedAbsent, i)] else old(db.audit)
  {
    var s := db.sessions[i];
    if !NoShowPastGrace(s.start, now, graceMinutes) || SessionExcused(db.Context(), s) || !s.status.Scheduled? {
      return false;
    }
    db.sessions := db.sessions[i := s.(status := Absent)];
    db.audit := db.audit + [AuditEntry(MarkedAbsent, i)];
    return true;
  }

  // Everything the sweep has done so far when it has marked the rows of done.
  predicate Progress(
    c: Campus, ss: seq<Session>, done: seq<Id>, tt: seq<Session>, marked: nat, log: seq<AuditEntry>,
    collected: seq<Id>)
    requires Linked(c) && SessionsLinked(c, ss)
  {
    && Keys(done, |ss|) && MarkedAbsentIn(ss, tt, done)
    && marked == |done| && log == AuditAll(MarkedAbsent, done) && collected == FloorsOf(c, ss, done)
  }

  lemma ProgressStarts(c: Campus, ss: seq<Session>)
    requires Linked(c) && SessionsLinked(c, ss)
    ensures Progress(c, ss, [], ss, 0, [], [])
  {
  }

  lemma ProgressGrows(
    c: Campus, ss: seq<Session>, done: seq<Id>, tt: seq<Session>, marked: nat, log: seq<AuditEntry>,
    collected: seq<Id>, i: Id)
    requires Linked(c) && SessionsLinked(c, ss) && i < |ss| && i !in done
    requires Progress(c, ss, done, tt, marked, log, collected)
    ensures Progress(
      c, ss, done + [i], tt[i := tt[i].(status := Absent)], marked + 1, log + [AuditEntry(MarkedAbsent, i)],
      collected + [FloorOf(c, ss[i])])
  {
    hide Linked;
    LogGrows(c, ss, done, i);
  }

  lemma Untouched(
    c: Campus, ss: seq<Session>, done: seq<Id>, tt: seq<Session>, marked: nat, log: seq<AuditEntry>,
    collected: seq<Id>, i: Id)
    requires Linked(c) && SessionsLinked(c, ss) && i < |ss| && i !in done
    requires Progress(c, ss, done, tt, marked, log, collected)
    ensures |tt| == |ss| && tt[i] == ss[i]
  {
  }

  // Once the kept candidates are marked, the sweep is done.
  lemma ProgressEnds(
    c: Campus, ss: seq<Session>, tt: seq<Session>, marked: nat, log: seq<AuditEntry>, collected: seq<Id>,
    now: Instant, graceMinutes: int)
    requires Linked(c) && SessionsLinked(c, ss)
    requires Progress(c, ss, NoShowIds(c, ss, now, graceMinutes), tt, marked, log, collected)
    ensures
      var ids := NoShowIds(c, ss, now, graceMinutes);
      && tt == Swept(c, ss, now, graceMinutes) && marked == |ids|
      && log == AuditAll(MarkedAbsent, ids) && collected == FloorsOf(c, ss, ids)
  {
    hide NoShow;
    hide Linked;
  }

  // What the loop decides of a fetched row: the shared rule, the calendar, and the status again.
  function Recheck(c: Campus, ss: seq<Session>, now: Instant, graceMinutes: int): Id -> bool
    requires Linked(c) && SessionsLinked(c, ss)
  {
    (i: Id) => i < |ss| && NoShowPastGrace(ss[i].start, now, graceMinutes)
               && !SessionExcused(c, ss[i]) && ss[i].status.Scheduled?
  }

  // Keeping the fetched rows that pass the recheck keeps exactly the no-shows.
  lemma RecheckKeepsNoShows(c: Campus, ss: seq<Session>, now: Instant, graceMinutes: int)
    requires Linked(c) && SessionsLinked(c, ss) && ActiveTerm(c).Some?
    ensures
      var candidates := SweepCandidates(c, ss, ActiveTerm(c).value, now - graceMinutes * 60_000_000);
      Keep(candidates, Recheck(c, ss, now, graceMinutes)) == NoShowIds(c, ss, now, graceMinutes)
  {
    hide SessionExcused;
    hide SweepCandidates;
    hide ActiveTerm;
    var candidates := SweepCandidates(c, ss, ActiveTerm(c).value, now - graceMinutes * 60_000_000);
    forall i: Id | i in candidates
      ensures Recheck(c, ss, now, graceMinutes)(i) == NoShowTest(c, ss, now, graceMinutes)(i)
    {
      CutoffIsThePredicate(c, ss, i, now, graceMinutes);
    }
    SameKeep(candidates, Recheck(c, ss, now, graceMinutes), NoShowTest(c, ss, now, graceMinutes));
  }

  method MarkAll(db: Database, candidates: seq<Id>, now: Instant, graceMinutes: int)
    returns (marked: nat, ghost log: seq<AuditEntry>, collected: seq<Id>)
    requires db.Valid() && Keys(candidates, |db.sessions|) && Distinct(candidates)
    modifies db`sessions, db`audit
    ensures
      var c, ss := db.Context(), old(db.sessions);
      Progress(
        c, ss, Keep(candidates, Recheck(c, ss, now, graceMinutes)), db.sessions, marked, log, collected)
    ensures db.audit == old(db.audit) + log
  {
    hide Progress;
    hide SessionExcused;
    hide NoShowPastGrace;
    hide Keep;
    hide FloorOf;
    hide Linked;
    ghost var c, ss := db.Context(), db.sessions;
    ghost var test := Recheck(c, ss, now, graceMinutes);
    marked, log, collected := 0, [], [];
    KeepNone(test);
    ProgressStarts(c, ss);
    assert candidates[..0] == [];
    for n := 0 to |candidates|
      invariant db.Context() == c && |db.sessions| == |ss| && SessionsLinked(c, db.sessions)
      invariant Progress(c, ss, Keep(candidates[..n], test), db.sessions, marked, log, collected)
      invariant db.audit == old(db.audit) + log
    {
      var i := candidates[n];
      var s := db.sessions[i];
      KeepStep(candidates, n, test);
      NotYet(candidates, n, test);
      Untouched(c, ss, Keep(candidates[..n], test), db.sessions, marked, log, collected, i);
      ProgressGrows(c, ss, Keep(candidates[..n], test), db.sessions, marked, log, collected, i);
      var flipped := MarkAbsent(db, i, now, graceMinutes);
      if flipped {
        marked := marked + 1;
        collected := collected + [FloorOf(db.Context(), s)];
        log := log + [AuditEntry(MarkedAbsent, i)];
      }
    }
    assert candidates[..|candidates|] == candidates;
  }

  lemma NotYet(ids: seq<Id>, n: nat, p: Id -> bool)
    requires Distinct(ids) && n < |ids|
    ensures ids[n] !in Keep(ids[..n], p)
  {
  }

  method SweepNoShows(db: Database, now: Instant, graceMinutes: int) returns (marked: nat, collected: seq<Id>)
    requires db.Valid()
    modifies db`sessions, db`audit
    ensures
      var ids := NoShowIds(db.Context(), old(db.sessions), now, graceMinutes);
      && db.sessions == Swept(db.Context(), old(db.sessions), now, graceMinutes)
      && marked == |ids|
      && db.audit == old(db.audit) + AuditAll(MarkedAbsent, ids)
      && collected == FloorsOf(db.Context(), old(db.sessions), ids)
  {
    hide NoShow;
    hide SessionExcused;
    hide ActiveTerm;
    hide Progress;
    hide Keep;
    hide NoShowIds;
    hide Recheck;
    ghost var c, ss := db.Context(), db.sessions;
    LogStarts(c, ss);
    var term := ActiveTerm(db.Context());
    if term.None? {
      NoTermNoShow(c, ss, now, graceMinutes);
      return 0, [];
    }
    var candidates := SweepCandidates(db.Context(), db.sessions, term.value, now - graceMinutes * 60_000_000);
    RecheckKeepsNoShows(c, ss, now, graceMinutes);
    ghost var log;
    marked, log, collected := MarkAll(db, candidates, now, graceMinutes);
    ProgressEnds(c, ss, db.sessions, marked, log, collected, now, graceMinutes);
  }

  // Sweeping again at the same or an earlier time marks nothing more.
  lemma SweepIsIdempotent(c: Campus, ss: seq<Session>, now: Instant, earlier: Instant, graceMinutes: int)
    requires Linked(c) && SessionsLinked(c, ss) && earlier <= now
    ensures
      var tt := Swept(c, ss, now, graceMinutes);
      && SessionsLinked(c, tt)
      && Swept(c, tt, earlier, graceMinutes) == tt && NoShowIds(c, tt, earlier, graceMinutes) == []
  {
    hide Excused;
    var tt := Swept(c, ss, now, graceMinutes);
    forall i | 0 <= i < |tt| ensures !NoShow(c, tt[i], earlier, graceMinutes) {
    }
    var ids := NoShowIds(c, tt, earlier, graceMinutes);
    HeadIsMember(ids);
  }

  // A session a scan admits at now could not have been marked by any sweep up to now.
  lemma AdmittedIsNeverSwept(
    c: Campus, ss: seq<Session>, today: seq<Id>, room: Id, occupying: Option<Id>, now: Instant, p: Policy,
    earlier: Instant)
    requires Linked(c) && SessionsLinked(c, ss) && forall j :: 0 <= j < |today| ==> today[j] < |ss|
    requires Admits(ResolveFacultyScan(c, ss, today, room, occupying, now, p).outcome) && earlier <= now
    ensures
      var r := ResolveFacultyScan(c, ss, today, room, occupying, now, p);
      r.session.Some? && r.session.value < |ss|
      && Swept(c, ss, earlier, p.graceMinutes)[r.session.value] == ss[r.session.value]
  {
    hide ResolveFacultyScan;
    hide SessionExcused;
    AdmissionIsSound(c, ss, today, room, occupying, now, p);
  }

  // After a check-in's fill, no later sweep marks a sibling.
  lemma FilledSiblingsAreNeverSwept(
    c: Campus, ss: seq<Session>, anchor: Id, now: Instant, later: Instant, graceMinutes: int, i: Id)
    requires Linked(c) && SessionsLinked(c, ss) && Siblings(c, ss, anchor, i)
    ensures
      var tt := FilledPresent(c, ss, anchor, now);
      SessionsLinked(c, tt) && Swept(c, tt, later, graceMinutes)[i] == tt[i]
  {
    hide SessionExcused;
  }
}
