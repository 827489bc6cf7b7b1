/** Co-scheduled sections: one instructor's sessions of one instant stand and fall together. */
module MergeFill {
  import opened Calendar
  import opened FacultyScan
  import opened Queries
  import opened Tables
  import opened Wrappers

  predicate IsOnline(c: Campus, s: Session)
    requires s.schedule < |c.schedules|
  {
    EffectiveModality(c, s).Online?
  }

  // Two rows merge: same instructor and instant, and both online, or one room, or one course.
  predicate Merges(c: Campus, a: Session, b: Session)
    requires a.schedule < |c.schedules| && b.schedule < |c.schedules|
  {
    && a.faculty == b.faculty && a.start == b.start
    && ( || (IsOnline(c, a) && IsOnline(c, b))
         || a.room == b.room
         || c.schedules[a.schedule].course == c.schedules[b.schedule].course)
  }

  // The rows fetched for an anchor: same instructor, instant and term, other than itself.
  function CoScheduled(c: Campus, ss: seq<Session>, anchor: Id): (ids: seq<Id>)
    requires SessionsLinked(c, ss) && anchor < |ss|
    ensures forall j :: 0 <= j < |ids| ==> ids[j] in ids && ids[j] < |ss|
    ensures forall i: Id :: i in ids <==>
      && i < |ss| && i != anchor && ss[i].faculty == ss[anchor].faculty && ss[i].start == ss[anchor].start
      && c.schedules[ss[i].schedule].term == c.schedules[ss[anchor].schedule].term
  {
    var a := ss[anchor];
    var same := IdsWhere(ss, (s: Session) =>
      s.faculty == a.faculty && s.start == a.start && s.schedule < |c.schedules|
      && c.schedules[s.schedule].term == c.schedules[a.schedule].term);
    var ids := Keep(same, (i: Id) => i != anchor);
    assert forall j :: 0 <= j < |ids| ==> ids[j] in ids;
    ids
  }

  predicate Siblings(c: Campus, ss: seq<Session>, anchor: Id, i: Id)
    requires SessionsLinked(c, ss)
  {
    && anchor < |ss| && i < |ss| && i != anchor && Merges(c, ss[anchor], ss[i])
    && c.schedules[ss[i].schedule].term == c.schedules[ss[anchor].schedule].term
  }

  method MergedSiblingIds(c: Campus, ss: seq<Session>, anchor: Id, candidates: seq<Id>) returns (out: set<Id>)
    requires SessionsLinked(c, ss) && anchor < |ss|
    requires forall j :: 0 <= j < |candidates| ==> candidates[j] < |ss|
    ensures forall i :: i in out <==> i in candidates && i != anchor && Merges(c, ss[anchor], ss[i])
  {
    hide EffectiveModality;
    var a := ss[anchor];
    out := {};
    for n := 0 to |candidates|
      invariant forall i :: i in out ==> i in candidates && i < |ss|
      invariant forall i :: i in out <==> i in candidates[..n] && i != anchor && Merges(c, a, ss[i])
    {
      var i := candidates[n];
      assert candidates[..n + 1] == candidates[..n] + [i];
      if i == anchor || ss[i].faculty != a.faculty || ss[i].start != a.start {
        continue;
      }
      if IsOnline(c, a) && IsOnline(c, ss[i]) {
        out := out + {i};
      } else if ss[i].room == a.room || c.schedules[ss[i].schedule].course == c.schedules[a.schedule].course {
        out := out + {i};
      }
    }
    assert candidates[..|candidates|] == candidates;
  }

  lemma SiblingsAreSymmetric(c: Campus, ss: seq<Session>, p: Id, q: Id)
    requires SessionsLinked(c, ss)
    ensures Siblings(c, ss, p, q) <==> Siblings(c, ss, q, p)
  {
  }

  /* Fills */

  // The SCHEDULED siblings of the anchor: the rows a fill writes.
  predicate Fillable(c: Campus, ss: seq<Session>, anchor: Id, i: Id)
    requires SessionsLinked(c, ss)
  {
    Siblings(c, ss, anchor, i) && ss[i].status.Scheduled?
  }

  function FilledPresent(c: Campus, ss: seq<Session>, anchor: Id, now: Instant): (tt: seq<Session>)
    requires SessionsLinked(c, ss)
    ensures |tt| == |ss|
    ensures forall i :: 0 <= i < |ss| ==>
      tt[i] == if Fillable(c, ss, anchor, i) then ss[i].(status := Active, actualStart := Some(now), checkin := Merged) else ss[i]
  {
    seq(|ss|, i requires 0 <= i < |ss| =>
      if Fillable(c, ss, anchor, i) then ss[i].(status := Active, actualStart := Some(now), checkin := Merged) else ss[i])
  }

  function FilledAbsent(c: Campus, ss: seq<Session>, anchor: Id): (tt: seq<Session>)
    requires SessionsLinked(c, ss)
    ensures |tt| == |ss|
    ensures forall i :: 0 <= i < |ss| ==>
      tt[i] == if Fillable(c, ss, anchor, i) then ss[i].(status := Absent) else ss[i]
  {
    seq(|ss|, i requires 0 <= i < |ss| => if Fillable(c, ss, anchor, i) then ss[i].(status := Absent) else ss[i])
  }

  datatype FillError = TermIsArchived

  method FillIds(c: Campus, ss: seq<Session>, anchor: Id) returns (ids: seq<Id>)
    requires SessionsLinked(c, ss) && anchor < |ss|
    ensures forall j :: 0 <= j < |ids| ==> ids[j] < |ss|
    ensures forall i: Id :: i in ids <==> Fillable(c, ss, anchor, i)
  {
    hide EffectiveModality;
    var candidates := CoScheduled(c, ss, anchor);
    var siblings := MergedSiblingIds(c, ss, anchor, candidates);
    ids := Keep(candidates, (i: Id) => i in siblings && i < |ss| && ss[i].status.Scheduled?);
    assert forall j :: 0 <= j < |ids| ==> ids[j] in ids;
  }

  method PropagatePresent(db: Database, anchor: Id, now: Instant) returns (r: Result<seq<Id>, FillError>)
    requires db.Valid() && anchor < |db.sessions|
    modifies db`sessions, db`audit
    ensures db.terms[db.schedules[old(db.sessions)[anchor].schedule].term].status.TermArchived? ==>
      r == Failure(TermIsArchived) && unchanged(db)
    ensures !db.terms[db.schedules[old(db.sessions)[anchor].schedule].term].status.TermArchived? ==>
      && r.Success?
      && (forall i: Id :: i in r.value <==> Fillable(db.Context(), old(db.sessions), anchor, i))
      && db.sessions == FilledPresent(db.Context(), old(db.sessions), anchor, now)
      && db.audit == old(db.audit) + AuditAll(MergedPresent, r.value)
  {
    hide EffectiveModality;
    if db.terms[db.schedules[db.sessions[anchor].schedule].term].status.TermArchived? {
      return Failure(TermIsArchived);
    }
    var ids := FillIds(db.Context(), db.sessions, anchor);
    var ss := db.sessions;
    db.sessions := seq(|ss|, i requires 0 <= i < |ss| =>
      if i in ids then ss[i].(status := Active, actualStart := Some(now), checkin := Merged) else ss[i]);
    db.audit := db.audit + AuditAll(MergedPresent, ids);
    assert db.sessions == FilledPresent(db.Context(), old(db.sessions), anchor, now);
    r := Success(ids);
  }

  // The absent fill waits for grace: inside it, nothing is written.
  method PropagateAbsent(db: Database, anchor: Id, now: Instant, graceMinutes: int) returns (r: Result<seq<Id>, FillError>)
    requires db.Valid() && anchor < |db.sessions|
    modifies db`sessions, db`audit
    ensures !NoShowPastGrace(old(db.sessions)[anchor].start, now, graceMinutes) ==> r == Success([]) && unchanged(db)
    ensures NoShowPastGrace(old(db.sessions)[anchor].start, now, graceMinutes) ==>
      if db.terms[db.schedules[old(db.sessions)[anchor].schedule].term].status.TermArchived? then
        r == Failure(TermIsArchived) && unchanged(db)
      else
        && r.Success?
        && (forall i: Id :: i in r.value <==> Fillable(db.Context(), old(db.sessions), anchor, i))
        && db.sessions == FilledAbsent(db.Context(), old(db.sessions), anchor)
        && db.audit == old(db.audit) + AuditAll(MergedAbsent, r.value)
  {
    hide EffectiveModality;
    if !NoShowPastGrace(db.sessions[anchor].start, now, graceMinutes) {
      return Success([]);
    }
    if db.terms[db.schedules[db.sessions[anchor].schedule].term].status.TermArchived? {
      return Failure(TermIsArchived);
    }
    var ids := FillIds(db.Context(), db.sessions, anchor);
    var ss := db.sessions;
    db.sessions := seq(|ss|, i requires 0 <= i < |ss| => if i in ids then ss[i].(status := Absent) else ss[i]);
    db.audit := db.audit + AuditAll(MergedAbsent, ids);
    assert db.sessions == FilledAbsent(db.Context(), old(db.sessions), anchor);
    r := Success(ids);
  }

  // A fill leaves no SCHEDULED sibling behind, so filling again writes nothing.
  lemma FillIsComplete(c: Campus, ss: seq<Session>, anchor: Id, now: Instant, later: Instant)
    requires SessionsLinked(c, ss)
    ensures
      var tt := FilledPresent(c, ss, anchor, now);
      && SessionsLinked(c, tt)
      && (forall i: Id :: !Fillable(c, tt, anchor, i))
      && FilledPresent(c, tt, anchor, later) == tt
  {
    var tt := FilledPresent(c, ss, anchor, now);
    forall i: Id ensures Siblings(c, tt, anchor, i) <==> Siblings(c, ss, anchor, i) {
    }
  }

  // The three ways two rows of one instructor and instant merge.
  datatype LinkKind = ByOnline | ByRoom | ByCourse

  predicate LinkedBy(c: Campus, kind: LinkKind, a: Session, b: Session)
    requires a.schedule < |c.schedules| && b.schedule < |c.schedules|
  {
    && a.faculty == b.faculty && a.start == b.start
    && match kind
       case ByOnline => IsOnline(c, a) && IsOnline(c, b)
       case ByRoom => a.room == b.room
       case ByCourse => c.schedules[a.schedule].course == c.schedules[b.schedule].course
  }

  // Each row of the path is a sibling of the one before it.
  predicate Chain(c: Campus, ss: seq<Session>, path: seq<Id>)
    requires SessionsLinked(c, ss)
  {
    && path != [] && (forall n :: 0 <= n < |path| ==> path[n] < |ss|)
    && forall n :: 0 < n < |path| ==> Siblings(c, ss, path[n - 1], path[n])
  }

  // Every step of the path is a link of the kind.
  predicate AllLinkedBy(c: Campus, ss: seq<Session>, kind: LinkKind, path: seq<Id>)
    requires SessionsLinked(c, ss) && Chain(c, ss, path)
  {
    forall n :: 0 < n < |path| ==> LinkedBy(c, kind, ss[path[n - 1]], ss[path[n]])
  }

  // The ends of a chain have one instructor, instant and term, and a kind of link that runs all
  // along it joins them.
  lemma {:induction false} ChainEnds(c: Campus, ss: seq<Session>, path: seq<Id>)
    requires SessionsLinked(c, ss) && Chain(c, ss, path)
    ensures
      var a, b := ss[path[0]], ss[path[|path| - 1]];
      && a.faculty == b.faculty && a.start == b.start
      && c.schedules[a.schedule].term == c.schedules[b.schedule].term
      && forall kind :: |path| > 1 && AllLinkedBy(c, ss, kind, path) ==> LinkedBy(c, kind, a, b)
  {
    hide IsOnline;
    var n := |path| - 1;
    if n > 0 {
      var rest := path[..n];
      ChainEnds(c, ss, rest);
      assert Siblings(c, ss, rest[n - 1], path[n]);
      forall kind | AllLinkedBy(c, ss, kind, path) ensures LinkedBy(c, kind, ss[path[0]], ss[path[n]]) {
        assert AllLinkedBy(c, ss, kind, rest);
      }
    }
  }

  // A fill misses a SCHEDULED row at the end of a chain exactly when no kind of link joins it to
  // the anchor; and then no one kind runs all along the chain.
  lemma FillMissesOnlyOverMixedLinks(c: Campus, ss: seq<Session>, path: seq<Id>, now: Instant)
    requires SessionsLinked(c, ss) && Chain(c, ss, path)
    requires path[|path| - 1] != path[0] && ss[path[|path| - 1]].status.Scheduled?
    ensures
      var anchor, i := path[0], path[|path| - 1];
      var missed := FilledPresent(c, ss, anchor, now)[i] == ss[i];
      && (missed <==> forall kind :: !LinkedBy(c, kind, ss[anchor], ss[i]))
      && (missed ==> forall kind :: !AllLinkedBy(c, ss, kind, path))
  {
    hide IsOnline;
    ChainEnds(c, ss, path);
    var a, b := ss[path[0]], ss[path[|path| - 1]];
    assert Merges(c, a, b) <==>
      LinkedBy(c, ByOnline, a, b) || LinkedBy(c, ByRoom, a, b) || LinkedBy(c, ByCourse, a, b);
  }

  // Row i is in the anchor's merge group: some chain leads to it.
  ghost predicate Grouped(c: Campus, ss: seq<Session>, anchor: Id, i: Id)
    requires SessionsLinked(c, ss)
  {
    exists path: seq<Id> :: Chain(c, ss, path) && path[0] == anchor && path[|path| - 1] == i
  }

  // A fill reaches the anchor's whole group exactly when a kind of link joins the anchor to each
  // of its SCHEDULED rows.
  lemma FillCoversGroupIff(c: Campus, ss: seq<Session>, anchor: Id, now: Instant)
    requires SessionsLinked(c, ss)
    ensures
      (forall i: Id :: i != anchor && Grouped(c, ss, anchor, i) ==> !FilledPresent(c, ss, anchor, now)[i].status.Scheduled?)
      <==>
      forall i: Id :: i != anchor && Grouped(c, ss, anchor, i) && ss[i].status.Scheduled? ==>
        exists kind :: LinkedBy(c, kind, ss[anchor], ss[i])
  {
    hide Merges;
    hide LinkedBy;
    forall i: Id | i != anchor && Grouped(c, ss, anchor, i) && ss[i].status.Scheduled?
      ensures FilledPresent(c, ss, anchor, now)[i].status.Scheduled? <==> !exists kind :: LinkedBy(c, kind, ss[anchor], ss[i])
    {
      var path: seq<Id> :| Chain(c, ss, path) && path[0] == anchor && path[|path| - 1] == i;
      FillMissesOnlyOverMixedLinks(c, ss, path, now);
    }
  }

  // Merging is not transitive: a class can merge with two others, one by room and one by course,
  // that do not merge with each other, so a fill from one end leaves the other end SCHEDULED.
  lemma MergingIsNotTransitive() returns (c: Campus, ss: seq<Session>)
    ensures SessionsLinked(c, ss) && |ss| == 3 && (forall s :: s in ss ==> s.status.Scheduled?)
    ensures Siblings(c, ss, 0, 1) && Siblings(c, ss, 1, 2) && !Siblings(c, ss, 0, 2)
    ensures FilledPresent(c, ss, 0, 0)[1].status.Active? && FilledPresent(c, ss, 0, 0)[2].status.Scheduled?
  {
    var art := Schedule(0, "ART1", 0, 0, 0, 0, 3600 * SECOND, F2F, ScheduleActive, 30);
    var bio := art.(course := "BIO1");
    c := Campus([Term(0, 6, TermActive)], [], [], [Floor(0, 1)], [Room(0, "R101", false), Room(0, "R102", false)],
                [art, bio], [], [], []);
    var s := Session(0, 0, 0, 0, 0, 3600 * SECOND, Scheduled, None, None, NoCheckin, None, None, None, None, "", None);
    ss := [s, s.(schedule := 1), s.(schedule := 1, room := 1)];
  }
}
