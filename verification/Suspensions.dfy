/** Declaring a class suspension and lifting it: reversible bulk cancellation. */
module Suspensions {
  import opened Calendar
  import opened Excusal
  import opened Queries
  import opened Tables
  import opened Text
  import opened Wrappers

  const FLIP_CHUNK := 900

  // The session meets on a date and in a building the suspension speaks of.
  predicate InReach(c: Campus, sup: Suspension, s: Session)
    requires Linked(c) && s.schedule < |c.schedules| && s.room < |c.rooms|
  {
    && c.schedules[s.schedule].term == sup.term
    && sup.start <= s.date <= sup.end
    && (sup.building.None? || BuildingOf(c, s.room) == sup.building.value)
  }

  // What declaring sup cancels, and what lifting it reinstates.
  predicate Cancels(c: Campus, sup: Suspension, s: Session)
    requires Linked(c) && s.schedule < |c.schedules| && s.room < |c.rooms|
  {
    s.status.Scheduled? && InReach(c, sup, s)
  }

  predicate Reinstates(c: Campus, sup: Suspension, s: Session)
    requires Linked(c) && s.schedule < |c.schedules| && s.room < |c.rooms|
  {
    s.status.Cancelled? && s.cancelledReason == Truncate(sup.reason) && InReach(c, sup, s)
  }

  function Suspended(c: Campus, ss: seq<Session>, sup: Suspension): (tt: seq<Session>)
    requires Linked(c) && SessionsLinked(c, ss)
    ensures |tt| == |ss|
    ensures forall i :: 0 <= i < |ss| ==>
      tt[i] == if Cancels(c, sup, ss[i]) then Flip(ss[i], Cancelled, Truncate(sup.reason)) else ss[i]
  {
    seq(|ss|, i requires 0 <= i < |ss| =>
      if Cancels(c, sup, ss[i]) then Flip(ss[i], Cancelled, Truncate(sup.reason)) else ss[i])
  }

  function Lifted(c: Campus, ss: seq<Session>, sup: Suspension): (tt: seq<Session>)
    requires Linked(c) && SessionsLinked(c, ss)
    ensures |tt| == |ss|
    ensures forall i :: 0 <= i < |ss| ==>
      tt[i] == if Reinstates(c, sup, ss[i]) then Flip(ss[i], Scheduled, "") else ss[i]
  {
    seq(|ss|, i requires 0 <= i < |ss| => if Reinstates(c, sup, ss[i]) then Flip(ss[i], Scheduled, "") else ss[i])
  }

  function Flip(s: Session, status: SessionStatus, reason: string): Session {
    s.(status := status, cancelledReason := reason)
  }

  // The update statement over a set of keys.
  function FlipAll(ss: seq<Session>, ids: seq<Id>, status: SessionStatus, reason: string): (tt: seq<Session>)
    ensures |tt| == |ss|
    ensures forall i :: 0 <= i < |ss| ==> tt[i] == if i in ids then Flip(ss[i], status, reason) else ss[i]
  {
    seq(|ss|, i requires 0 <= i < |ss| => if i in ids then Flip(ss[i], status, reason) else ss[i])
  }

  // Updating two lists of keys in turn is updating them together.
  lemma FlipsCompose(ss: seq<Session>, a: seq<Id>, b: seq<Id>, status: SessionStatus, reason: string)
    ensures FlipAll(FlipAll(ss, a, status, reason), b, status, reason) == FlipAll(ss, a + b, status, reason)
    ensures FlipAll(ss, [], status, reason) == ss
  {
    assert forall i: Id :: i in a + b <==> i in a || i in b;
  }

  lemma AuditsCompose(event: AuditEvent, a: seq<Id>, b: seq<Id>)
    ensures AuditAll(event, a) + AuditAll(event, b) == AuditAll(event, a + b)
    ensures AuditAll(event, []) == []
  {
  }

  // Chunk by chunk, the rows end up exactly as in one update of them all.
  method FlipInChunks(db: Database, ids: seq<Id>, status: SessionStatus, reason: string, event: AuditEvent)
    modifies db`sessions, db`audit
    ensures db.sessions == FlipAll(old(db.sessions), ids, status, reason)
    ensures db.audit == old(db.audit) + AuditAll(event, ids)
  {
    hide FlipAll;
    hide AuditAll;
    ghost var ss, log := db.sessions, db.audit;
    var i := 0;
    assert ids[..0] == [];
    FlipsCompose(ss, [], [], status, reason);
    AuditsCompose(event, [], []);
    while i < |ids|
      invariant 0 <= i <= |ids|
      invariant db.sessions == FlipAll(ss, ids[..i], status, reason)
      invariant db.audit == log + AuditAll(event, ids[..i])
      decreases |ids| - i
    {
      var next := if i + FLIP_CHUNK < |ids| then i + FLIP_CHUNK else |ids|;
      var chunk := ids[i..next];
      FlipsCompose(ss, ids[..i], chunk, status, reason);
      AuditsCompose(event, ids[..i], chunk);
      assert ids[..next] == ids[..i] + chunk;
      db.sessions := FlipAll(db.sessions, chunk, status, reason);
      db.audit := db.audit + AuditAll(event, chunk);
      i := next;
    }
    assert ids[..|ids|] == ids;
  }

  datatype SuspensionError = TermIsArchived

  function CancelIds(c: Campus, ss: seq<Session>, sup: Suspension): (ids: seq<Id>)
    requires Linked(c) && SessionsLinked(c, ss)
    ensures forall i: Id :: i in ids <==> i < |ss| && Cancels(c, sup, ss[i])
  {
    IdsWhere(ss, (s: Session) => s.schedule < |c.schedules| && s.room < |c.rooms| && Cancels(c, sup, s))
  }

  function ReinstateIds(c: Campus, ss: seq<Session>, sup: Suspension): (ids: seq<Id>)
    requires Linked(c) && SessionsLinked(c, ss)
    ensures forall i: Id :: i in ids <==> i < |ss| && Reinstates(c, sup, ss[i])
  {
    IdsWhere(ss, (s: Session) => s.schedule < |c.schedules| && s.room < |c.rooms| && Reinstates(c, sup, s))
  }

  method SuspendClasses(db: Database, term: Id, start: Date, end: Date, reason: string, building: Option<Id>)
    returns (r: Result<(Id, nat), SuspensionError>)
    requires db.Valid() && term < |db.terms|
    modifies db`suspensions, db`sessions, db`audit
    ensures db.terms[term].status.TermArchived? ==> r == Failure(TermIsArchived) && unchanged(db)
    ensures !db.terms[term].status.TermArchived? ==>
      var sup := Suspension(term, start, end, building, reason, None);
      var ids := CancelIds(old(db.Context()), old(db.sessions), sup);
      && r == Success((|old(db.suspensions)|, |ids|))
      && db.suspensions == old(db.suspensions) + [sup]
      && db.sessions == Suspended(old(db.Context()), old(db.sessions), sup)
      && db.audit == old(db.audit) + AuditAll(SessionCancelled, ids)
  {
    ghost var c, ss := db.Context(), db.sessions;
    if db.terms[term].status.TermArchived? {
      return Failure(TermIsArchived);
    }
    var sup := Suspension(term, start, end, building, reason, None);
    var id := |db.suspensions|;
    var ids := CancelIds(db.Context(), db.sessions, sup);
    db.suspensions := db.suspensions + [sup];
    if ids == [] {
      NothingToFlip(c, ss, sup);
      return Success((id, 0));
    }
    FlipInChunks(db, ids, Cancelled, Truncate(reason), SessionCancelled);
    assert db.sessions == Suspended(c, ss, sup);
    r := Success((id, |ids|));
  }

  lemma NothingToFlip(c: Campus, ss: seq<Session>, sup: Suspension)
    requires Linked(c) && SessionsLinked(c, ss)
    ensures CancelIds(c, ss, sup) == [] ==> Suspended(c, ss, sup) == ss
    ensures AuditAll(SessionCancelled, []) == []
  {
    var ids := CancelIds(c, ss, sup);
    if ids == [] {
      forall i: Id | i < |ss| ensures !Cancels(c, sup, ss[i]) {
        assert i !in ids;
      }
    }
  }

  method LiftSuspension(db: Database, id: Id, now: Instant) returns (r: Result<nat, SuspensionError>)
    requires db.Valid() && id < |db.suspensions|
    modifies db`suspensions, db`sessions, db`audit
    ensures
      var sup := old(db.suspensions)[id];
      if db.terms[sup.term].status.TermArchived? then
        r == Failure(TermIsArchived) && unchanged(db)
      else if sup.lifted.Some? then
        r == Success(0) && unchanged(db)
      else
        var ids := ReinstateIds(old(db.Context()), old(db.sessions), sup);
        && r == Success(|ids|)
        && db.suspensions == old(db.suspensions)[id := sup.(lifted := Some(now))]
        && db.sessions == Lifted(old(db.Context()), old(db.sessions), sup)
        && db.audit == old(db.audit) + AuditAll(SuspensionLifted, ids)
  {
    ghost var c, ss := db.Context(), db.sessions;
    var sup := db.suspensions[id];
    if db.terms[sup.term].status.TermArchived? {
      return Failure(TermIsArchived);
    }
    if sup.lifted.Some? {
      return Success(0);
    }
    var ids := ReinstateIds(db.Context(), db.sessions, sup);
    FlipInChunks(db, ids, Scheduled, "", SuspensionLifted);
    db.suspensions := db.suspensions[id := sup.(lifted := Some(now))];
    assert db.sessions == Lifted(c, ss, sup);
    r := Success(|ids|);
  }

  // Declaring a suspension and lifting it again gives a session back as it was, exactly when it
  // had no reason of an earlier cancellation on it, and was not already cancelled for this one.
  lemma LiftUndoesSuspendIff(c: Campus, ss: seq<Session>, sup: Suspension, i: Id)
    requires Linked(c) && SessionsLinked(c, ss) && i < |ss| && sup.term < |c.terms|
    ensures
      var c' := c.(suspensions := c.suspensions + [sup]);
      Linked(c') && SessionsLinked(c', Suspended(c, ss, sup)) && |Lifted(c', Suspended(c, ss, sup), sup)| == |ss|
    ensures
      var c' := c.(suspensions := c.suspensions + [sup]);
      Lifted(c', Suspended(c, ss, sup), sup)[i] == ss[i] <==>
        && (Cancels(c, sup, ss[i]) ==> ss[i].cancelledReason == "")
        && !Reinstates(c, sup, ss[i])
  {
    hide Truncate;
    var c' := c.(suspensions := c.suspensions + [sup]);
    forall n | 0 <= n < |c'.items| ensures ItemLinked(c', c'.items[n]) {
      assert ItemLinked(c, c.items[n]);
    }
    hide ItemLinked;
    var mid := Suspended(c, ss, sup);
    assert InReach(c', sup, mid[i]) <==> InReach(c, sup, ss[i]);
  }

  // A suspension cancels exactly the SCHEDULED sessions that it alone would excuse.
  lemma CancelsWhatItExcuses(c: Campus, sup: Suspension, s: Session)
    requires Linked(c) && s.schedule < |c.schedules| && s.room < |c.rooms|
    requires sup.term < |c.terms| && sup.lifted.None?
    ensures Linked(c.(breaks := [], suspensions := [sup]))
    ensures Cancels(c, sup, s) <==> s.status.Scheduled? && SessionExcused(c.(breaks := [], suspensions := [sup]), s)
  {
    var alone := c.(breaks := [], suspensions := [sup]);
    forall n | 0 <= n < |alone.items| ensures ItemLinked(alone, alone.items[n]) {
      assert ItemLinked(c, c.items[n]);
    }
    hide ItemLinked;
    assert sup in alone.suspensions;
  }
}
