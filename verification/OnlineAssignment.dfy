/** Handing a date's unowned online sessions to the checkers whose duty covers them. */
module OnlineAssignment {
  import opened Calendar
  import opened Duty
  import opened Jobs
  import opened Queries
  import opened RoundRobin
  import opened Tables
  import opened Wrappers

  /* What there is to assign, and who may take it */

  predicate Candidate(c: Campus, term: Id, date: Date, s: Session) {
    && s.date == date && s.onlineChecker.None?
    && s.schedule < |c.schedules| && c.schedules[s.schedule].term == term
    && EffectiveModality(c, s).Online?
  }

  // The candidates, earliest start first.
  function Candidates(c: Campus, ss: seq<Session>, term: Id, date: Date): (ids: seq<Id>)
    ensures forall i: Id :: i in ids <==> i < |ss| && Candidate(c, term, date, ss[i])
    ensures Distinct(ids) && Keys(ids, |ss|)
  {
    var rows := IdsWhere(ss, (s: Session) => Candidate(c, term, date, s));
    var ids := OrderBy(rows, StartOf(ss), KeyOf());
    OrderByKeepsDistinct(rows, StartOf(ss), KeyOf());
    assert forall j :: 0 <= j < |ids| ==> ids[j] in ids;
    ids
  }

  predicate OnOnlineDuty(p: Posting, term: Id, date: Date) {
    && p.role.CheckerDuty? && p.scope.OnlineScope? && p.active && p.term == Some(term)
    && (p.date.None? || p.date.value == date)
  }

  predicate Eligible(postings: seq<Posting>, term: Id, date: Date, at: Instant, user: Id) {
    exists j :: 0 <= j < |postings| && postings[j].user == user
      && OnOnlineDuty(postings[j], term, date) && CoversInstant(postings[j], at)
  }

  // The checkers on online duty at the given start, by ascending key, each once.
  function Roster(postings: seq<Posting>, term: Id, date: Date, at: Instant): (e: seq<Id>)
    ensures forall u: Id :: u in e <==> Eligible(postings, term, date, at, u)
    ensures Distinct(e)
  {
    Sorted(set j | 0 <= j < |postings| && OnOnlineDuty(postings[j], term, date) && CoversInstant(postings[j], at)
      :: postings[j].user)
  }

  // Each session's roster.
  function Rosters(postings: seq<Posting>, term: Id, date: Date, ss: seq<Session>): nat -> seq<nat> {
    (i: nat) => if i < |ss| then Roster(postings, term, date, ss[i].start) else []
  }

  /* What one run does */

  function Owned(s: Session, owner: Option<Id>): Session {
    if owner.Some? then s.(onlineChecker := owner) else s
  }

  // tt is ss with the first n listed sessions handed to their round-robin owners.
  predicate HandedOut(ss: seq<Session>, tt: seq<Session>, ids: seq<Id>, n: nat, pool: nat -> seq<nat>) {
    && |tt| == |ss| && Keys(ids, |ss|) && n <= |ids|
    && (forall m :: 0 <= m < n ==> tt[ids[m]] == Owned(ss[ids[m]], Owner(ids, pool, m)))
    && (forall i: Id :: i < |ss| && i !in ids[..n] ==> tt[i] == ss[i])
  }

  function Covered(pool: nat -> seq<nat>): nat -> bool {
    (i: nat) => pool(i) != []
  }

  lemma HandStart(ss: seq<Session>, ids: seq<Id>, pool: nat -> seq<nat>)
    requires Keys(ids, |ss|)
    ensures HandedOut(ss, ss, ids, 0, pool)
  {
  }

  lemma HandStep(ss: seq<Session>, tt: seq<Session>, ids: seq<Id>, n: nat, pool: nat -> seq<nat>)
    requires Distinct(ids) && n < |ids| && HandedOut(ss, tt, ids, n, pool)
    ensures tt[ids[n]] == ss[ids[n]]
    ensures HandedOut(ss, tt[ids[n] := Owned(tt[ids[n]], Owner(ids, pool, n))], ids, n + 1, pool)
  {
    hide Owner;
    var i := ids[n];
    assert i !in ids[..n] && ids[..n + 1] == ids[..n] + [i];
  }

  method WriteOwners(db: Database, ids: seq<Id>, pool: nat -> seq<nat>, mapping: map<Id, Id>) returns (handed: nat)
    requires db.Valid() && Distinct(ids) && Keys(ids, |db.sessions|)
    requires forall n :: 0 <= n < |ids| ==> Lookup(mapping, ids[n]) == Owner(ids, pool, n)
    modifies db`sessions, db`audit
    ensures db.Valid()
    ensures HandedOut(old(db.sessions), db.sessions, ids, |ids|, pool)
    ensures db.audit == old(db.audit) + AuditAll(OnlineCheckerAssigned, Keep(ids, Covered(pool)))
    ensures handed == |Keep(ids, Covered(pool))|
  {
    hide Keep;
    hide Owner;
    hide HandedOut;
    hide Distinct;
    ghost var c, ss := db.Context(), db.sessions;
    handed := 0;
    assert ids[..0] == [];
    KeepNone(Covered(pool));
    HandStart(ss, ids, pool);
    for n := 0 to |ids|
      invariant db.Context() == c && db.Valid() && |db.sessions| == |ss|
      invariant HandedOut(ss, db.sessions, ids, n, pool)
      invariant db.audit == old(db.audit) + AuditAll(OnlineCheckerAssigned, Keep(ids[..n], Covered(pool)))
      invariant handed == |Keep(ids[..n], Covered(pool))|
    {
      var i := ids[n];
      KeepStep(ids, n, Covered(pool));
      HandStep(ss, db.sessions, ids, n, pool);
      assert Lookup(mapping, i) == Owner(ids, pool, n);
      if i !in mapping {
        assert db.sessions[i := db.sessions[i]] == db.sessions;
        continue;
      }
      db.sessions := db.sessions[i := db.sessions[i].(onlineChecker := Some(mapping[i]))];
      db.audit := db.audit + [AuditEntry(OnlineCheckerAssigned, i)];
      handed := handed + 1;
    }
    assert ids[..|ids|] == ids;
  }

  // tt is what one run over ss leaves.
  predicate Assigns(c: Campus, postings: seq<Posting>, term: Id, date: Date, ss: seq<Session>, tt: seq<Session>) {
    var ids := Candidates(c, ss, term, date);
    HandedOut(ss, tt, ids, |ids|, Rosters(postings, term, date, ss))
  }

  method AssignOnlineSessions(db: Database, postings: seq<Posting>, date: Date) returns (handed: nat, unowned: nat)
    requires db.Valid()
    modifies db`sessions, db`audit
    ensures db.Valid()
    ensures ActiveTerm(db.Context()).None? ==>
      db.sessions == old(db.sessions) && db.audit == old(db.audit) && handed == unowned == 0
    ensures ActiveTerm(db.Context()).Some? ==>
      var term := ActiveTerm(db.Context()).value;
      var ids := Candidates(db.Context(), old(db.sessions), term, date);
      var pool := Rosters(postings, term, date, old(db.sessions));
      && Assigns(db.Context(), postings, term, date, old(db.sessions), db.sessions)
      && db.audit == old(db.audit) + AuditAll(OnlineCheckerAssigned, Keep(ids, Covered(pool)))
      && handed == |Keep(ids, Covered(pool))|
      && handed + unowned == |ids|
  {
    hide HandedOut;
    hide Keep;
    hide Candidate;
    hide Owner;
    hide ActiveTerm;
    hide AuditAll;
    handed, unowned := 0, 0;
    var term := ActiveTerm(db.Context());
    if term.None? {
      return;
    }
    var ids := Candidates(db.Context(), db.sessions, term.value, date);
    var pool := Rosters(postings, term.value, date, db.sessions);
    var order, groups := GroupByPool(ids, pool);
    var mapping := MapOwners(ids, pool, order, groups);
    handed := WriteOwners(db, ids, pool, mapping);
    unowned := |ids| - handed;
  }

  /* What the assignment promises */

  lemma OwnerFollowsRoster(postings: seq<Posting>, term: Id, date: Date, ss: seq<Session>, ids: seq<Id>, n: nat)
    requires n < |ids| && ids[n] < |ss|
    ensures
      var o := Owner(ids, Rosters(postings, term, date, ss), n);
      && (o.None? <==> forall u: Id :: !Eligible(postings, term, date, ss[ids[n]].start, u))
      && (o.Some? ==> Eligible(postings, term, date, ss[ids[n]].start, o.value))
  {
    hide Eligible;
    var e := Roster(postings, term, date, ss[ids[n]].start);
    assert Rosters(postings, term, date, ss)(ids[n]) == e;
    HeadIsMember(e);
    assert e == [] ==> forall u: Id :: u !in e;
  }

  // A candidate stays unowned exactly when no posting covers its start, and an owner is
  // eligible; nothing else about any session changes.
  lemma OwnersAreEligible(
    c: Campus, postings: seq<Posting>, term: Id, date: Date, ss: seq<Session>, tt: seq<Session>, i: Id)
    requires Assigns(c, postings, term, date, ss, tt) && i < |ss|
    ensures |tt| == |ss| && tt[i] == ss[i].(onlineChecker := tt[i].onlineChecker)
    ensures !Candidate(c, term, date, ss[i]) ==> tt[i] == ss[i]
    ensures Candidate(c, term, date, ss[i]) ==>
      && (tt[i].onlineChecker.None? <==> forall u: Id :: !Eligible(postings, term, date, ss[i].start, u))
      && (tt[i].onlineChecker.Some? ==> Eligible(postings, term, date, ss[i].start, tt[i].onlineChecker.value))
  {
    hide Eligible;
    hide Owner;
    var ids := Candidates(c, ss, term, date);
    assert ids[..|ids|] == ids;
    if i in ids {
      var n: nat :| n < |ids| && ids[n] == i;
      OwnerFollowsRoster(postings, term, date, ss, ids, n);
    }
  }

  lemma AssignsKeepsLength(
    c: Campus, postings: seq<Posting>, term: Id, date: Date, ss: seq<Session>, tt: seq<Session>)
    requires Assigns(c, postings, term, date, ss, tt)
    ensures |tt| == |ss|
  {
  }

  // Nothing but a missing owner is ever written.
  lemma OnlyMissingOwners(
    c: Campus, postings: seq<Posting>, term: Id, date: Date, ss: seq<Session>, tt: seq<Session>, i: Id)
    requires Assigns(c, postings, term, date, ss, tt) && i < |ss|
    ensures |tt| == |ss| && tt[i] == ss[i].(onlineChecker := tt[i].onlineChecker)
    ensures ss[i].onlineChecker.Some? ==> tt[i] == ss[i]
  {
    hide Assigns;
    hide Eligible;
    OwnersAreEligible(c, postings, term, date, ss, tt, i);
  }

  function OwnerIn(tt: seq<Session>): nat -> Option<nat> {
    (i: nat) => if i < |tt| then tt[i].onlineChecker else None
  }

  // The candidates that have roster e and went to user u.
  function Portion(
    c: Campus, postings: seq<Posting>, term: Id, date: Date, ss: seq<Session>, tt: seq<Session>, e: seq<Id>, u: Id): seq<Id>
  {
    Load(Candidates(c, ss, term, date), Rosters(postings, term, date, ss), OwnerIn(tt), e, u)
  }

  // Among the sessions one roster covers, no two of its checkers differ by more than one, and
  // it is the lower-keyed checker who takes the odd one.
  lemma SharesAreEven(
    c: Campus, postings: seq<Posting>, term: Id, date: Date, ss: seq<Session>, tt: seq<Session>,
    e: seq<Id>, a: nat, b: nat)
    requires Assigns(c, postings, term, date, ss, tt)
    requires Distinct(e) && a < b < |e|
    ensures
      var x := |Portion(c, postings, term, date, ss, tt, e, e[a])|;
      var y := |Portion(c, postings, term, date, ss, tt, e, e[b])|;
      y <= x <= y + 1
  {
    hide Owner;
    var ids := Candidates(c, ss, term, date);
    var pool := Rosters(postings, term, date, ss);
    forall n: nat | n < |ids| ensures OwnerIn(tt)(ids[n]) == Owner(ids, pool, n) {
      assert ids[n] in ids;
      assert ss[ids[n]].onlineChecker.None?;
    }
    LoadsAreEven(ids, pool, OwnerIn(tt), e, a, b);
  }

  // A later run, under whatever duty roster then stands, never moves an owner; under the same
  // roster it changes nothing.
  lemma RerunMovesNoOwner(
    c: Campus, postings: seq<Posting>, later: seq<Posting>, term: Id, date: Date,
    ss: seq<Session>, tt: seq<Session>, uu: seq<Session>, i: Id)
    requires Assigns(c, postings, term, date, ss, tt) && Assigns(c, later, term, date, tt, uu) && i < |ss|
    ensures |uu| == |tt| == |ss|
    ensures tt[i].onlineChecker.Some? ==> uu[i] == tt[i]
    ensures later == postings ==> uu[i] == tt[i]
  {
    hide Assigns;
    hide Eligible;
    OwnersAreEligible(c, postings, term, date, ss, tt, i);
    OwnersAreEligible(c, later, term, date, tt, uu, i);
  }

  // A run gives an owner only to an unowned online session of the term on the date, and only one
  // with an active online posting of the term that covers the date and the session's start.
  lemma AssignedMeans(
    c: Campus, postings: seq<Posting>, term: Id, date: Date, ss: seq<Session>, tt: seq<Session>, i: Id)
    requires Assigns(c, postings, term, date, ss, tt) && i < |ss| && |tt| == |ss| && tt[i] != ss[i]
    ensures
      var s := ss[i];
      && s.date == date && s.onlineChecker == None && s.schedule < |c.schedules|
      && c.schedules[s.schedule].term == term && EffectiveModality(c, s) == Online
      && tt[i].onlineChecker.Some?
      && exists p :: p in postings && p.user == tt[i].onlineChecker.value && p.role == CheckerDuty
           && p.scope == OnlineScope && p.active && p.term == Some(term)
           && (p.date.Some? ==> p.date.value == date) && CoversInstant(p, s.start)
  {
    hide Assigns;
    hide EffectiveModality;
    hide CoversInstant;
    OwnersAreEligible(c, postings, term, date, ss, tt, i);
  }
}
