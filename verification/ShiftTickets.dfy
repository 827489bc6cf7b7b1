/** The life of a modality-shift ticket: submit, withdraw, reject, decide; and its laws over any run. */
module ShiftTickets {
  import opened Availability
  import opened Calendar
  import opened Foresight
  import opened ShiftApproval
  import opened Tables
  import opened Wrappers

  const COOLDOWN := 172_800_000_000  // two days

  /* Submission */

  // now is when the ticket is asked for and judged, created when its row is stamped.
  datatype Submission = Submission(
    faculty: User, schedules: seq<Id>, target: Modality, from: Date, until: Date,
    preferred: map<Id, Id>, move: Option<(TimeOfDay, TimeOfDay)>, dean: Option<Id>, leadDays: int,
    now: Instant, created: Instant)

  datatype SubmitError =
    | NoSchedules | SchedulesOfManyTerms | InvertedWindow | RecentRequest | MoveNotBundled
    | NoSessions | PastLeadTime | NoDean | InstructorDoubleBooked | TermArchivedError

  predicate HasItem(items: seq<ShiftItem>, r: Id, k: Id) {
    exists n :: 0 <= n < |items| && items[n].request == r && items[n].schedule == k
  }

  // Still open, or decided within the cooldown. A withdrawn ticket has no decision time.
  predicate Cooling(r: ShiftRequest, now: Instant) {
    r.status.Pending? || (r.decidedAt.Some? && now - COOLDOWN <= r.decidedAt.value)
  }

  predicate HasRecentRequest(requests: seq<ShiftRequest>, items: seq<ShiftItem>, who: Id, k: Id, now: Instant) {
    exists r :: 0 <= r < |requests| && requests[r].requester == who && HasItem(items, r, k) && Cooling(requests[r], now)
  }

  predicate BeforeLeadCutoff(earliest: Date, leadDays: int, now: Instant) {
    now < At(earliest - leadDays, 0)
  }

  // An in-window session of one of the selected classes.
  predicate InSubmission(sub: Submission, s: Session) {
    Occupying(s) && s.schedule in sub.schedules && sub.from <= s.date <= sub.until
  }

  predicate MoveDoubleBooks(ss: seq<Session>, sub: Submission, i: Id)
    requires i < |ss| && sub.move.Some?
  {
    FacultyHasConflict(ss, sub.faculty.id, At(ss[i].date, sub.move.value.0), At(ss[i].date, sub.move.value.1), Some(i))
  }

  predicate AnyAffected(ss: seq<Session>, sub: Submission) {
    exists i :: 0 <= i < |ss| && InSubmission(sub, ss[i])
  }

  predicate AnyPastLead(ss: seq<Session>, sub: Submission) {
    exists i :: 0 <= i < |ss| && InSubmission(sub, ss[i]) && !BeforeLeadCutoff(ss[i].date, sub.leadDays, sub.now)
  }

  predicate AnyDoubleBooked(ss: seq<Session>, sub: Submission)
    requires sub.move.Some?
  {
    exists i :: 0 <= i < |ss| && InSubmission(sub, ss[i]) && MoveDoubleBooks(ss, sub, i)
  }

  predicate Selectable(c: Campus, sub: Submission) {
    forall j :: 0 <= j < |sub.schedules| ==> sub.schedules[j] < |c.schedules|
  }

  // The first guard that fails, in the order they are applied; None when the ticket is created.
  function SubmitRefusal(c: Campus, ss: seq<Session>, sub: Submission): Option<SubmitError>
    requires Linked(c) && Selectable(c, sub)
  {
    var first := SelectionRefusal(c, sub);
    if first.Some? then first else SessionsRefusal(c, ss, sub)
  }

  // The guards on what is asked for.
  function SelectionRefusal(c: Campus, sub: Submission): (r: Option<SubmitError>)
    requires Linked(c) && Selectable(c, sub)
    ensures r.None? ==> sub.schedules != []
  {
    if sub.schedules == [] then Some(NoSchedules)
    else if exists j :: 0 <= j < |sub.schedules| && c.schedules[sub.schedules[j]].term != c.schedules[sub.schedules[0]].term
    then Some(SchedulesOfManyTerms)
    else if sub.until < sub.from then Some(InvertedWindow)
    else if exists k :: k in sub.schedules && HasRecentRequest(c.requests, c.items, sub.faculty.id, k, sub.now)
    then Some(RecentRequest)
    else if sub.move.Some? && sub.target.Online? then Some(MoveNotBundled)
    else None
  }

  // The guards on the sessions it would affect, and on whom it goes to.
  function SessionsRefusal(c: Campus, ss: seq<Session>, sub: Submission): Option<SubmitError>
    requires Linked(c) && Selectable(c, sub) && sub.schedules != []
  {
    if !AnyAffected(ss, sub) then Some(NoSessions)
    else if AnyPastLead(ss, sub) then Some(PastLeadTime)
    else if sub.faculty.department.None? || sub.dean.None? then Some(NoDean)
    else if sub.move.Some? && AnyDoubleBooked(ss, sub) then Some(InstructorDoubleBooked)
    else if c.terms[c.schedules[sub.schedules[0]].term].status.TermArchived? then Some(TermArchivedError)
    else None
  }

  // A preference survives only when the room is free for every affected session of the class.
  function ValidPreference(c: Campus, ss: seq<Session>, sub: Submission, k: Id): (r: Option<Id>)
    requires Linked(c) && SessionsLinked(c, ss) && k < |c.schedules|
    ensures r.Some? ==> r.value < |c.rooms|
  {
    if k !in sub.preferred then
      None
    else
      var room := sub.preferred[k];
      var mine := InWindowSessions(ss, k, sub.from, sub.until);
      var building := BuildingOf(c, c.schedules[k].room);
      if mine != [] && forall j :: 0 <= j < |mine| ==>
           room in FreeRoomsInBuilding(c, ss, building, ss[mine[j]].start, ss[mine[j]].end, Some(mine[j]), None)
      then
        assert room in FreeRoomsInBuilding(c, ss, building, ss[mine[0]].start, ss[mine[0]].end, Some(mine[0]), None);
        Some(room)
      else
        None
  }

  function NewRequest(sub: Submission): ShiftRequest {
    ShiftRequest(sub.faculty.id, sub.faculty.department, sub.target, sub.from, sub.until, Pending, "", None, None, sub.created)
  }

  function NewItem(c: Campus, ss: seq<Session>, sub: Submission, req: Id, k: Id): ShiftItem
    requires Linked(c) && SessionsLinked(c, ss) && k < |c.schedules|
  {
    ShiftItem(req, k, ValidPreference(c, ss, sub, k), None,
              if sub.move.Some? then Some(sub.move.value.0) else None,
              if sub.move.Some? then Some(sub.move.value.1) else None)
  }

  method Submit(db: Database, sub: Submission) returns (r: Result<Id, SubmitError>)
    requires db.Valid() && Selectable(db.Context(), sub)
    modifies db`requests, db`items
    ensures match SubmitRefusal(old(db.Context()), db.sessions, sub)
            case Some(e) => r == Failure(e) && unchanged(db)
            case None =>
              var c := old(db.Context());
              && r == Success(|c.requests|)
              && db.requests == c.requests + [NewRequest(sub)]
              && |db.items| == |c.items| + |sub.schedules| && c.items <= db.items
              && forall j :: 0 <= j < |sub.schedules| ==>
                   db.items[|c.items| + j] == NewItem(c, db.sessions, sub, |c.requests|, sub.schedules[j])
  {
    hide ValidPreference;
    ghost var c, ss := db.Context(), db.sessions;
    var refusal := SubmitRefusal(db.Context(), db.sessions, sub);
    if refusal.Some? {
      return Failure(refusal.value);
    }
    var context, req := db.Context(), |db.requests|;
    db.requests := db.requests + [NewRequest(sub)];
    for n := 0 to |sub.schedules|
      invariant db.requests == c.requests + [NewRequest(sub)]
      invariant |db.items| == |c.items| + n && c.items <= db.items
      invariant forall j :: 0 <= j < n ==> db.items[|c.items| + j] == NewItem(c, ss, sub, req, sub.schedules[j])
    {
      db.items := db.items + [NewItem(context, db.sessions, sub, req, sub.schedules[n])];
    }
    r := Success(req);
  }

  /* Withdraw and reject */

  function WithdrawRefusal(c: Campus, req: Id, actor: Id): Option<ShiftError>
    requires Linked(c) && req < |c.requests|
  {
    if |TermIds(c, req)| != 1 then Some(ManyTerms)
    else if exists t :: t in TermIds(c, req) && t < |c.terms| && c.terms[t].status.TermArchived? then Some(ArchivedTerm)
    else if c.requests[req].requester != actor then Some(NotTheRequester)
    else if !c.requests[req].status.Pending? then Some(NotPending)
    else None
  }

  method Withdraw(db: Database, req: Id, actor: Id) returns (r: Result<(), ShiftError>)
    requires db.Valid() && req < |db.requests|
    modifies db`requests
    ensures match WithdrawRefusal(old(db.Context()), req, actor)
            case Some(e) => r == Failure(e) && unchanged(db)
            case None =>
              r == Success(()) && db.requests == old(db.requests)[req := old(db.requests)[req].(status := Withdrawn)]
  {
    var refusal := WithdrawRefusal(db.Context(), req, actor);
    if refusal.Some? {
      return Failure(refusal.value);
    }
    db.requests := db.requests[req := db.requests[req].(status := Withdrawn)];
    r := Success(());
  }

  method Reject(db: Database, req: Id, dean: User, reason: string, now: Instant) returns (r: Result<(), ShiftError>)
    requires db.Valid() && req < |db.requests|
    modifies db`requests
    ensures match DecisionRefusal(old(db.Context()), req, dean)
            case Some(e) => r == Failure(e) && unchanged(db)
            case None =>
              && r == Success(())
              && db.requests == old(db.requests)[req := DecidedRow(old(db.requests)[req], Rejected, reason, dean.id, now)]
  {
    var refusal := DecisionRefusal(db.Context(), req, dean);
    if refusal.Some? {
      return Failure(refusal.value);
    }
    db.requests := db.requests[req := db.requests[req].(
      status := Rejected, reason := reason, decidedBy := Some(dean.id), decidedAt := Some(now))];
    r := Success(());
  }

  /* Every run of the ticket services */

  datatype Tickets = Tickets(requests: seq<ShiftRequest>, items: seq<ShiftItem>)

  // One ticket, asked for at a time no later than its stamp, with items for classes that were not cooling then.
  predicate SubmitStep(t: Tickets, u: Tickets, asked: Instant) {
    && |u.requests| == |t.requests| + 1 && t.requests <= u.requests && t.items <= u.items
    && var row := u.requests[|t.requests|];
       && row.status.Pending? && row.decidedAt.None? && asked <= row.createdAt
       && forall n :: |t.items| <= n < |u.items| ==>
            && u.items[n].request == |t.requests|
            && !HasRecentRequest(t.requests, t.items, row.requester, u.items[n].schedule, asked)
  }

  // One open ticket is closed; items keep their ticket and class.
  predicate CloseStep(t: Tickets, u: Tickets, r: Id) {
    && r < |t.requests| == |u.requests| && t.requests[r].status.Pending?
    && (forall q :: 0 <= q < |t.requests| && q != r ==> u.requests[q] == t.requests[q])
    && u.requests[r] == t.requests[r].(
         status := u.requests[r].status, reason := u.requests[r].reason,
         decidedAt := u.requests[r].decidedAt, decidedBy := u.requests[r].decidedBy)
    && (match u.requests[r].status
        case Pending => false
        case Withdrawn => u.requests[r] == t.requests[r].(status := Withdrawn)
        case _ => u.requests[r].decidedAt.Some? && u.requests[r].decidedBy.Some?)
    && |t.items| == |u.items|
    && forall n :: 0 <= n < |t.items| ==>
         u.items[n].request == t.items[n].request && u.items[n].schedule == t.items[n].schedule
  }

  ghost predicate TicketStep(t: Tickets, u: Tickets) {
    t == u || (exists asked :: SubmitStep(t, u, asked)) || exists r :: CloseStep(t, u, r)
  }

  /* Each service call is a step */

  lemma SubmitIsStep(c: Campus, ss: seq<Session>, sub: Submission, items: seq<ShiftItem>)
    requires Linked(c) && Selectable(c, sub) && SubmitRefusal(c, ss, sub).None? && sub.now <= sub.created
    requires |items| == |c.items| + |sub.schedules| && c.items <= items
    requires forall j :: 0 <= j < |sub.schedules| ==>
      items[|c.items| + j].request == |c.requests| && items[|c.items| + j].schedule == sub.schedules[j]
    ensures SubmitStep(Tickets(c.requests, c.items), Tickets(c.requests + [NewRequest(sub)], items), sub.now)
  {
    forall n | |c.items| <= n < |items|
      ensures items[n].request == |c.requests|
      ensures !HasRecentRequest(c.requests, c.items, sub.faculty.id, items[n].schedule, sub.now)
    {
      var j := n - |c.items|;
      assert items[|c.items| + j].schedule == sub.schedules[j] && sub.schedules[j] in sub.schedules;
    }
  }

  // The row is decided so, by this Dean at this time.
  predicate DecidedAs(row: ShiftRequest, status: ShiftStatus, reason: string, dean: Id, now: Instant) {
    row.status == status && row.reason == reason && row.decidedAt == Some(now) && row.decidedBy == Some(dean)
  }

  lemma DecisionIsStep(c: Campus, ss: seq<Session>, req: Id, dean: User, now: Instant)
    requires Linked(c) && SessionsLinked(c, ss) && req < |c.requests|
    requires DecisionRefusal(c, req, dean).None?
    ensures
      var t := Tickets(c.requests, c.items);
      match Consequence(c, ss, req, dean.id, now)
      case Failure(reason) =>
        var row := DecidedRow(c.requests[req], Denied, reason, dean.id, now);
        && DecidedAs(row, Denied, reason, dean.id, now)
        && CloseStep(t, t.(requests := c.requests[req := row]), req)
      case Success(st) =>
        var row := DecidedRow(c.requests[req], Approved, c.requests[req].reason, dean.id, now);
        && DecidedAs(row, Approved, c.requests[req].reason, dean.id, now)
        && CloseStep(t, Tickets(c.requests[req := row], st.items), req)
  {
    hide ShiftItems;
  }

  lemma RejectIsStep(c: Campus, req: Id, dean: User, reason: string, now: Instant)
    requires Linked(c) && req < |c.requests| && DecisionRefusal(c, req, dean).None?
    ensures
      var t := Tickets(c.requests, c.items);
      var row := DecidedRow(c.requests[req], Rejected, reason, dean.id, now);
      DecidedAs(row, Rejected, reason, dean.id, now) && CloseStep(t, t.(requests := c.requests[req := row]), req)
  {
  }

  lemma WithdrawIsStep(c: Campus, req: Id, actor: Id)
    requires Linked(c) && req < |c.requests| && WithdrawRefusal(c, req, actor).None?
    ensures
      var t := Tickets(c.requests, c.items);
      CloseStep(t, t.(requests := c.requests[req := c.requests[req].(status := Withdrawn)]), req)
  {
  }

  /* Time moves are whole */

  // A submission only ever adds items that carry both ends of a time move or neither.
  lemma SubmissionKeepsMovesWhole(c: Campus, ss: seq<Session>, sub: Submission, items: seq<ShiftItem>)
    requires Linked(c) && SessionsLinked(c, ss) && Selectable(c, sub) && WholeMoves(c)
    requires |items| == |c.items| + |sub.schedules| && c.items <= items
    requires forall j :: 0 <= j < |sub.schedules| ==>
      items[|c.items| + j] == NewItem(c, ss, sub, |c.requests|, sub.schedules[j])
    ensures WholeMoves(c.(items := items))
  {
    hide ValidPreference;
    forall i | i in items ensures i.newStart.Some? <==> i.newEnd.Some? {
      var n :| 0 <= n < |items| && items[n] == i;
      if n < |c.items| {
        assert i == c.items[n];
      } else {
        var j := n - |c.items|;
        assert items[|c.items| + j] == NewItem(c, ss, sub, |c.requests|, sub.schedules[j]);
      }
    }
  }

  // An approval changes no item's time move.
  lemma ApprovalKeepsMovesWhole(c: Campus, ss: seq<Session>, req: Id, dean: Id, now: Instant)
    requires Linked(c) && SessionsLinked(c, ss) && req < |c.requests| && WholeMoves(c)
    requires Consequence(c, ss, req, dean, now).Success?
    ensures WholeMoves(c.(items := Consequence(c, ss, req, dean, now).value.items))
  {
    hide ShiftItems;
    var items := Consequence(c, ss, req, dean, now).value.items;
    forall i | i in items ensures i.newStart.Some? <==> i.newEnd.Some? {
      var n :| 0 <= n < |items| && items[n] == i;
      assert c.items[n] in c.items;
    }
  }

  /* What holds along every run */

  ghost predicate TicketRun(trace: seq<Tickets>) {
    && trace != [] && trace[0] == Tickets([], [])
    && forall i :: 0 <= i < |trace| - 1 ==> TicketStep(trace[i], trace[i + 1])
  }

  // Decided means stamped: PENDING and WITHDRAWN tickets carry no decision time, others do.
  predicate Stamped(t: Tickets) {
    forall r :: 0 <= r < |t.requests| ==>
      (t.requests[r].decidedAt.None? <==> t.requests[r].status.Pending? || t.requests[r].status.Withdrawn?)
  }

  // Two tickets of one requester for one class, the earlier one r.
  predicate Repeated(t: Tickets, r: Id, q: Id, k: Id) {
    && r < q < |t.requests| && t.requests[r].requester == t.requests[q].requester
    && HasItem(t.items, r, k) && HasItem(t.items, q, k)
  }

  // The earlier ticket was closed before the later was made: withdrawn, or decided more than two days before.
  ghost predicate Spaced(t: Tickets) {
    forall r: Id, q: Id, k: Id :: Repeated(t, r, q, k) ==>
      && !t.requests[r].status.Pending?
      && (t.requests[r].decidedAt.Some? ==> t.requests[r].decidedAt.value + COOLDOWN < t.requests[q].createdAt)
  }

  predicate ItemsKnown(t: Tickets) {
    forall n :: 0 <= n < |t.items| ==> t.items[n].request < |t.requests|
  }

  lemma StepKeepsLaws(t: Tickets, u: Tickets)
    requires TicketStep(t, u) && Stamped(t) && Spaced(t) && ItemsKnown(t)
    ensures Stamped(u) && Spaced(u) && ItemsKnown(u)
    ensures forall r :: 0 <= r < |t.requests| && !t.requests[r].status.Pending? ==>
      r < |u.requests| && u.requests[r] == t.requests[r]
  {
    if asked :| SubmitStep(t, u, asked) {
      forall r: Id, k: Id | r < |t.requests| && HasItem(u.items, r, k) ensures HasItem(t.items, r, k) {
        var n :| 0 <= n < |u.items| && u.items[n].request == r && u.items[n].schedule == k;
        assert n < |t.items| && t.items[n] == u.items[n];
      }
      forall r: Id, q: Id, k: Id | Repeated(u, r, q, k)
        ensures !u.requests[r].status.Pending?
        ensures u.requests[r].decidedAt.Some? ==> u.requests[r].decidedAt.value + COOLDOWN < u.requests[q].createdAt
      {
        assert u.requests[r] == t.requests[r];
        if q < |t.requests| {
          assert Repeated(t, r, q, k);
        } else {
          var n :| 0 <= n < |u.items| && u.items[n].request == q && u.items[n].schedule == k;
          assert !HasRecentRequest(t.requests, t.items, u.requests[q].requester, k, asked);
        }
      }
    } else if exists r :: CloseStep(t, u, r) {
      var x :| CloseStep(t, u, x);
      forall r: Id, k: Id | HasItem(u.items, r, k) ensures HasItem(t.items, r, k) {
        var n :| 0 <= n < |u.items| && u.items[n].request == r && u.items[n].schedule == k;
        assert t.items[n].request == r;
      }
      forall r: Id, q: Id, k: Id | Repeated(u, r, q, k) ensures Repeated(t, r, q, k) && r != x {
        assert t.requests[r].requester == u.requests[r].requester;
        assert Repeated(t, r, q, k);
      }
    }
  }

  lemma {:induction false} LawsHoldAlongEveryRun(trace: seq<Tickets>, i: nat)
    requires TicketRun(trace) && i < |trace|
    ensures Stamped(trace[i]) && Spaced(trace[i]) && ItemsKnown(trace[i])
  {
    if i > 0 {
      LawsHoldAlongEveryRun(trace, i - 1);
      StepKeepsLaws(trace[i - 1], trace[i]);
    }
  }

  // Only a PENDING ticket ever changes: once closed, a ticket is the same row for ever.
  lemma {:induction false} ClosedTicketsAreFinal(trace: seq<Tickets>, i: nat, j: nat, r: Id)
    requires TicketRun(trace) && i <= j < |trace|
    requires r < |trace[i].requests| && !trace[i].requests[r].status.Pending?
    ensures r < |trace[j].requests| && trace[j].requests[r] == trace[i].requests[r]
  {
    if i < j {
      ClosedTicketsAreFinal(trace, i, j - 1, r);
      LawsHoldAlongEveryRun(trace, j - 1);
      StepKeepsLaws(trace[j - 1], trace[j]);
    }
  }

  // No requester ever has two open tickets for one class.
  lemma NeverTwoOpenTickets(trace: seq<Tickets>, i: nat, r: Id, q: Id, k: Id)
    requires TicketRun(trace) && i < |trace|
    requires r < |trace[i].requests| && q < |trace[i].requests| && r != q
    requires trace[i].requests[r].requester == trace[i].requests[q].requester
    requires HasItem(trace[i].items, r, k) && HasItem(trace[i].items, q, k)
    ensures !(trace[i].requests[r].status.Pending? && trace[i].requests[q].status.Pending?)
  {
    LawsHoldAlongEveryRun(trace, i);
    assert r < q ==> Repeated(trace[i], r, q, k);
    assert q < r ==> Repeated(trace[i], q, r, k);
  }
}
