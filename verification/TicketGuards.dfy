/** Who may submit, decide or withdraw a ticket, and what a submitted ticket asks for. */
module TicketGuards {
  import opened Availability
  import opened Calendar
  import opened ShiftApproval
  import opened ShiftTickets
  import opened Tables
  import opened Wrappers

  /* Submission */

  // The instructor who submits teaches something else when session i would meet.
  predicate MovesOntoAnother(ss: seq<Session>, sub: Submission, i: Id)
    requires i < |ss| && sub.move.Some?
  {
    exists j :: 0 <= j < |ss| && j != i && ss[j].faculty == sub.faculty.id
      && (ss[j].status.Scheduled? || ss[j].status.Active?)
      && ss[j].start < At(ss[i].date, sub.move.value.1) && At(ss[i].date, sub.move.value.0) < ss[j].end
  }

  // Ticket r is the submitter's own, for class k, and still open, or decided within two days.
  predicate Blocks(c: Campus, sub: Submission, r: Id, k: Id) {
    && r < |c.requests| && c.requests[r].requester == sub.faculty.id && HasItem(c.items, r, k)
    && (c.requests[r].status.Pending?
        || (c.requests[r].decidedAt.Some? && sub.now <= c.requests[r].decidedAt.value + 2 * DAY))
  }

  // A SCHEDULED or ACTIVE session of a selected class dated inside the window.
  predicate AskedFor(sub: Submission, s: Session) {
    s.schedule in sub.schedules && (s.status.Scheduled? || s.status.Active?) && sub.from <= s.date && s.date <= sub.until
  }

  // What the guard behind each refusal demands.
  ghost predicate Meets(c: Campus, ss: seq<Session>, sub: Submission, e: SubmitError)
    requires Linked(c) && Selectable(c, sub)
  {
    match e
    case NoSchedules => |sub.schedules| > 0
    case SchedulesOfManyTerms =>
      forall j, m :: 0 <= j < |sub.schedules| && 0 <= m < |sub.schedules| ==>
        c.schedules[sub.schedules[j]].term == c.schedules[sub.schedules[m]].term
    case InvertedWindow => sub.from <= sub.until
    case RecentRequest => forall r: Id, k: Id :: k in sub.schedules ==> !Blocks(c, sub, r, k)
    case MoveNotBundled => sub.move.Some? ==> !sub.target.Online?
    case NoSessions => exists i :: 0 <= i < |ss| && AskedFor(sub, ss[i])
    case PastLeadTime => forall i :: 0 <= i < |ss| && AskedFor(sub, ss[i]) ==> DateOf(sub.now) < ss[i].date - sub.leadDays
    case NoDean => sub.faculty.department.Some? && sub.dean.Some?
    case InstructorDoubleBooked =>
      sub.move.Some? ==> forall i :: 0 <= i < |ss| && AskedFor(sub, ss[i]) ==> !MovesOntoAnother(ss, sub, i)
    case TermArchivedError =>
      forall j :: 0 <= j < |sub.schedules| ==> !c.terms[c.schedules[sub.schedules[j]].term].status.TermArchived?
  }

  // The order in which the guards are applied.
  function Turn(e: SubmitError): nat {
    match e
    case NoSchedules => 0
    case SchedulesOfManyTerms => 1
    case InvertedWindow => 2
    case RecentRequest => 3
    case MoveNotBundled => 4
    case NoSessions => 5
    case PastLeadTime => 6
    case NoDean => 7
    case InstructorDoubleBooked => 8
    case TermArchivedError => 9
  }

  lemma LeadIsWholeDays(earliest: Date, leadDays: int, now: Instant)
    ensures BeforeLeadCutoff(earliest, leadDays, now) <==> DateOf(now) < earliest - leadDays
  {
  }

  lemma BlocksIsRecent(c: Campus, sub: Submission)
    ensures (exists k :: k in sub.schedules && HasRecentRequest(c.requests, c.items, sub.faculty.id, k, sub.now))
      <==> exists r: Id, k: Id :: k in sub.schedules && Blocks(c, sub, r, k)
  {
    forall k: Id ensures HasRecentRequest(c.requests, c.items, sub.faculty.id, k, sub.now)
      <==> exists r: Id :: Blocks(c, sub, r, k)
    {
      forall r: Id | r < |c.requests| ensures Blocks(c, sub, r, k) <==>
        c.requests[r].requester == sub.faculty.id && HasItem(c.items, r, k) && Cooling(c.requests[r], sub.now)
      {
      }
      if HasRecentRequest(c.requests, c.items, sub.faculty.id, k, sub.now) {
        var r :| 0 <= r < |c.requests| && c.requests[r].requester == sub.faculty.id && HasItem(c.items, r, k)
          && Cooling(c.requests[r], sub.now);
        assert Blocks(c, sub, r, k);
      }
    }
  }

  // A submission goes through exactly when every guard is met, and a refusal names the first that
  // is not.
  lemma SubmissionRefusedFor(c: Campus, ss: seq<Session>, sub: Submission)
    requires Linked(c) && Selectable(c, sub)
    ensures
      match SubmitRefusal(c, ss, sub)
      case None => forall e :: Meets(c, ss, sub, e)
      case Some(e) => !Meets(c, ss, sub, e) && forall f :: Turn(f) < Turn(e) ==> Meets(c, ss, sub, f)
  {
    SelectionRefusedFor(c, ss, sub);
    if SelectionRefusal(c, sub).None? {
      SessionsRefusedFor(c, ss, sub);
    }
    hide SelectionRefusal;
    hide SessionsRefusal;
    hide Meets;
  }

  lemma SelectionRefusedFor(c: Campus, ss: seq<Session>, sub: Submission)
    requires Linked(c) && Selectable(c, sub)
    ensures
      match SelectionRefusal(c, sub)
      case None => forall e :: Turn(e) < 5 ==> Meets(c, ss, sub, e)
      case Some(e) => Turn(e) < 5 && !Meets(c, ss, sub, e) && forall f :: Turn(f) < Turn(e) ==> Meets(c, ss, sub, f)
  {
    ClassGuards(c, ss, sub);
    hide HasRecentRequest;
    hide Meets;
  }

  lemma SessionsRefusedFor(c: Campus, ss: seq<Session>, sub: Submission)
    requires Linked(c) && Selectable(c, sub) && sub.schedules != [] && Meets(c, ss, sub, SchedulesOfManyTerms)
    ensures
      match SessionsRefusal(c, ss, sub)
      case None => forall e :: 5 <= Turn(e) ==> Meets(c, ss, sub, e)
      case Some(e) =>
        5 <= Turn(e) && !Meets(c, ss, sub, e) && forall f :: 5 <= Turn(f) < Turn(e) ==> Meets(c, ss, sub, f)
  {
    RoutingGuards(c, ss, sub);
    SessionGuards(c, ss, sub);
    hide Linked;
    hide AnyAffected;
    hide AnyPastLead;
    hide AnyDoubleBooked;
    hide Meets;
  }

  lemma ClassGuards(c: Campus, ss: seq<Session>, sub: Submission)
    requires Linked(c) && Selectable(c, sub)
    ensures Meets(c, ss, sub, NoSchedules) <==> sub.schedules != []
    ensures sub.schedules != [] ==> (Meets(c, ss, sub, SchedulesOfManyTerms) <==>
      !exists j :: 0 <= j < |sub.schedules| && c.schedules[sub.schedules[j]].term != c.schedules[sub.schedules[0]].term)
    ensures Meets(c, ss, sub, InvertedWindow) <==> !(sub.until < sub.from)
    ensures Meets(c, ss, sub, RecentRequest) <==>
      !exists k :: k in sub.schedules && HasRecentRequest(c.requests, c.items, sub.faculty.id, k, sub.now)
    ensures Meets(c, ss, sub, MoveNotBundled) <==> !(sub.move.Some? && sub.target.Online?)
    ensures sub.schedules == [] ==> Meets(c, ss, sub, SchedulesOfManyTerms)
  {
    BlocksIsRecent(c, sub);
    hide HasRecentRequest;
    hide Blocks;
  }

  lemma RoutingGuards(c: Campus, ss: seq<Session>, sub: Submission)
    requires Linked(c) && Selectable(c, sub) && sub.schedules != [] && Meets(c, ss, sub, SchedulesOfManyTerms)
    ensures Meets(c, ss, sub, NoDean) <==> !(sub.faculty.department.None? || sub.dean.None?)
    ensures Meets(c, ss, sub, TermArchivedError) <==>
      !c.terms[c.schedules[sub.schedules[0]].term].status.TermArchived?
  {
  }

  lemma SessionGuards(c: Campus, ss: seq<Session>, sub: Submission)
    requires Linked(c) && Selectable(c, sub)
    ensures Meets(c, ss, sub, NoSessions) <==> AnyAffected(ss, sub)
    ensures Meets(c, ss, sub, PastLeadTime) <==> !AnyPastLead(ss, sub)
    ensures Meets(c, ss, sub, InstructorDoubleBooked) <==>
      !(sub.move.Some? && AnyDoubleBooked(ss, sub))
  {
    forall i | 0 <= i < |ss|
      ensures AskedFor(sub, ss[i]) <==> InSubmission(sub, ss[i])
      ensures BeforeLeadCutoff(ss[i].date, sub.leadDays, sub.now) <==> DateOf(sub.now) < ss[i].date - sub.leadDays
      ensures sub.move.Some? ==> (MoveDoubleBooks(ss, sub, i) <==> MovesOntoAnother(ss, sub, i))
    {
      LeadIsWholeDays(ss[i].date, sub.leadDays, sub.now);
      if sub.move.Some? {
        SameConflict(ss, sub, i);
      }
    }
    hide BeforeLeadCutoff;
    hide MoveDoubleBooks;
    hide MovesOntoAnother;
    hide InSubmission;
    hide AskedFor;
    hide DateOf;
  }

  lemma SameConflict(ss: seq<Session>, sub: Submission, i: Id)
    requires i < |ss| && sub.move.Some?
    ensures MoveDoubleBooks(ss, sub, i) <==> MovesOntoAnother(ss, sub, i)
  {
    hide At;
  }

  // The campus once the submission's ticket and items are on its tables.
  predicate Submitted(c: Campus, ss: seq<Session>, sub: Submission, c': Campus)
    requires Linked(c) && SessionsLinked(c, ss) && Selectable(c, sub)
  {
    && c' == c.(requests := c.requests + [NewRequest(sub)], items := c'.items)
    && |c'.items| == |c.items| + |sub.schedules| && c.items <= c'.items
    && forall j :: 0 <= j < |sub.schedules| ==>
         c'.items[|c.items| + j] == NewItem(c, ss, sub, |c.requests|, sub.schedules[j])
  }

  // The new ticket asks for exactly the sessions the submission was judged on, in the submitter's
  // name and towards the modality asked for, at the time asked for; and no other ticket's reach
  // is changed.
  lemma TicketAsksForSubmission(c: Campus, ss: seq<Session>, sub: Submission, c': Campus, s: Session)
    requires Linked(c) && SessionsLinked(c, ss) && Selectable(c, sub) && Submitted(c, ss, sub, c')
    ensures
      var req := |c.requests|;
      && |c'.requests| == req + 1 && (InTicket(c', req, s) <==> AskedFor(sub, s))
      && (forall r: Id :: r < req ==> (InTicket(c', r, s) <==> InTicket(c, r, s)))
      && c'.requests[req].requester == sub.faculty.id && c'.requests[req].department == sub.faculty.department
      && c'.requests[req].target == sub.target && c'.requests[req].status.Pending?
      && c'.requests[req].reason == "" && c'.requests[req].createdAt == sub.created
      && forall n :: |c.items| <= n < |c'.items| ==>
           && c'.items[n].assignedRoom.None?
           && (c'.items[n].newStart.Some? <==> sub.move.Some?) && (c'.items[n].newEnd.Some? <==> sub.move.Some?)
           && (sub.move.Some? ==> c'.items[n].newStart.value == sub.move.value.0
                                  && c'.items[n].newEnd.value == sub.move.value.1)
  {
    hide ValidPreference;
    NewTicketReach(c, ss, sub, c', s);
    forall r: Id | r < |c.requests| ensures InTicket(c', r, s) <==> InTicket(c, r, s) {
      OldTicketReach(c, ss, sub, c', r, s);
    }
    hide InTicket;
    forall n | |c.items| <= n < |c'.items|
      ensures c'.items[n] == NewItem(c, ss, sub, |c.requests|, sub.schedules[n - |c.items|])
    {
      var j := n - |c.items|;
      assert c'.items[|c.items| + j] == NewItem(c, ss, sub, |c.requests|, sub.schedules[j]);
    }
  }

  lemma NewTicketReach(c: Campus, ss: seq<Session>, sub: Submission, c': Campus, s: Session)
    requires Linked(c) && SessionsLinked(c, ss) && Selectable(c, sub) && Submitted(c, ss, sub, c')
    ensures InTicket(c', |c.requests|, s) <==> AskedFor(sub, s)
  {
    hide ValidPreference;
    var req := |c.requests|;
    forall n: Id | n < |c'.items|
      ensures Affects(c', req, n, s) <==> |c.items| <= n && AskedFor(sub, s) && sub.schedules[n - |c.items|] == s.schedule
    {
      if n < |c.items| {
        assert c'.items[n] == c.items[n] && ItemLinked(c, c.items[n]);
      } else {
        var j := n - |c.items|;
        assert c'.items[|c.items| + j] == NewItem(c, ss, sub, req, sub.schedules[j]);
      }
    }
    hide Affects;
    hide Linked;
    hide NewItem;
    if AskedFor(sub, s) {
      var j :| 0 <= j < |sub.schedules| && sub.schedules[j] == s.schedule;
      assert Affects(c', req, |c.items| + j, s);
    }
  }

  lemma OldTicketReach(c: Campus, ss: seq<Session>, sub: Submission, c': Campus, r: Id, s: Session)
    requires Linked(c) && SessionsLinked(c, ss) && Selectable(c, sub) && Submitted(c, ss, sub, c') && r < |c.requests|
    ensures InTicket(c', r, s) <==> InTicket(c, r, s)
  {
    hide ValidPreference;
    forall n: Id | n < |c'.items|
      ensures Affects(c', r, n, s) <==> n < |c.items| && Affects(c, r, n, s)
    {
      if n < |c.items| {
        assert c'.items[n] == c.items[n];
      } else {
        var j := n - |c.items|;
        assert c'.items[|c.items| + j] == NewItem(c, ss, sub, |c.requests|, sub.schedules[j]);
      }
    }
    hide Affects;
    hide Linked;
    hide NewItem;
    if InTicket(c, r, s) {
      var n :| 0 <= n < |c.items| && Affects(c, r, n, s);
      assert Affects(c', r, n, s);
    }
  }

  // A preferred room survives exactly when it is of the class's building and free for each of the
  // class's affected sessions, of which there is one at least.
  lemma PreferenceSurvivesIff(c: Campus, ss: seq<Session>, sub: Submission, k: Id)
    requires Linked(c) && SessionsLinked(c, ss) && k < |c.schedules|
    ensures
      var r := ValidPreference(c, ss, sub, k);
      && (r.Some? ==> k in sub.preferred && r.value == sub.preferred[k])
      && (r.Some? <==>
            && k in sub.preferred && sub.preferred[k] < |c.rooms|
            && BuildingOf(c, sub.preferred[k]) == BuildingOf(c, c.schedules[k].room)
            && (exists i :: 0 <= i < |ss| && InWindow(ss[i], k, sub.from, sub.until))
            && forall i: Id :: i < |ss| && InWindow(ss[i], k, sub.from, sub.until) ==>
                 RoomIsFree(c, ss, sub.preferred[k], ss[i].start, ss[i].end, Some(i), None))
  {
    hide RoomIsFree;
    hide InWindow;
    hide FreeRoomsInBuilding;
    var mine := InWindowSessions(ss, k, sub.from, sub.until);
    if mine != [] {
      assert mine[0] in mine;
    }
    if i: Id :| i < |ss| && InWindow(ss[i], k, sub.from, sub.until) {
      assert i in mine;
    }
  }

  /* Decision and withdrawal */

  // All items of the ticket, and there is one, are of classes of term t.
  predicate OfTerm(c: Campus, req: Id, t: Id)
    requires Linked(c)
  {
    && (exists n: Id :: n < |c.items| && c.items[n].request == req)
    && forall n: Id :: n < |c.items| && c.items[n].request == req ==> TermOfItem(c, n) == t
  }

  lemma OneTermIff(c: Campus, req: Id)
    requires Linked(c)
    ensures |TermIds(c, req)| == 1 <==> exists t: Id :: OfTerm(c, req, t)
    ensures forall t: Id :: OfTerm(c, req, t) ==> TermIds(c, req) == {t}
  {
    hide TermOfItem;
    var terms := TermIds(c, req);
    forall t: Id | OfTerm(c, req, t) ensures terms == {t} {
      var n: Id :| n < |c.items| && c.items[n].request == req;
      assert TermOfItem(c, n) in terms;
    }
    if |terms| == 1 {
      var t :| t in terms;
      Singleton(terms, t);
      forall n: Id | n < |c.items| && c.items[n].request == req ensures TermOfItem(c, n) == t {
        assert TermOfItem(c, n) in terms;
      }
      assert OfTerm(c, req, t);
    }
  }

  lemma Singleton(s: set<Id>, x: Id)
    requires |s| == 1 && x in s
    ensures s == {x}
  {
    assert |s - {x}| == 0;
  }

  // The ticket is of one term, which still takes writes.
  predicate Decidable(c: Campus, req: Id)
    requires Linked(c)
  {
    exists t: Id :: t < |c.terms| && OfTerm(c, req, t) && !c.terms[t].status.TermArchived?
  }

  lemma DecidableIff(c: Campus, req: Id)
    requires Linked(c)
    ensures Decidable(c, req) <==>
      && |TermIds(c, req)| == 1
      && !exists t :: t in TermIds(c, req) && t < |c.terms| && c.terms[t].status.TermArchived?
  {
    hide OfTerm;
    OneTermIff(c, req);
    if t: Id :| OfTerm(c, req, t) {
      assert t in TermIds(c, req);
      TermsKnown(c, req, t);
    }
  }

  lemma TermsKnown(c: Campus, req: Id, t: Id)
    requires Linked(c) && t in TermIds(c, req)
    ensures t < |c.terms|
  {
    var n :| 0 <= n < |c.items| && c.items[n].request == req && TermOfItem(c, n) == t;
    assert ItemLinked(c, c.items[n]);
  }

  // Who may decide, and what a refusal means: only a Dean of the ticket's department, only a
  // PENDING ticket, only in one term that still takes writes.
  lemma DecisionRefusedFor(c: Campus, req: Id, dean: User)
    requires Linked(c) && req < |c.requests|
    ensures
      var r := c.requests[req];
      var routed := dean.role == Dean && dean.department == r.department;
      match DecisionRefusal(c, req, dean)
      case None => Decidable(c, req) && routed && r.status == Pending
      case Some(NotTheRoutedDean) => Decidable(c, req) && !routed
      case Some(NotPending) => Decidable(c, req) && routed && r.status != Pending
      case Some(ManyTerms) => !Decidable(c, req) && !exists t: Id :: OfTerm(c, req, t)
      case Some(ArchivedTerm) => !Decidable(c, req) && exists t: Id :: OfTerm(c, req, t)
      case Some(NotTheRequester) => false
  {
    hide OfTerm;
    hide TermIds;
    hide Decidable;
    OneTermIff(c, req);
    DecidableIff(c, req);
  }

  // And who may withdraw: only the requester.
  lemma WithdrawalRefusedFor(c: Campus, req: Id, actor: Id)
    requires Linked(c) && req < |c.requests|
    ensures
      var r := c.requests[req];
      match WithdrawRefusal(c, req, actor)
      case None => Decidable(c, req) && r.requester == actor && r.status == Pending
      case Some(NotTheRequester) => Decidable(c, req) && r.requester != actor
      case Some(NotPending) => Decidable(c, req) && r.requester == actor && r.status != Pending
      case Some(ManyTerms) => !Decidable(c, req) && !exists t: Id :: OfTerm(c, req, t)
      case Some(ArchivedTerm) => !Decidable(c, req) && exists t: Id :: OfTerm(c, req, t)
      case Some(NotTheRoutedDean) => false
  {
    hide OfTerm;
    hide TermIds;
    hide Decidable;
    OneTermIff(c, req);
    DecidableIff(c, req);
  }
}
