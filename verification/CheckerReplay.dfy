/** A checker's actions on a room: live ones, and queued ones replayed against the current state. */
module CheckerReplay {
  import opened Calendar
  import opened CheckerGate
  import opened Tables
  import opened Text
  import opened Wrappers

  type Uuid = nat

  // The session a queued item says it was recorded for.
  datatype Claim = NoClaim | Claimed(session: Id) | BadClaim

  datatype Item = Item(
    uuid: Option<Uuid>, token: string, claim: Claim, action: Option<Action>, note: string,
    scannedAt: Option<Instant>)

  datatype Reason =
    | BadPayload | RateLimited | BadRoom | SessionChanged | Refused(outcome: GateOutcome)
    | ActionIncongruent | NoteRequired

  datatype ReceiptStatus = Applied | Flagged(reason: Reason)
  datatype Receipt = Receipt(uuid: Uuid, checker: Id, status: ReceiptStatus)

  datatype Answer = Answered(uuid: Uuid, status: ReceiptStatus) | Duplicate(uuid: Uuid) | NoUuid

  datatype LogEntry =
    | ActionLogged(action: Action, session: Option<Id>, room: Id, offline: bool)
    | ActionRefused(room: Id, outcome: GateOutcome)
    | ConflictLogged(uuid: Uuid, session: Option<Id>, reason: Reason)
    | RateLimitLogged(uuid: Uuid)

  datatype Ledger = Ledger(receipts: seq<Receipt>, validations: seq<Validation>)

  /* Judging one item */

  predicate SixDigits(token: string) {
    |token| == 6 && forall k :: 0 <= k < 6 ==> '0' <= token[k] <= '9'
  }

  // A QR token, or failing that a six-digit manual code.
  function RoomOfToken(w: Situation, token: string): (r: Option<Id>)
    requires WellFormed(w)
    ensures r.Some? ==> r.value < |w.campus.rooms|
  {
    if token == "" then None
    else if token in w.qrTokens then Some(w.qrTokens[token])
    else if SixDigits(token) && token in w.manualCodes then Some(w.manualCodes[token])
    else None
  }

  function ScanTime(w: Situation, item: Item): Instant {
    if item.scannedAt.Some? then item.scannedAt.value else w.now
  }

  // The session the item is about: the one it names, or the one its scan time points at.
  function Expected(w: Situation, item: Item, room: Id): Option<Id>
    requires WellFormed(w) && !item.claim.BadClaim?
  {
    if item.claim.Claimed? then Some(item.claim.session)
    else RoomSessionAtScan(w.campus, w.sessions, room, ScanTime(w, item))
  }

  predicate IsFlag(a: Action) {
    a.FlagIdentityMismatch? || a.FlagNotPresent?
  }

  // The checks an action must pass once the room is known to be open to one.
  function ActionRefusal(o: GateOutcome, action: Option<Action>, note: string): Option<Reason> {
    if action.None? then Some(BadPayload)
    else if !Congruent(o, action.value) then Some(ActionIncongruent)
    else if IsFlag(action.value) && Strip(note) == "" then Some(NoteRequired)
    else None
  }

  // The room to act on, or why the item is flagged.
  function Verdict(w: Situation, validations: seq<Validation>, item: Item, allowed: bool): (r: Result<Id, Reason>)
    requires WellFormed(w)
    ensures r.Success? ==> r.value < |w.campus.rooms| && item.action.Some?
  {
    var token := Strip(item.token);
    if SixDigits(token) && !allowed then Failure(RateLimited) else
    var room := RoomOfToken(w, token);
    if room.None? then Failure(BadRoom) else
    if item.claim.BadClaim? then Failure(BadPayload) else
    if Expected(w, item, room.value) != CurrentSession(w, room.value) then Failure(SessionChanged) else
    var o := Gate(w, validations, room.value);
    if !Actionable(o) then Failure(Refused(o)) else
    var refusal := ActionRefusal(o, item.action, item.note);
    if refusal.Some? then Failure(refusal.value) else Success(room.value)
  }

  // What an action that is allowed to go through puts on record.
  function Record(
    w: Situation, room: Id, action: Action, note: string, scannedAt: Instant, offline: bool): Validation
    requires WellFormed(w)
  {
    Validation(
      CurrentSession(w, room), room, w.user, action,
      if action.FlagIdentityMismatch? then Some(false) else if action.Verified? then Some(true) else None,
      note, scannedAt, offline)
  }

  /* What one event does to the ledger */

  datatype Event =
    // One queued item, and whether the rate limit lets a manual code through.
    | Replayed(world: Situation, item: Item, allowed: bool)
    // A live action on a room, and whether it is the first of its kind this minute.
    | RoomAction(world: Situation, room: Option<Id>, action: Option<Action>, note: string, first: bool)
    // A validation written for an online session, under its own gate.
    | OnlineAction(validation: Validation)

  predicate EventWellFormed(e: Event) {
    (e.OnlineAction? || WellFormed(e.world))
    && (e.RoomAction? && e.room.Some? ==> e.room.value < |e.world.campus.rooms|)
  }

  predicate HasReceipt(receipts: seq<Receipt>, uuid: Uuid) {
    exists r :: r in receipts && r.uuid == uuid
  }

  predicate IsNew(st: Ledger, item: Item) {
    item.uuid.Some? && !HasReceipt(st.receipts, item.uuid.value)
  }

  // The validation the event writes, if it writes one.
  function Written(st: Ledger, e: Event): Option<Validation>
    requires EventWellFormed(e)
  {
    match e
    case Replayed(w, item, allowed) =>
      if !IsNew(st, item) then None else
      var v := Verdict(w, st.validations, item, allowed);
      if v.Failure? then None
      else Some(Record(w, v.value, item.action.value, item.note, ScanTime(w, item), true))
    case RoomAction(w, room, action, note, first) =>
      if action.None? || room.None? then None else
      var o := Gate(w, st.validations, room.value);
      if Actionable(o) && ActionRefusal(o, action, note).None? && first
      then Some(Record(w, room.value, action.value, note, w.now, false)) else None
    case OnlineAction(validation) => Some(validation)
  }

  function Listed<T>(x: Option<T>): seq<T> {
    if x.Some? then [x.value] else []
  }

  function ReceiptsAfter(st: Ledger, e: Event): seq<Receipt>
    requires EventWellFormed(e)
  {
    if e.Replayed? && IsNew(st, e.item) then
      var v := Verdict(e.world, st.validations, e.item, e.allowed);
      st.receipts + [Receipt(e.item.uuid.value, e.world.user, if v.Success? then Applied else Flagged(v.error))]
    else
      st.receipts
  }

  function Step(st: Ledger, e: Event): Ledger
    requires EventWellFormed(e)
  {
    Ledger(ReceiptsAfter(st, e), st.validations + Listed(Written(st, e)))
  }

  // What the event leaves in the log.
  function Logged(st: Ledger, e: Event): seq<LogEntry>
    requires EventWellFormed(e)
  {
    match e
    case Replayed(w, item, allowed) =>
      if !IsNew(st, item) then [] else
      var v := Verdict(w, st.validations, item, allowed);
      if v.Success? then [ActionLogged(item.action.value, CurrentSession(w, v.value), v.value, true)]
      else if v.error.RateLimited? then [RateLimitLogged(item.uuid.value)]
      else
        var room := RoomOfToken(w, Strip(item.token));
        [ConflictLogged(item.uuid.value, if room.None? then None else CurrentSession(w, room.value), v.error)]
    case RoomAction(w, room, action, note, first) =>
      var reply := ReplyTo(st, w, room, action, note);
      if reply.Some? then
        (if reply.value.Refused? || reply.value.ActionIncongruent?
         then [ActionRefused(room.value, Gate(w, st.validations, room.value))] else [])
      else if first then [ActionLogged(action.value, CurrentSession(w, room.value), room.value, false)] else []
    case OnlineAction(_) => []
  }

  // Why a live action is refused, if it is.
  function ReplyTo(st: Ledger, w: Situation, room: Option<Id>, action: Option<Action>, note: string): (r: Option<Reason>)
    requires WellFormed(w) && (room.Some? ==> room.value < |w.campus.rooms|)
    ensures r.None? || r.value.Refused? || r.value.ActionIncongruent? ==> room.Some? && action.Some?
  {
    if action.None? || room.None? then Some(BadPayload) else
    var o := Gate(w, st.validations, room.value);
    if !Actionable(o) then Some(Refused(o)) else ActionRefusal(o, action, note)
  }

  // The log of a run.
  function RunLog(st: Ledger, es: seq<Event>): seq<LogEntry>
    requires AllWellFormed(es)
  {
    if es == [] then []
    else RunLog(st, es[..|es| - 1]) + Logged(LedgerAfter(st, es[..|es| - 1]), es[|es| - 1])
  }

  predicate AllWellFormed(es: seq<Event>) {
    forall k :: 0 <= k < |es| ==> EventWellFormed(es[k])
  }

  // The ledger after a run of events, in order.
  function LedgerAfter(st: Ledger, es: seq<Event>): Ledger
    requires AllWellFormed(es)
  {
    if es == [] then st else Step(LedgerAfter(st, es[..|es| - 1]), es[|es| - 1])
  }

  function Batch(w: Situation, items: seq<Item>, allowed: seq<bool>): (es: seq<Event>)
    requires WellFormed(w) && |allowed| == |items|
    ensures |es| == |items| && AllWellFormed(es)
    ensures forall k :: 0 <= k < |es| ==> es[k] == Replayed(w, items[k], allowed[k])
  {
    seq(|items|, k requires 0 <= k < |items| => Replayed(w, items[k], allowed[k]))
  }

  // The answer the client gets for one item.
  function AnswerTo(st: Ledger, w: Situation, item: Item, allowed: bool): Answer
    requires WellFormed(w)
  {
    if item.uuid.None? then NoUuid
    else if !IsNew(st, item) then Duplicate(item.uuid.value)
    else
      var v := Verdict(w, st.validations, item, allowed);
      Answered(item.uuid.value, if v.Success? then Applied else Flagged(v.error))
  }

  class Desk {
    var receipts: seq<Receipt>
    var validations: seq<Validation>
    var log: seq<LogEntry>

    constructor ()
      ensures receipts == [] && validations == [] && log == []
    {
      receipts, validations, log := [], [], [];
    }

    function Stored(): Ledger
      reads this
    {
      Ledger(receipts, validations)
    }

    // The unique key on client_uuid decides.
    method ClaimReceipt(user: Id, uuid: Uuid, status: ReceiptStatus) returns (claimed: bool)
      modifies this`receipts
      ensures claimed <==> !HasReceipt(old(receipts), uuid)
      ensures receipts == old(receipts) + if claimed then [Receipt(uuid, user, status)] else []
    {
      if HasReceipt(receipts, uuid) {
        return false;
      }
      receipts := receipts + [Receipt(uuid, user, status)];
      return true;
    }

    method ApplyAction(w: Situation, room: Id, action: Action, note: string, scannedAt: Instant, offline: bool)
      requires WellFormed(w)
      modifies this`validations, this`log
      ensures validations == old(validations) + [Record(w, room, action, note, scannedAt, offline)]
      ensures log == old(log) + [ActionLogged(action, CurrentSession(w, room), room, offline)]
    {
      var identityMatch := if action.FlagIdentityMismatch? then Some(false) else if action.Verified? then Some(true) else None;
      validations := validations
        + [Validation(CurrentSession(w, room), room, w.user, action, identityMatch, note, scannedAt, offline)];
      log := log + [ActionLogged(action, CurrentSession(w, room), room, offline)];
    }

    method ReplayItem(w: Situation, item: Item, allowed: bool) returns (answer: Answer)
      requires WellFormed(w)
      modifies this
      ensures Stored() == Step(old(Stored()), Replayed(w, item, allowed))
      ensures answer == AnswerTo(old(Stored()), w, item, allowed)
      ensures log == old(log) + Logged(old(Stored()), Replayed(w, item, allowed))
    {
      hide Verdict;
      if item.uuid.None? {
        return NoUuid;
      }
      var uuid := item.uuid.value;
      if HasReceipt(receipts, uuid) {
        return Duplicate(uuid);
      }
      var verdict := Verdict(w, validations, item, allowed);
      if verdict.Success? {
        var claimed := ClaimReceipt(w.user, uuid, Applied);
        if claimed {
          ApplyAction(w, verdict.value, item.action.value, item.note, ScanTime(w, item), true);
        }
        return if claimed then Answered(uuid, Applied) else Duplicate(uuid);
      }
      var claimed := ClaimReceipt(w.user, uuid, Flagged(verdict.error));
      if claimed {
        var room := RoomOfToken(w, Strip(item.token));
        log := log + [
          if verdict.error.RateLimited? then RateLimitLogged(uuid)
          else ConflictLogged(uuid, if room.None? then None else CurrentSession(w, room.value), verdict.error)];
      }
      return if claimed then Answered(uuid, Flagged(verdict.error)) else Duplicate(uuid);
    }

    method Replay(w: Situation, items: seq<Item>, allowed: seq<bool>) returns (results: seq<Answer>)
      requires WellFormed(w) && |allowed| == |items|
      modifies this
      ensures Stored() == LedgerAfter(old(Stored()), Batch(w, items, allowed))
      ensures |results| == |items|
      ensures forall k :: 0 <= k < |items| ==>
        results[k] == AnswerTo(LedgerAfter(old(Stored()), Batch(w, items, allowed)[..k]), w, items[k], allowed[k])
      ensures log == old(log) + RunLog(old(Stored()), Batch(w, items, allowed))
    {
      hide Step;
      hide AnswerTo;
      hide Logged;
      hide RunLog;
      hide Batch;
      hide WellFormed;
      hide EventWellFormed;
      hide LedgerAfter;
      ghost var es := Batch(w, items, allowed);
      ghost var start := Stored();
      results := [];
      RunNothing(start, es);
      for n := 0 to |items|
        invariant Stored() == LedgerAfter(start, es[..n])
        invariant |results| == n
        invariant forall k :: 0 <= k < n ==> results[k] == AnswerTo(LedgerAfter(start, es[..k]), w, items[k], allowed[k])
        invariant log == old(log) + RunLog(start, es[..n])
      {
        RunNext(start, es, n);
        var answer := ReplayItem(w, items[n], allowed[n]);
        results := results + [answer];
      }
      assert es[..|es|] == es;
    }

    // A live action: refused, or written once per minute.
    method Act(w: Situation, room: Option<Id>, action: Option<Action>, note: string, first: bool) returns (shown: Option<Reason>)
      requires WellFormed(w) && (room.Some? ==> room.value < |w.campus.rooms|)
      modifies this
      ensures Stored() == Step(old(Stored()), RoomAction(w, room, action, note, first))
      ensures log == old(log) + Logged(old(Stored()), RoomAction(w, room, action, note, first))
      ensures shown == ReplyTo(old(Stored()), w, room, action, note)
    {
      hide Gate;
      hide CurrentSession;
      hide Strip;
      if action.None? || room.None? {
        return Some(BadPayload);
      }
      var o := Gate(w, validations, room.value);
      if !Actionable(o) || !Congruent(o, action.value) {
        log := log + [ActionRefused(room.value, o)];
        return Some(if !Actionable(o) then Refused(o) else ActionIncongruent);
      }
      if IsFlag(action.value) && Strip(note) == "" {
        return Some(NoteRequired);
      }
      if first {
        ApplyAction(w, room.value, action.value, note, w.now, false);
      }
      return None;
    }
  }

  lemma RunNothing(st: Ledger, es: seq<Event>)
    ensures LedgerAfter(st, es[..0]) == st && RunLog(st, es[..0]) == []
  {
  }

  lemma RunNext(st: Ledger, es: seq<Event>, n: nat)
    requires AllWellFormed(es) && n < |es|
    ensures AllWellFormed(es[..n]) && AllWellFormed(es[..n + 1])
    ensures LedgerAfter(st, es[..n + 1]) == Step(LedgerAfter(st, es[..n]), es[n])
    ensures RunLog(st, es[..n + 1]) == RunLog(st, es[..n]) + Logged(LedgerAfter(st, es[..n]), es[n])
  {
    hide Step;
    hide Logged;
    assert es[..n + 1][..n] == es[..n];
  }

  /* What an applied item is about */

  lemma StaleItemIsIgnored(st: Ledger, e: Event)
    requires EventWellFormed(e) && e.Replayed? && !IsNew(st, e.item)
    ensures Step(st, e) == st && Logged(st, e) == []
  {
    hide Verdict;
  }

  // Exactly when a fresh item is applied, and then to what.
  lemma AppliedIff(w: Situation, validations: seq<Validation>, item: Item, allowed: bool)
    requires WellFormed(w)
    ensures
      var token := Strip(item.token);
      var room := RoomOfToken(w, token);
      Verdict(w, validations, item, allowed).Success? <==>
        && (SixDigits(token) ==> allowed) && room.Some? && OnDutyAt(w, room.value)
        && !item.claim.BadClaim? && Expected(w, item, room.value) == CurrentSession(w, room.value)
        && item.action.Some? && Fits(w, validations, CurrentSession(w, room.value), item.action.value)
        && (IsFlag(item.action.value) ==> Strip(item.note) != "")
    ensures
      var v := Verdict(w, validations, item, allowed);
      v.Success? ==> Some(v.value) == RoomOfToken(w, Strip(item.token))
  {
    hide OnDutyAt;
    hide Gate;
    hide CurrentSession;
    hide RoomOfToken;
    hide Expected;
    hide VerifiedByChecker;
    hide SixDigits;
    hide Strip;
    var room := RoomOfToken(w, Strip(item.token));
    if room.Some? {
      GateMeans(w, validations, room.value);
    }
  }

  // The action suits what the room holds: nothing, or a class that runs or was cancelled.
  predicate Fits(w: Situation, validations: seq<Validation>, session: Option<Id>, action: Action)
    requires session.Some? ==> session.value < |w.sessions|
  {
    if action.VerifiedEmpty? then
      session.None? || w.sessions[session.value].status.Scheduled?
    else
      && session.Some?
      && (w.sessions[session.value].status.Active? || w.sessions[session.value].status.Cancelled?)
      && !VerifiedByChecker(validations, session.value)
  }

  // The item's or the action's own identity check, as the record keeps it.
  predicate IdentityKept(v: Validation) {
    && (v.identityMatch == Some(true) <==> v.action.Verified?)
    && (v.identityMatch == Some(false) <==> v.action.FlagIdentityMismatch?)
  }

  // What an applied item leaves on record: the very session, room, action, note and scan time it
  // was queued with, under the name of the checker who sends it. A verified session then counts
  // as verified.
  lemma ReplayedRecordMeans(st: Ledger, w: Situation, item: Item, allowed: bool)
    requires WellFormed(w) && Written(st, Replayed(w, item, allowed)).Some?
    ensures
      var v, room := Written(st, Replayed(w, item, allowed)).value, RoomOfToken(w, Strip(item.token));
      && room == Some(v.room) && !item.claim.BadClaim? && v.session == Expected(w, item, v.room)
      && item.action == Some(v.action) && v.note == item.note && v.offline && v.checker == w.user
      && v.scannedAt == (if item.scannedAt.Some? then item.scannedAt.value else w.now)
      && IdentityKept(v)
      && (v.action.Verified? ==> v.session.Some?)
  {
    hide OnDutyAt;
    hide Gate;
    hide RoomOfToken;
    hide CurrentSession;
    hide Expected;
    hide Strip;
    hide SixDigits;
    hide VerifiedByChecker;
    AppliedIff(w, st.validations, item, allowed);
    hide Verdict;
  }

  // A live action is written exactly when the checker is on duty there, the action suits what the
  // room holds, a flag has its note, and it is the first of its kind this minute; and it is of the
  // session the room holds now.
  lemma LiveRecordMeans(
    st: Ledger, w: Situation, room: Option<Id>, action: Option<Action>, note: string, first: bool)
    requires WellFormed(w) && (room.Some? ==> room.value < |w.campus.rooms|)
    ensures Written(st, RoomAction(w, room, action, note, first)).Some? <==>
      && room.Some? && action.Some? && OnDutyAt(w, room.value) && first
      && Fits(w, st.validations, CurrentSession(w, room.value), action.value)
      && (IsFlag(action.value) ==> Strip(note) != "")
    ensures Written(st, RoomAction(w, room, action, note, first)).Some? ==>
      var v := Written(st, RoomAction(w, room, action, note, first)).value;
      && room == Some(v.room) && action == Some(v.action) && v.session == CurrentSession(w, v.room)
      && v.note == note && !v.offline && v.checker == w.user && v.scannedAt == w.now && IdentityKept(v)
  {
    hide OnDutyAt;
    hide Gate;
    hide CurrentSession;
    hide VerifiedByChecker;
    hide Strip;
    if room.Some? {
      GateMeans(w, st.validations, room.value);
    }
  }

  // Every validation is logged with its action, session and room, and nothing else is logged as
  // an action.
  lemma WrittenIsLogged(st: Ledger, e: Event)
    requires EventWellFormed(e) && !e.OnlineAction?
    ensures
      match Written(st, e)
      case Some(v) => Logged(st, e) == [ActionLogged(v.action, v.session, v.room, v.offline)]
      case None => forall x :: x in Logged(st, e) ==> !x.ActionLogged?
  {
    hide Gate;
    hide CurrentSession;
    hide RoomOfToken;
    hide Expected;
    hide Strip;
    hide SixDigits;
    hide WellFormed;
  }

  // The answer to a fresh item is the status of the one receipt it gets, in the name of the
  // checker who sends it; it says applied exactly when a validation is written.
  lemma AnswerIsReceipt(st: Ledger, w: Situation, item: Item, allowed: bool)
    requires WellFormed(w) && IsNew(st, item)
    ensures
      var e, answer := Replayed(w, item, allowed), AnswerTo(st, w, item, allowed);
      && answer.Answered? && answer.uuid == item.uuid.value
      && Step(st, e).receipts == st.receipts + [Receipt(item.uuid.value, w.user, answer.status)]
      && (answer.status.Applied? <==> Written(st, e).Some?)
  {
    hide Verdict;
  }

  // Why a fresh item is flagged, in the order the reasons are looked for.
  lemma FlaggedBecause(w: Situation, validations: seq<Validation>, item: Item, allowed: bool)
    requires WellFormed(w) && Verdict(w, validations, item, allowed).Failure?
    ensures
      var why, token := Verdict(w, validations, item, allowed).error, Strip(item.token);
      var room := RoomOfToken(w, token);
      if SixDigits(token) && !allowed then why.RateLimited?
      else if room.None? then why.BadRoom?
      else if item.claim.BadClaim? then why.BadPayload?
      else if Expected(w, item, room.value) != CurrentSession(w, room.value) then why.SessionChanged?
      else if !OpenToActions(w, validations, room.value) then why == Refused(Gate(w, validations, room.value))
      else if item.action.None? then why.BadPayload?
      else if !Fits(w, validations, CurrentSession(w, room.value), item.action.value) then why.ActionIncongruent?
      else why.NoteRequired? && IsFlag(item.action.value) && Strip(item.note) == ""
  {
    hide OnDutyAt;
    hide Gate;
    hide CurrentSession;
    hide RoomOfToken;
    hide Expected;
    hide VerifiedByChecker;
    hide SixDigits;
    hide Strip;
    var room := RoomOfToken(w, Strip(item.token));
    if room.Some? {
      GateMeans(w, validations, room.value);
    }
  }

  // The room is open to an action: the checker is on duty there, and it is empty, or its class is
  // due, running or cancelled and not yet verified.
  predicate OpenToActions(w: Situation, validations: seq<Validation>, room: Id)
    requires WellFormed(w) && room < |w.campus.rooms|
  {
    var s := CurrentSession(w, room);
    && OnDutyAt(w, room)
    && (s.None? || w.sessions[s.value].status.Scheduled?
        || ((w.sessions[s.value].status.Active? || w.sessions[s.value].status.Cancelled?)
            && !VerifiedByChecker(validations, s.value)))
  }

  /* Exactly once, over every run */

  predicate UniqueReceipts(receipts: seq<Receipt>) {
    forall i, j :: 0 <= i < j < |receipts| ==> receipts[i].uuid != receipts[j].uuid
  }

  predicate IsReplayOf(e: Event, uuid: Uuid) {
    e.Replayed? && e.item.uuid == Some(uuid)
  }

  // How many validations a run writes on behalf of one uuid.
  function WritesFor(st: Ledger, es: seq<Event>, uuid: Uuid): nat
    requires AllWellFormed(es)
  {
    if es == [] then 0
    else
      var front, e := es[..|es| - 1], es[|es| - 1];
      WritesFor(st, front, uuid) + if IsReplayOf(e, uuid) && Written(LedgerAfter(st, front), e).Some? then 1 else 0
  }

  predicate AppliedReceipt(receipts: seq<Receipt>, uuid: Uuid) {
    exists r :: r in receipts && r.uuid == uuid && r.status.Applied?
  }

  lemma StepReceipts(st: Ledger, e: Event, uuid: Uuid)
    requires EventWellFormed(e) && UniqueReceipts(st.receipts)
    ensures st.receipts <= Step(st, e).receipts && UniqueReceipts(Step(st, e).receipts)
    ensures HasReceipt(Step(st, e).receipts, uuid) <==> HasReceipt(st.receipts, uuid) || IsReplayOf(e, uuid)
    ensures IsReplayOf(e, uuid) && Written(st, e).Some? <==>
      !HasReceipt(st.receipts, uuid) && AppliedReceipt(Step(st, e).receipts, uuid)
  {
    hide Verdict;
    hide Record;
    var before, after := st.receipts, Step(st, e).receipts;
    if after != before {
      var r := after[|before|];
      assert after == before + [r];
      assert forall x :: x in after <==> x in before || x == r;
    }
  }

  // Whatever is replayed, in whatever batches and amid whatever else: a uuid offered at least
  // once ends with exactly one receipt, and at most one validation is ever written for it,
  // namely when that receipt says applied.
  lemma {:induction false} ReplayIsExactlyOnce(st: Ledger, es: seq<Event>, uuid: Uuid)
    requires AllWellFormed(es) && UniqueReceipts(st.receipts)
    ensures
      var after := LedgerAfter(st, es);
      && st.receipts <= after.receipts && UniqueReceipts(after.receipts)
      && (HasReceipt(after.receipts, uuid) <==>
            HasReceipt(st.receipts, uuid) || exists k :: 0 <= k < |es| && IsReplayOf(es[k], uuid))
      && WritesFor(st, es, uuid)
           == if !HasReceipt(st.receipts, uuid) && AppliedReceipt(after.receipts, uuid) then 1 else 0
  {
    hide Step;
    hide Written;
    if es != [] {
      var n := |es| - 1;
      var front, mid := es[..n], LedgerAfter(st, es[..n]);
      ReplayIsExactlyOnce(st, front, uuid);
      StepReceipts(mid, es[n], uuid);
      assert es == front + [es[n]];
    }
  }

  // Sending a batch again, at any later time and in any later state, changes nothing.
  lemma {:induction false} ReplayAgainChangesNothing(
    st: Ledger, w: Situation, items: seq<Item>, allowed: seq<bool>,
    between: seq<Event>, w': Situation, allowed': seq<bool>)
    requires WellFormed(w) && WellFormed(w') && |allowed| == |items| == |allowed'|
    requires AllWellFormed(between) && UniqueReceipts(st.receipts)
    ensures
      var now := LedgerAfter(LedgerAfter(st, Batch(w, items, allowed)), between);
      && LedgerAfter(now, Batch(w', items, allowed')) == now && RunLog(now, Batch(w', items, allowed')) == []
      && forall k :: 0 <= k < |items| ==> !IsNew(now, items[k])
  {
    hide Step;
    var first := LedgerAfter(st, Batch(w, items, allowed));
    var now := LedgerAfter(first, between);
    forall k | 0 <= k < |items| ensures !IsNew(now, items[k]) {
      if items[k].uuid.Some? {
        ReplayIsExactlyOnce(st, Batch(w, items, allowed), items[k].uuid.value);
        ReplayIsExactlyOnce(first, between, items[k].uuid.value);
        assert IsReplayOf(Batch(w, items, allowed)[k], items[k].uuid.value);
      }
    }
    StaleBatchIsIgnored(now, Batch(w', items, allowed'));
  }

  lemma {:induction false} StaleBatchIsIgnored(st: Ledger, es: seq<Event>)
    requires AllWellFormed(es) && forall k :: 0 <= k < |es| ==> es[k].Replayed? && !IsNew(st, es[k].item)
    ensures LedgerAfter(st, es) == st && RunLog(st, es) == []
  {
    hide Step;
    hide Logged;
    hide IsNew;
    if es != [] {
      StaleBatchIsIgnored(st, es[..|es| - 1]);
      StaleItemIsIgnored(st, es[|es| - 1]);
    }
  }

  /* At most one verification per session by room scan */

  predicate Verifies(v: Option<Validation>, session: Id) {
    v.Some? && v.value.session == Some(session) && v.value.action.Verified?
  }

  // How many verifications of the session a run's room scans, live and replayed, write.
  function RoomVerifications(st: Ledger, es: seq<Event>, session: Id): nat
    requires AllWellFormed(es)
  {
    if es == [] then 0
    else
      var front, e := es[..|es| - 1], es[|es| - 1];
      RoomVerifications(st, front, session)
      + if !e.OnlineAction? && Verifies(Written(LedgerAfter(st, front), e), session) then 1 else 0
  }

  lemma OnlyUnverifiedIsVerified(st: Ledger, e: Event, session: Id)
    requires EventWellFormed(e) && !e.OnlineAction? && Verifies(Written(st, e), session)
    ensures !VerifiedByChecker(st.validations, session)
  {
    hide VerifiedByChecker;
    hide RoomSession;
    hide ActiveFloors;
    hide Expected;
    hide RoomOfToken;
    hide Strip;
    hide SixDigits;
  }

  lemma StepVerifies(st: Ledger, e: Event, session: Id)
    requires EventWellFormed(e)
    ensures VerifiedByChecker(Step(st, e).validations, session) <==>
      VerifiedByChecker(st.validations, session) || Verifies(Written(st, e), session)
  {
    hide Written;
    var w := Written(st, e);
    assert forall v :: v in Step(st, e).validations <==> v in st.validations || Some(v) == w;
    if Verifies(w, session) {
      assert w.value in Step(st, e).validations;
    }
  }

  // An applied verification leaves its session verified.
  lemma AppliedVerificationCounts(st: Ledger, w: Situation, item: Item, allowed: bool)
    requires WellFormed(w) && item.action == Some(Verified)
    requires Written(st, Replayed(w, item, allowed)).Some?
    ensures
      var room := RoomOfToken(w, Strip(item.token));
      && room.Some? && !item.claim.BadClaim? && Expected(w, item, room.value).Some?
      && VerifiedByChecker(
           Step(st, Replayed(w, item, allowed)).validations, Expected(w, item, room.value).value)
  {
    hide Written;
    hide VerifiedByChecker;
    hide RoomOfToken;
    hide Expected;
    hide Strip;
    hide Step;
    ReplayedRecordMeans(st, w, item, allowed);
    StepVerifies(st, Replayed(w, item, allowed), Written(st, Replayed(w, item, allowed)).value.session.value);
  }

  lemma {:induction false} OneVerificationPerSession(st: Ledger, es: seq<Event>, session: Id)
    requires AllWellFormed(es)
    ensures RoomVerifications(st, es, session) <= if VerifiedByChecker(st.validations, session) then 0 else 1
    ensures VerifiedByChecker(st.validations, session) || RoomVerifications(st, es, session) > 0
      ==> VerifiedByChecker(LedgerAfter(st, es).validations, session)
  {
    hide Step;
    hide Written;
    hide VerifiedByChecker;
    if es != [] {
      var n := |es| - 1;
      var mid := LedgerAfter(st, es[..n]);
      OneVerificationPerSession(st, es[..n], session);
      StepVerifies(mid, es[n], session);
      if !es[n].OnlineAction? && Verifies(Written(mid, es[n]), session) {
        OnlyUnverifiedIsVerified(mid, es[n], session);
      }
    }
  }
}
