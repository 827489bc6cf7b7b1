/**
  The rows the services read and write. A table is a sequence of rows and a primary key is
  an index into it: rows are appended and updated in place, never deleted, by everything
  modelled here.
 */
module Tables {
  import opened Calendar
  import opened Wrappers

  type Id = nat

  datatype Modality = F2F | Blended | Online

  datatype TermStatus = TermDraft | TermActive | TermArchived
  datatype Term = Term(start: Date, end: Date, status: TermStatus)

  datatype AcademicBreak = AcademicBreak(term: Id, start: Date, end: Date)

  datatype Suspension = Suspension(
    term: Id, start: Date, end: Date, building: Option<Id>, reason: string, lifted: Option<Instant>)

  datatype Floor = Floor(building: Id, number: int)
  datatype Room = Room(floor: Id, code: string, outOfService: bool)

  datatype ScheduleStatus = ScheduleActive | ScheduleArchived
  datatype Schedule = Schedule(
    term: Id, course: string, faculty: Id, room: Id, dow: Weekday,
    start: TimeOfDay, end: TimeOfDay, modality: Modality, status: ScheduleStatus, enrolled: nat)

  datatype SessionStatus = Scheduled | Active | Completed | Absent | Cancelled
  datatype CheckinMethod = NoCheckin | QrScan | ManualCode | OnlineManual | OnlineSelf | ForceHandover | Merged
  datatype Session = Session(
    schedule: Id, faculty: Id, room: Id, date: Date, start: Instant, end: Instant,
    status: SessionStatus, actualStart: Option<Instant>, actualEnd: Option<Instant>,
    checkin: CheckinMethod, declared: Option<Modality>,
    changedAt: Option<Instant>, changedBy: Option<Id>,
    released: Option<Instant>, cancelledReason: string, onlineChecker: Option<Id>)

  datatype Booking = Booking(room: Id, start: Instant, end: Instant, active: bool)

  datatype ShiftStatus = Pending | Approved | Rejected | Withdrawn | Denied
  datatype ShiftRequest = ShiftRequest(
    requester: Id, department: Option<Id>, target: Modality, windowStart: Date, windowEnd: Date,
    status: ShiftStatus, reason: string, decidedAt: Option<Instant>, decidedBy: Option<Id>,
    createdAt: Instant)
  datatype ShiftItem = ShiftItem(
    request: Id, schedule: Id, preferredRoom: Option<Id>, assignedRoom: Option<Id>,
    newStart: Option<TimeOfDay>, newEnd: Option<TimeOfDay>)

  datatype AuditEvent =
    | SessionCancelled | SuspensionLifted | MarkedAbsent | MergedPresent | MergedAbsent
    | RoomReleased | OnlineCheckerAssigned
  datatype AuditEntry = AuditEntry(event: AuditEvent, session: Id)

  function AuditAll(event: AuditEvent, ids: seq<Id>): seq<AuditEntry> {
    seq(|ids|, j requires 0 <= j < |ids| => AuditEntry(event, ids[j]))
  }

  lemma AuditGrows(event: AuditEvent, ids: seq<Id>, n: nat)
    requires n < |ids|
    ensures AuditAll(event, ids[..n + 1]) == AuditAll(event, ids[..n]) + [AuditEntry(event, ids[n])]
  {
  }

  /** Every table except the sessions, as one value: the context a session is judged in. */
  datatype Campus = Campus(
    terms: seq<Term>, breaks: seq<AcademicBreak>, suspensions: seq<Suspension>,
    floors: seq<Floor>, rooms: seq<Room>, schedules: seq<Schedule>,
    bookings: seq<Booking>, requests: seq<ShiftRequest>, items: seq<ShiftItem>)

  // Every foreign key of the campus tables names a row.
  predicate Linked(c: Campus) {
    && (forall i :: 0 <= i < |c.rooms| ==> c.rooms[i].floor < |c.floors|)
    && (forall i :: 0 <= i < |c.schedules| ==>
          c.schedules[i].term < |c.terms| && c.schedules[i].room < |c.rooms|)
    && (forall i :: 0 <= i < |c.suspensions| ==> c.suspensions[i].term < |c.terms|)
    && (forall i :: 0 <= i < |c.items| ==> ItemLinked(c, c.items[i]))
  }

  predicate ItemLinked(c: Campus, item: ShiftItem) {
    && item.request < |c.requests| && item.schedule < |c.schedules|
    && (item.assignedRoom.Some? ==> item.assignedRoom.value < |c.rooms|)
    && (item.preferredRoom.Some? ==> item.preferredRoom.value < |c.rooms|)
  }

  // Every foreign key of the sessions names a row of the campus tables.
  predicate SessionsLinked(c: Campus, ss: seq<Session>) {
    forall i :: 0 <= i < |ss| ==> ss[i].schedule < |c.schedules| && ss[i].room < |c.rooms|
  }

  // Every entry of ids is the key of a row of an n-row table.
  predicate Keys(ids: seq<Id>, n: nat) {
    forall j :: 0 <= j < |ids| ==> ids[j] < n
  }

  function BuildingOf(c: Campus, room: Id): Id
    requires Linked(c) && room < |c.rooms|
  {
    c.floors[c.rooms[room].floor].building
  }

  // What a session is really taught as: a declared modality overrides the timetable's.
  function EffectiveModality(c: Campus, s: Session): Modality
    requires s.schedule < |c.schedules|
  {
    if s.declared.Some? then s.declared.value else c.schedules[s.schedule].modality
  }

  // The row key get_or_create looks a session up by.
  predicate IsOccurrence(s: Session, k: Id, d: Date) {
    s.schedule == k && s.date == d
  }

  predicate Materialized(ss: seq<Session>, k: Id, d: Date) {
    exists i :: 0 <= i < |ss| && IsOccurrence(ss[i], k, d)
  }

  // Sort keys: by start, and by primary key.
  function StartOf(ss: seq<Session>): Id -> int {
    (i: Id) => if i < |ss| then ss[i].start else 0
  }

  function KeyOf(): Id -> int {
    (i: Id) => i
  }

  // No schedule has two sessions on one date.
  predicate UniqueOccurrences(ss: seq<Session>) {
    forall i, j :: 0 <= i < j < |ss| ==> !IsOccurrence(ss[j], ss[i].schedule, ss[i].date)
  }

  /** The live database: one field per table, updated in place by the services. */
  class Database {
    var terms: seq<Term>
    var breaks: seq<AcademicBreak>
    var suspensions: seq<Suspension>
    var floors: seq<Floor>
    var rooms: seq<Room>
    var schedules: seq<Schedule>
    var bookings: seq<Booking>
    var requests: seq<ShiftRequest>
    var items: seq<ShiftItem>
    var sessions: seq<Session>
    var audit: seq<AuditEntry>

    constructor ()
      ensures Valid() && sessions == [] && audit == []
    {
      terms, breaks, suspensions, floors, rooms := [], [], [], [], [];
      schedules, bookings, requests, items := [], [], [], [];
      sessions, audit := [], [];
    }

    // The tables other than the sessions, as they stand now.
    function Context(): Campus
      reads this
    {
      Campus(terms, breaks, suspensions, floors, rooms, schedules, bookings, requests, items)
    }

    predicate Valid()
      reads this
    {
      Linked(Context()) && SessionsLinked(Context(), sessions)
    }
  }
}
