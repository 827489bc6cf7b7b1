/** The day-by-block utilization grid: spreading sessions over rungs and filling the cells. */
module HeatGrid {
  import opened Buckets
  import opened Calendar
  import opened Capacity
  import opened Contribution
  import opened Distribution
  import opened Ladder
  import opened Percentage
  import opened Queries
  import opened Tables
  import opened Utilization
  import opened Wrappers

  /* Spreading one session over the rungs it occupies */

  function Inside(blocks: seq<Block>, k: Schedule): nat -> bool {
    (i: nat) => i < |blocks| && k.start <= blocks[i].start < k.end
  }

  // The rungs whose start falls inside the class's hours.
  function Occupied(blocks: seq<Block>, k: Schedule): (rungs: seq<nat>)
    ensures forall i: nat :: i in rungs <==> i < |blocks| && k.start <= blocks[i].start < k.end
    ensures Keys(rungs, |blocks|)
  {
    var rungs := Keep(UpTo(|blocks|), Inside(blocks, k));
    assert forall j :: 0 <= j < |rungs| ==> rungs[j] in rungs;
    rungs
  }

  function Weights(blocks: seq<Block>, rungs: seq<nat>): (weights: seq<nat>)
    requires Keys(rungs, |blocks|)
    ensures |weights| == |rungs|
  {
    seq(|rungs|, j requires 0 <= j < |rungs| =>
      if blocks[rungs[j]].seconds == 0 then 1 else blocks[rungs[j]].seconds)
  }

  function Posted(blocks: seq<Block>, rungs: seq<nat>, day: Weekday, parts: seq<int>): (es: seq<Entry<Slot>>)
    requires Keys(rungs, |blocks|) && |parts| == |rungs|
    ensures |es| == |rungs|
  {
    if rungs == [] then []
    else
      var n := |rungs| - 1;
      Posted(blocks, rungs[..n], day, parts[..n]) + [Entry(Slot(blocks[rungs[n]].start, day), parts[n])]
  }

  function Spread(blocks: seq<Block>, k: Schedule, amount: nat): seq<Entry<Slot>> {
    var rungs := Occupied(blocks, k);
    Posted(blocks, rungs, k.dow, Distribute(amount, Weights(blocks, rungs)))
  }

  function Postings(c: Campus, blocks: seq<Block>, s: Session, amount: Session -> nat): seq<Entry<Slot>> {
    if s.schedule < |c.schedules| && !Contribute(s).running then Spread(blocks, c.schedules[s.schedule], amount(s)) else []
  }

  // Everything the sessions post, in order.
  function AllPostings(
    c: Campus, ss: seq<Session>, blocks: seq<Block>, ids: seq<Id>, amount: Session -> nat): seq<Entry<Slot>>
    requires Keys(ids, |ss|)
  {
    if ids == [] then []
    else AllPostings(c, ss, blocks, ids[..|ids| - 1], amount) + Postings(c, blocks, ss[ids[|ids| - 1]], amount)
  }

  /* The grid */

  datatype HeatCell = HeatCell(day: Weekday, used: int, booked: int, available: int, percent: int, timetabled: bool)
  datatype HeatRow = HeatRow(block: Block, cells: seq<HeatCell>)

  function AvailableIn(c: Campus, q: Query, slot: Slot): int {
    if Timetabled(c, q.term, slot.day, slot.start) then
      Price(
        |PhysicalRooms(c)|, Occurrences(q.start, LastDay(q.end, q.asOf), slot.day), SecondsOf(Rungs(c, q.term), slot.start))
    else
      0
  }

  function CellOf(c: Campus, ss: seq<Session>, q: Query, slot: Slot): HeatCell {
    var ids, blocks := ScopedIds(c, ss, q), Rungs(c, q.term);
    var used := Bucket(AllPostings(c, ss, blocks, ids, Used()), slot);
    var booked := Bucket(AllPostings(c, ss, blocks, ids, Booked()), slot);
    var available := AvailableIn(c, q, slot);
    HeatCell(slot.day, used, booked, available, Percent(used, available), Timetabled(c, q.term, slot.day, slot.start))
  }

  function RowOf(c: Campus, ss: seq<Session>, q: Query, block: Block): HeatRow {
    HeatRow(block, seq(7, d requires 0 <= d < 7 => CellOf(c, ss, q, Slot(block.start, d))))
  }

  function GridOf(c: Campus, ss: seq<Session>, q: Query): seq<HeatRow> {
    seq(|Rungs(c, q.term)|, i requires 0 <= i < |Rungs(c, q.term)| => RowOf(c, ss, q, Rungs(c, q.term)[i]))
  }

  /* Filling it */

  method PostParts(
    m: map<Slot, int>, ghost es: seq<Entry<Slot>>, blocks: seq<Block>, rungs: seq<nat>, day: Weekday, parts: seq<int>)
    returns (r: map<Slot, int>)
    requires Keys(rungs, |blocks|) && |parts| == |rungs| && Tallies(m, es)
    ensures Tallies(r, es + Posted(blocks, rungs, day, parts))
  {
    hide Tallies;
    r := m;
    assert es + [] == es;
    for j := 0 to |rungs|
      invariant Tallies(r, es + Posted(blocks, rungs[..j], day, parts[..j]))
    {
      assert rungs[..j + 1][..j] == rungs[..j] && parts[..j + 1][..j] == parts[..j];
      ghost var before := es + Posted(blocks, rungs[..j], day, parts[..j]);
      var slot := Slot(blocks[rungs[j]].start, day);
      TallyStep(r, before, slot, parts[j]);
      assert before + [Entry(slot, parts[j])] == es + Posted(blocks, rungs[..j + 1], day, parts[..j + 1]);
      r := Add(r, slot, parts[j]);
    }
    assert rungs[..|rungs|] == rungs && parts[..|parts|] == parts;
  }

  method PostSessions(c: Campus, ss: seq<Session>, blocks: seq<Block>, ids: seq<Id>)
    returns (booked: map<Slot, int>, used: map<Slot, int>)
    requires Keys(ids, |ss|) && SessionsLinked(c, ss)
    ensures Tallies(booked, AllPostings(c, ss, blocks, ids, Booked()))
    ensures Tallies(used, AllPostings(c, ss, blocks, ids, Used()))
  {
    hide Tallies;
    hide Posted;
    hide Occupied;
    hide Distribute;
    hide Weights;
    hide Contribute;
    booked, used := map[], map[];
    TallyStart<Slot>();
    for n := 0 to |ids|
      invariant Tallies(booked, AllPostings(c, ss, blocks, ids[..n], Booked()))
      invariant Tallies(used, AllPostings(c, ss, blocks, ids[..n], Used()))
    {
      var s := ss[ids[n]];
      var k := c.schedules[s.schedule];
      var x := Contribute(s);
      PostingsStep(c, ss, blocks, ids, n, Booked());
      PostingsStep(c, ss, blocks, ids, n, Used());
      if x.running {
        continue;
      }
      var rungs := Occupied(blocks, k);
      var weights := Weights(blocks, rungs);
      booked := PostParts(
        booked, AllPostings(c, ss, blocks, ids[..n], Booked()), blocks, rungs, k.dow, Distribute(x.booked, weights));
      used := PostParts(
        used, AllPostings(c, ss, blocks, ids[..n], Used()), blocks, rungs, k.dow, Distribute(x.used, weights));
    }
    assert ids[..|ids|] == ids;
  }

  lemma PostingsStep(c: Campus, ss: seq<Session>, blocks: seq<Block>, ids: seq<Id>, n: nat, amount: Session -> nat)
    requires Keys(ids, |ss|) && n < |ids|
    ensures
      var before := AllPostings(c, ss, blocks, ids[..n], amount);
      && AllPostings(c, ss, blocks, ids[..n + 1], amount) == before + Postings(c, blocks, ss[ids[n]], amount)
      && (Contribute(ss[ids[n]]).running ==> AllPostings(c, ss, blocks, ids[..n + 1], amount) == before)
  {
    hide Spread;
    hide Contribute;
    assert ids[..n + 1][..n] == ids[..n];
    assert AllPostings(c, ss, blocks, ids[..n], amount) + [] == AllPostings(c, ss, blocks, ids[..n], amount);
  }

  // What the loops have in hand when the cells are filled.
  datatype Gathered = Gathered(
    booked: map<Slot, int>, used: map<Slot, int>, pairs: set<Slot>, occurrences: map<Weekday, int>, rooms: nat)

  function ReadCell(t: Gathered, block: Block, d: Weekday): HeatCell {
    var slot := Slot(block.start, d);
    var timetabled := slot in t.pairs;
    var available := if timetabled then Price(t.rooms, Get(t.occurrences, d), block.seconds) else 0;
    HeatCell(d, Get(t.used, slot), Get(t.booked, slot), available, Percent(Get(t.used, slot), available), timetabled)
  }

  ghost predicate Reflects(c: Campus, ss: seq<Session>, q: Query, t: Gathered) {
    var ids, blocks := ScopedIds(c, ss, q), Rungs(c, q.term);
    && Tallies(t.booked, AllPostings(c, ss, blocks, ids, Booked()))
    && Tallies(t.used, AllPostings(c, ss, blocks, ids, Used()))
    && Tallies(t.occurrences, DayEntries(q.start, LastDay(q.end, q.asOf)))
    && (forall slot: Slot :: slot in t.pairs <==> Timetabled(c, q.term, slot.day, slot.start))
    && t.rooms == |PhysicalRooms(c)|
  }

  lemma ReadCellIsCell(c: Campus, ss: seq<Session>, q: Query, t: Gathered, i: nat, d: Weekday)
    requires Reflects(c, ss, q, t) && i < |Rungs(c, q.term)|
    ensures ReadCell(t, Rungs(c, q.term)[i], d) == CellOf(c, ss, q, Slot(Rungs(c, q.term)[i].start, d))
  {
    hide Timetabled;
    hide Rungs;
    hide PhysicalRooms;
    hide AllPostings;
    hide ScopedIds;
    hide Percent;
    hide DayEntries;
    hide Price;
    hide IsModalLongest;
    hide SpansAt;
    hide Ascending;
    RungsAreExact(c, q.term);
    SecondsOfRung(Rungs(c, q.term), i);
  }

  function PairsOf(cells: seq<Cell>): set<Slot> {
    set x | x in cells :: Slot(x.start, x.day)
  }

  lemma PairsAreTimetabled(c: Campus, term: Option<Id>, slot: Slot)
    ensures slot in PairsOf(TimetabledCells(c, term)) <==> Timetabled(c, term, slot.day, slot.start)
  {
    hide Timetabled;
    hide TimetabledCells;
    hide SecondsOf;
    CellsAreExact(c, term);
    if Timetabled(c, term, slot.day, slot.start) {
      var x := Cell(slot.day, slot.start, SecondsOf(Rungs(c, term), slot.start));
      assert x in TimetabledCells(c, term);
    }
  }

  method GatherTables(c: Campus, ss: seq<Session>, q: Query, blocks: seq<Block>) returns (t: Gathered)
    requires SessionsLinked(c, ss) && blocks == Rungs(c, q.term)
    ensures Reflects(c, ss, q, t)
  {
    hide AllPostings;
    hide Rungs;
    hide ScopedIds;
    hide TimetabledCells;
    hide Timetabled;
    hide PhysicalRooms;
    hide Tallies;
    hide PairsOf;
    var occurrences := WeekdayOccurrences(q.start, q.end, q.asOf);
    var booked, used := PostSessions(c, ss, blocks, ScopedIds(c, ss, q));
    t := Gathered(booked, used, PairsOf(TimetabledCells(c, q.term)), occurrences, |PhysicalRooms(c)|);
    forall slot: Slot ensures slot in t.pairs <==> Timetabled(c, q.term, slot.day, slot.start) {
      PairsAreTimetabled(c, q.term, slot);
    }
  }

  method RoomHeatGrid(c: Campus, ss: seq<Session>, q: Query) returns (grid: Option<seq<HeatRow>>)
    requires SessionsLinked(c, ss)
    ensures grid == if CampusBlockLadder(c, q.term).None? then None else Some(GridOf(c, ss, q))
  {
    hide Reflects;
    hide CellOf;
    hide ReadCell;
    hide Rungs;
    var ladder := CampusBlockLadder(c, q.term);
    if ladder.None? {
      return None;
    }
    var blocks := ladder.value;
    var t := GatherTables(c, ss, q, blocks);
    var rows: seq<HeatRow> := [];
    for i := 0 to |blocks|
      invariant |rows| == i && forall r :: 0 <= r < i ==> rows[r] == RowOf(c, ss, q, blocks[r])
    {
      var row: seq<HeatCell> := [];
      for d := 0 to 7
        invariant |row| == d && forall e :: 0 <= e < d ==> row[e] == CellOf(c, ss, q, Slot(blocks[i].start, e))
      {
        ReadCellIsCell(c, ss, q, t, i, d);
        row := row + [ReadCell(t, blocks[i], d)];
      }
      rows := rows + [HeatRow(blocks[i], row)];
    }
    assert rows == GridOf(c, ss, q);
    return Some(rows);
  }
}
