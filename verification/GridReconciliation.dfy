/** The grid, summed over its cells, is the campus card. */
module GridReconciliation {
  import opened Buckets
  import opened Calendar
  import opened Capacity
  import opened Contribution
  import opened Distribution
  import opened HeatGrid
  import opened Ladder
  import opened Queries
  import opened Tables
  import opened Utilization
  import opened Wrappers

  /* Summing the cells */

  function RowTotal(cells: seq<HeatCell>, f: HeatCell -> int): int {
    if cells == [] then 0 else RowTotal(cells[..|cells| - 1], f) + f(cells[|cells| - 1])
  }

  function GridTotal(rows: seq<HeatRow>, f: HeatCell -> int): int {
    if rows == [] then 0 else GridTotal(rows[..|rows| - 1], f) + RowTotal(rows[|rows| - 1].cells, f)
  }

  function BookedIn(): HeatCell -> int {
    (x: HeatCell) => x.booked
  }

  function UsedIn(): HeatCell -> int {
    (x: HeatCell) => x.used
  }

  function AvailableOf(): HeatCell -> int {
    (x: HeatCell) => x.available
  }

  // The slots of a rung, and of all rungs.
  function Week(start: TimeOfDay, n: nat): seq<Slot>
    requires n <= 7
  {
    if n == 0 then [] else Week(start, n - 1) + [Slot(start, n - 1)]
  }

  function Slots(blocks: seq<Block>): seq<Slot> {
    if blocks == [] then [] else Slots(blocks[..|blocks| - 1]) + Week(blocks[|blocks| - 1].start, 7)
  }

  lemma {:induction false} RowIsAcross(cells: seq<HeatCell>, start: TimeOfDay, f: HeatCell -> int, g: Slot -> int)
    requires |cells| <= 7 && forall d :: 0 <= d < |cells| ==> f(cells[d]) == g(Slot(start, d))
    ensures RowTotal(cells, f) == Across(Week(start, |cells|), g)
  {
    if cells != [] {
      var n := |cells| - 1;
      RowIsAcross(cells[..n], start, f, g);
      assert Week(start, n + 1)[..|Week(start, n + 1)| - 1] == Week(start, n);
    }
  }

  lemma {:induction false} GridIsAcross(rows: seq<HeatRow>, blocks: seq<Block>, f: HeatCell -> int, g: Slot -> int)
    requires |rows| == |blocks|
    requires forall i :: 0 <= i < |rows| ==> |rows[i].cells| == 7
    requires forall i, d :: 0 <= i < |rows| && 0 <= d < 7 ==> f(rows[i].cells[d]) == g(Slot(blocks[i].start, d))
    ensures GridTotal(rows, f) == Across(Slots(blocks), g)
  {
    if rows != [] {
      var n := |rows| - 1;
      GridIsAcross(rows[..n], blocks[..n], f, g);
      RowIsAcross(rows[n].cells, blocks[n].start, f, g);
      AcrossAppend(Slots(blocks[..n]), Week(blocks[n].start, 7), g);
    }
  }

  lemma {:induction false} WeekIsComplete(start: TimeOfDay, n: nat)
    requires n <= 7
    ensures Distinct(Week(start, n))
    ensures forall s :: s in Week(start, n) <==> s.start == start && s.day < n
  {
    if n > 0 {
      WeekIsComplete(start, n - 1);
      var front := Week(start, n - 1);
      assert forall j :: 0 <= j < |front| ==> front[j] in front;
    }
  }

  lemma {:induction false} SlotsAreComplete(blocks: seq<Block>)
    requires Ascending(blocks)
    ensures Distinct(Slots(blocks))
    ensures forall s :: s in Slots(blocks) <==> IsRung(blocks, s.start)
  {
    if blocks != [] {
      var n := |blocks| - 1;
      var front, week := Slots(blocks[..n]), Week(blocks[n].start, 7);
      SlotsAreComplete(blocks[..n]);
      WeekIsComplete(blocks[n].start, 7);
      assert forall s :: s in front ==> IsRung(blocks[..n], s.start) && s.start != blocks[n].start;
      assert forall j :: 0 <= j < |front| ==> front[j] in front;
      assert forall j :: 0 <= j < |week| ==> week[j] in week;
      assert forall t :: IsRung(blocks, t) <==> IsRung(blocks[..n], t) || t == blocks[n].start;
    }
  }

  /* What one session posts */

  lemma {:induction false} PostedTotal(blocks: seq<Block>, rungs: seq<nat>, day: Weekday, parts: seq<int>)
    requires Keys(rungs, |blocks|) && |parts| == |rungs|
    ensures Total(Posted(blocks, rungs, day, parts)) == SumOf(parts)
    ensures forall e :: e in Posted(blocks, rungs, day, parts) ==> IsRung(blocks, e.key.start)
  {
    if rungs != [] {
      var n := |rungs| - 1;
      PostedTotal(blocks, rungs[..n], day, parts[..n]);
    }
  }

  // A session posts its whole amount, or nothing when it occupies no rung.
  lemma SpreadTotal(blocks: seq<Block>, k: Schedule, amount: nat)
    ensures Total(Spread(blocks, k, amount)) == if Occupied(blocks, k) == [] then 0 else amount
    ensures forall e :: e in Spread(blocks, k, amount) ==> IsRung(blocks, e.key.start)
  {
    hide Occupied;
    hide Distribute;
    hide IsRung;
    var rungs := Occupied(blocks, k);
    var weights := Weights(blocks, rungs);
    PostedTotal(blocks, rungs, k.dow, Distribute(amount, weights));
    if rungs != [] {
      DistributeConserves(amount, weights);
    }
  }

  predicate Backwards(c: Campus, s: Session) {
    s.schedule < |c.schedules| && c.schedules[s.schedule].start >= c.schedules[s.schedule].end
  }

  // A class starts on a rung, so it occupies one unless it ends no later than it starts.
  lemma OccupiesUnlessBackwards(c: Campus, term: Option<Id>, k: Id)
    requires ActiveIn(c, term, k)
    ensures Occupied(Rungs(c, term), c.schedules[k]) == [] <==> c.schedules[k].start >= c.schedules[k].end
  {
    hide Rungs;
    hide Occupied;
    RungsAreExact(c, term);
    var blocks, x := Rungs(c, term), c.schedules[k];
    var rungs := Occupied(blocks, x);
    assert IsRung(blocks, x.start);
    var b: nat :| b < |blocks| && blocks[b].start == x.start;
    assert b in rungs <==> x.start < x.end;
    HeadIsMember(rungs);
  }

  /* What all of them post */

  // The amounts of sessions whose class ends no later than it starts.
  function LostTime(c: Campus, ss: seq<Session>, ids: seq<Id>, amount: Session -> nat): nat
    requires Keys(ids, |ss|)
  {
    if ids == [] then 0
    else
      var s := ss[ids[|ids| - 1]];
      LostTime(c, ss, ids[..|ids| - 1], amount) + if Backwards(c, s) then amount(s) else 0
  }

  lemma {:induction false} PostingsTotal(
    c: Campus, ss: seq<Session>, term: Option<Id>, ids: seq<Id>, amount: Session -> nat)
    requires Keys(ids, |ss|) && forall i :: i in ids ==> ActiveIn(c, term, ss[i].schedule)
    requires forall s :: Contribute(s).running ==> amount(s) == 0
    ensures Total(AllPostings(c, ss, Rungs(c, term), ids, amount)) + LostTime(c, ss, ids, amount)
         == Total(ByRoom(ss, ids, amount))
    ensures forall e :: e in AllPostings(c, ss, Rungs(c, term), ids, amount) ==> IsRung(Rungs(c, term), e.key.start)
  {
    hide Rungs;
    hide Spread;
    hide Occupied;
    hide Contribute;
    hide IsRung;
    if ids != [] {
      var n := |ids| - 1;
      var s, blocks := ss[ids[n]], Rungs(c, term);
      PostingsTotal(c, ss, term, ids[..n], amount);
      assert ids[n] in ids && ids[..n + 1] == ids;
      PostNext(ss, ids, n, amount);
      SpreadTotal(blocks, c.schedules[s.schedule], amount(s));
      OccupiesUnlessBackwards(c, term, s.schedule);
      TotalAppend(AllPostings(c, ss, blocks, ids[..n], amount), Postings(c, blocks, s, amount));
    }
  }

  // Summed over every cell, the grid's time and the time of backwards classes make the campus total.
  lemma GridAmountsReconcile(c: Campus, ss: seq<Session>, q: Query, amount: Session -> nat, f: HeatCell -> int)
    requires forall s :: Contribute(s).running ==> amount(s) == 0
    requires
      var es := AllPostings(c, ss, Rungs(c, q.term), ScopedIds(c, ss, q), amount);
      forall slot :: f(CellOf(c, ss, q, slot)) == Bucket(es, slot)
    ensures GridTotal(GridOf(c, ss, q), f) + LostTime(c, ss, ScopedIds(c, ss, q), amount) == CampusTotal(c, ss, q, amount)
  {
    hide CellOf;
    hide AllPostings;
    hide Rungs;
    hide Contribute;
    hide ActiveIn;
    hide IsRung;
    hide Ascending;
    hide Bucket;
    hide IsModalLongest;
    hide SpansAt;
    var ids, blocks := ScopedIds(c, ss, q), Rungs(c, q.term);
    var es := AllPostings(c, ss, blocks, ids, amount);
    RungsAreExact(c, q.term);
    SlotsAreComplete(blocks);
    PostingsTotal(c, ss, q.term, ids, amount);
    GridIsAcross(GridOf(c, ss, q), blocks, f, BucketOf(es));
    BucketsConserve(es, Slots(blocks));
    AllWithin(es, Slots(blocks));
  }

  // Booked and used seconds of the grid are those of the card, short of exactly the time of
  // classes that end no later than they start, which occupy no rung.
  lemma HeatGridReconciles(c: Campus, ss: seq<Session>, q: Query)
    ensures
      var grid, card, ids := GridOf(c, ss, q), CardOf(c, ss, q), ScopedIds(c, ss, q);
      && GridTotal(grid, BookedIn()) + LostTime(c, ss, ids, Booked()) == card.booked
      && GridTotal(grid, UsedIn()) + LostTime(c, ss, ids, Used()) == card.used
  {
    hide AllPostings;
    hide Rungs;
    hide GridOf;
    hide Keep;
    hide ShapeOf;
    GridAmountsReconcile(c, ss, q, Booked(), BookedIn());
    GridAmountsReconcile(c, ss, q, Used(), UsedIn());
  }

  lemma {:induction false} LostTimeIsBackwards(c: Campus, ss: seq<Session>, ids: seq<Id>, amount: Session -> nat)
    requires Keys(ids, |ss|)
    ensures LostTime(c, ss, ids, amount) == 0 <==>
      forall j :: 0 <= j < |ids| ==> !Backwards(c, ss[ids[j]]) || amount(ss[ids[j]]) == 0
  {
    if ids != [] {
      LostTimeIsBackwards(c, ss, ids[..|ids| - 1], amount);
    }
  }

  lemma NoLostTimeIff(c: Campus, ss: seq<Session>, q: Query, amount: Session -> nat)
    ensures LostTime(c, ss, ScopedIds(c, ss, q), amount) == 0 <==>
      forall i :: 0 <= i < |ss| && InScope(c, q, ss[i]) && Backwards(c, ss[i]) ==> amount(ss[i]) == 0
  {
    hide InScope;
    hide Backwards;
    var ids := ScopedIds(c, ss, q);
    LostTimeIsBackwards(c, ss, ids, amount);
    assert forall j :: 0 <= j < |ids| ==> ids[j] in ids;
    assert forall i :: 0 <= i < |ss| && InScope(c, q, ss[i]) ==> i in ids;
  }

  // So the two agree to the second, in booked and likewise in used time, exactly when no session
  // in range that has such time is of such a class, and in particular whenever every active class
  // starts before it ends.
  lemma GridEqualsCardIff(c: Campus, ss: seq<Session>, q: Query)
    ensures
      GridTotal(GridOf(c, ss, q), BookedIn()) == CardOf(c, ss, q).booked <==>
        forall i :: 0 <= i < |ss| && InScope(c, q, ss[i]) && Backwards(c, ss[i]) ==> Contribute(ss[i]).booked == 0
    ensures
      GridTotal(GridOf(c, ss, q), UsedIn()) == CardOf(c, ss, q).used <==>
        forall i :: 0 <= i < |ss| && InScope(c, q, ss[i]) && Backwards(c, ss[i]) ==> Contribute(ss[i]).used == 0
    ensures
      (forall k: Id :: ActiveIn(c, q.term, k) ==> c.schedules[k].start < c.schedules[k].end) ==>
        && GridTotal(GridOf(c, ss, q), BookedIn()) == CardOf(c, ss, q).booked
        && GridTotal(GridOf(c, ss, q), UsedIn()) == CardOf(c, ss, q).used
  {
    hide GridOf;
    hide CardOf;
    hide Contribute;
    hide ScopedIds;
    hide LostTime;
    HeatGridReconciles(c, ss, q);
    NoLostTimeIff(c, ss, q, Booked());
    NoLostTimeIff(c, ss, q, Used());
  }

  /* Capacity */

  lemma {:induction false} PricedAt(cells: seq<Cell>, rooms: nat, first: Date, last: Date)
    ensures |PricedCells(cells, rooms, first, last)| == |cells|
    ensures forall j :: 0 <= j < |cells| ==>
      PricedCells(cells, rooms, first, last)[j]
      == Entry(Slot(cells[j].start, cells[j].day), Price(rooms, Occurrences(first, last, cells[j].day), cells[j].seconds))
  {
    hide Occurrences;
    if cells != [] {
      PricedAt(cells[..|cells| - 1], rooms, first, last);
    }
  }

  // A cell's capacity in the grid is what the cell list prices its slot at.
  lemma AvailableIsPriced(c: Campus, q: Query, slot: Slot)
    ensures
      var es := PricedCells(TimetabledCells(c, q.term), |PhysicalRooms(c)|, q.start, LastDay(q.end, q.asOf));
      AvailableIn(c, q, slot) == Bucket(es, slot)
  {
    hide Timetabled;
    hide TimetabledCells;
    hide Rungs;
    hide SecondsOf;
    hide Occurrences;
    hide PhysicalRooms;
    hide PricedCells;
    hide Bucket;
    var cells := TimetabledCells(c, q.term);
    var es := PricedCells(cells, |PhysicalRooms(c)|, q.start, LastDay(q.end, q.asOf));
    CellsAreExact(c, q.term);
    PricedAt(cells, |PhysicalRooms(c)|, q.start, LastDay(q.end, q.asOf));
    if Timetabled(c, q.term, slot.day, slot.start) {
      var x := Cell(slot.day, slot.start, SecondsOf(Rungs(c, q.term), slot.start));
      var j: nat :| j < |cells| && cells[j] == x;
      BucketOfOne(es, j);
    } else {
      forall e | e in es ensures e.key != slot {
        var j: nat :| j < |es| && es[j] == e;
        assert cells[j] in cells;
      }
      BucketOfNone(es, slot);
    }
  }

  // The grid's available seconds are the physical rooms times what one room has over the range.
  lemma CapacityReconciles(c: Campus, ss: seq<Session>, q: Query)
    ensures GridTotal(GridOf(c, ss, q), AvailableOf()) == CardOf(c, ss, q).available
  {
    hide AvailableIn;
    hide Rungs;
    hide PricedCells;
    hide TimetabledCells;
    hide PhysicalRooms;
    hide ShapeOf;
    hide Keep;
    hide AllPostings;
    hide CampusTotal;
    var cells, blocks := TimetabledCells(c, q.term), Rungs(c, q.term);
    var rooms, last := |PhysicalRooms(c)|, LastDay(q.end, q.asOf);
    var es := PricedCells(cells, rooms, q.start, last);
    RungsAreExact(c, q.term);
    SlotsAreComplete(blocks);
    forall slot ensures AvailableIn(c, q, slot) == Bucket(es, slot) {
      AvailableIsPriced(c, q, slot);
    }
    GridIsAcross(GridOf(c, ss, q), blocks, AvailableOf(), BucketOf(es));
    BucketsConserve(es, Slots(blocks));
    PricedWithinSlots(c, q.term, rooms, q.start, last);
    AllWithin(es, Slots(blocks));
    WalksAgree(cells, rooms, q.start, last);
  }

  lemma CellStartsAreRungs(c: Campus, term: Option<Id>, x: Cell)
    requires x in TimetabledCells(c, term)
    ensures IsRung(Rungs(c, term), x.start)
  {
    hide TimetabledCells;
    hide Rungs;
    hide SpansAt;
    hide IsModalLongest;
    hide IsRung;
    RungsAreExact(c, term);
    CellsAreExact(c, term);
    assert x.start in Starts(c, term);
  }

  lemma PricedWithinSlots(c: Campus, term: Option<Id>, rooms: nat, first: Date, last: Date)
    ensures forall e :: e in PricedCells(TimetabledCells(c, term), rooms, first, last) ==> e.key in Slots(Rungs(c, term))
  {
    hide TimetabledCells;
    hide Rungs;
    hide PricedCells;
    hide Occurrences;
    hide IsRung;
    hide SpansAt;
    hide IsModalLongest;
    var cells := TimetabledCells(c, term);
    var es := PricedCells(cells, rooms, first, last);
    RungsAreExact(c, term);
    SlotsAreComplete(Rungs(c, term));
    PricedAt(cells, rooms, first, last);
    forall e | e in es ensures e.key in Slots(Rungs(c, term)) {
      var j: nat :| j < |es| && es[j] == e;
      assert cells[j] in cells;
      CellStartsAreRungs(c, term, cells[j]);
    }
  }
}
