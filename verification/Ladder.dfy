/** The campus-wide block ladder and the (day, block) cells a term timetables. */
module Ladder {
  import opened Calendar
  import opened Contribution
  import opened Queries
  import opened Tables
  import opened Wrappers

  /* A block's representative length */

  predicate IsModalLongest(spans: seq<nat>, d: nat) {
    && d in spans
    && forall e :: e in spans ==>
         multiset(spans)[e] < multiset(spans)[d] || (multiset(spans)[e] == multiset(spans)[d] && e <= d)
  }

  // The best of the first n spans: the more frequent one, the longer one on a tie.
  function BestOf(spans: seq<nat>, n: nat): (best: nat)
    requires 0 < n <= |spans|
    ensures best in spans[..n]
    ensures forall e :: e in spans[..n] ==>
      multiset(spans)[e] < multiset(spans)[best] || (multiset(spans)[e] == multiset(spans)[best] && e <= best)
  {
    var d := spans[n - 1];
    assert forall e :: e in spans[..n] ==> e == d || e in spans[..n - 1];
    if n == 1 then
      d
    else
      var best := BestOf(spans, n - 1);
      var counts := multiset(spans);
      if counts[d] > counts[best] || (counts[d] == counts[best] && d > best) then d else best
  }

  // The most frequent span, and on a tie the longest, so that a block is never undercounted.
  function BlockDuration(spans: seq<nat>): (d: nat)
    ensures if spans == [] then d == 0 else IsModalLongest(spans, d)
  {
    if spans == [] then
      0
    else
      assert spans[..|spans|] == spans;
      BestOf(spans, |spans|)
  }

  /* The ladder */

  datatype Block = Block(start: TimeOfDay, seconds: nat)

  predicate ActiveIn(c: Campus, term: Option<Id>, k: Id) {
    k < |c.schedules| && Some(c.schedules[k].term) == term && c.schedules[k].status.ScheduleActive?
  }

  function Starts(c: Campus, term: Option<Id>): set<nat> {
    set k | 0 <= k < |c.schedules| && ActiveIn(c, term, k) :: c.schedules[k].start
  }

  function SpansAt(c: Campus, term: Option<Id>, start: nat): seq<nat> {
    var ids := IdsWhere(c.schedules, (k: Schedule) =>
      Some(k.term) == term && k.status.ScheduleActive? && k.start == start);
    seq(|ids|, j requires 0 <= j < |ids| =>
      assert ids[j] in ids; WholeSeconds(c.schedules[ids[j]].end - c.schedules[ids[j]].start))
  }

  function ToTime(t: nat): TimeOfDay {
    t % 86_400_000_000
  }

  // One rung per distinct start, earliest first; empty when there is nothing to derive them from.
  function Rungs(c: Campus, term: Option<Id>): (blocks: seq<Block>)
    ensures |blocks| == |Sorted(Starts(c, term))|
  {
    var starts := Sorted(Starts(c, term));
    seq(|starts|, j requires 0 <= j < |starts| =>
      Block(ToTime(starts[j]), BlockDuration(SpansAt(c, term, starts[j]))))
  }

  predicate IsRung(blocks: seq<Block>, start: TimeOfDay) {
    exists b :: 0 <= b < |blocks| && blocks[b].start == start
  }

  predicate Ascending(blocks: seq<Block>) {
    forall a, b :: 0 <= a < b < |blocks| ==> blocks[a].start < blocks[b].start
  }

  // The rungs ascend, every active schedule starts on one, nothing else is one, and each has
  // the modal length of the schedules that start on it.
  lemma RungsAreExact(c: Campus, term: Option<Id>)
    ensures Ascending(Rungs(c, term))
    ensures forall t: TimeOfDay :: IsRung(Rungs(c, term), t) <==> t in Starts(c, term)
    ensures forall b :: b in Rungs(c, term) ==> IsModalLongest(SpansAt(c, term, b.start), b.seconds)
  {
    hide ActiveIn;
    hide SpansAt;
    hide IsModalLongest;
    hide BlockDuration;
    var blocks, starts := Rungs(c, term), Sorted(Starts(c, term));
    forall j | 0 <= j < |starts|
      ensures blocks[j].start == starts[j] && starts[j] in Starts(c, term)
      ensures IsModalLongest(SpansAt(c, term, starts[j]), blocks[j].seconds)
    {
      assert starts[j] in starts;
      StartHasSpan(c, term, starts[j]);
    }
    forall t: TimeOfDay | t in Starts(c, term) ensures IsRung(blocks, t) {
      assert t in starts;
      var j :| 0 <= j < |starts| && starts[j] == t;
      assert blocks[j].start == t;
    }
  }

  lemma StartHasSpan(c: Campus, term: Option<Id>, start: nat)
    requires start in Starts(c, term)
    ensures 0 <= start < 86_400_000_000 && SpansAt(c, term, start) != []
  {
    var k :| 0 <= k < |c.schedules| && ActiveIn(c, term, k) && c.schedules[k].start == start;
    var ids := IdsWhere(c.schedules, (k: Schedule) =>
      Some(k.term) == term && k.status.ScheduleActive? && k.start == start);
    assert k in ids;
  }

  function CampusBlockLadder(c: Campus, term: Option<Id>): Option<seq<Block>> {
    if Rungs(c, term) == [] then None else Some(Rungs(c, term))
  }

  /* The timetabled cells */

  datatype Cell = Cell(day: Weekday, start: TimeOfDay, seconds: nat)

  // A (day, start) pair as one number that orders as the pair does.
  function CellKey(day: Weekday, start: TimeOfDay): nat {
    day * 86_400_000_000 + start
  }

  function DayOfKey(key: nat): Weekday {
    key / 86_400_000_000 % 7
  }

  lemma CellKeyIsPair(day: Weekday, start: TimeOfDay)
    ensures DayOfKey(CellKey(day, start)) == day && ToTime(CellKey(day, start)) == start
  {
  }

  predicate Timetabled(c: Campus, term: Option<Id>, day: Weekday, start: TimeOfDay) {
    exists k: Id :: k < |c.schedules| && ActiveIn(c, term, k) && c.schedules[k].dow == day && c.schedules[k].start == start
  }

  function SecondsOf(blocks: seq<Block>, start: TimeOfDay): nat {
    if blocks == [] then 0 else if blocks[|blocks| - 1].start == start then blocks[|blocks| - 1].seconds
    else SecondsOf(blocks[..|blocks| - 1], start)
  }

  function Pairs(c: Campus, term: Option<Id>): set<nat> {
    set k | 0 <= k < |c.schedules| && ActiveIn(c, term, k) :: CellKey(c.schedules[k].dow, c.schedules[k].start)
  }

  // One cell per distinct (day, start) pair of the active schedules, by day and then start.
  function TimetabledCells(c: Campus, term: Option<Id>): (cells: seq<Cell>)
    ensures |cells| == |Sorted(Pairs(c, term))|
  {
    var keys := Sorted(Pairs(c, term));
    seq(|keys|, j requires 0 <= j < |keys| =>
      Cell(DayOfKey(keys[j]), ToTime(keys[j]), SecondsOf(Rungs(c, term), ToTime(keys[j]))))
  }

  // The cells are exactly the timetabled pairs, each once, and each as long as its rung.
  lemma CellsAreExact(c: Campus, term: Option<Id>)
    ensures
      var cells := TimetabledCells(c, term);
      && (forall x :: x in cells ==>
            Timetabled(c, term, x.day, x.start) && x.seconds == SecondsOf(Rungs(c, term), x.start))
      && (forall d: Weekday, t: TimeOfDay :: Timetabled(c, term, d, t) ==>
            Cell(d, t, SecondsOf(Rungs(c, term), t)) in cells)
      && (forall a, b :: 0 <= a < b < |cells| ==> (cells[a].day, cells[a].start) != (cells[b].day, cells[b].start))
  {
    hide ActiveIn;
    var cells, keys := TimetabledCells(c, term), Sorted(Pairs(c, term));
    forall j | 0 <= j < |keys|
      ensures Timetabled(c, term, cells[j].day, cells[j].start)
      ensures keys[j] == CellKey(cells[j].day, cells[j].start)
    {
      assert keys[j] in keys;
      var k :| 0 <= k < |c.schedules| && ActiveIn(c, term, k)
        && keys[j] == CellKey(c.schedules[k].dow, c.schedules[k].start);
      CellKeyIsPair(c.schedules[k].dow, c.schedules[k].start);
    }
    forall d: Weekday, t: TimeOfDay | Timetabled(c, term, d, t)
      ensures Cell(d, t, SecondsOf(Rungs(c, term), t)) in cells
    {
      CellKeyIsPair(d, t);
      assert CellKey(d, t) in keys;
      var j :| 0 <= j < |keys| && keys[j] == CellKey(d, t);
      assert cells[j] == Cell(d, t, SecondsOf(Rungs(c, term), t));
    }
  }

  // A rung's length is what the table of lengths says.
  lemma {:induction false} SecondsOfRung(blocks: seq<Block>, i: nat)
    requires i < |blocks| && Ascending(blocks)
    ensures SecondsOf(blocks, blocks[i].start) == blocks[i].seconds
  {
    if i < |blocks| - 1 {
      SecondsOfRung(blocks[..|blocks| - 1], i);
    }
  }
}
