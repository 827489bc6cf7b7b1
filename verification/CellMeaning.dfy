/** What a single cell of the heat grid holds: whose time, how much of it, and against what capacity. */
module CellMeaning {
  import opened Buckets
  import opened Calendar
  import opened Capacity
  import Contribution
  import opened Distribution
  import opened GridReconciliation
  import opened HeatGrid
  import opened Ladder
  import Percentage
  import opened Queries
  import opened Tables
  import opened Utilization

  /* Whose time */

  // Of a list of rungs with different starts, the slot of the j-th one gets the j-th part, and a
  // slot of another day or start gets nothing.
  lemma {:induction false} PostedAt(
    blocks: seq<Block>, rungs: seq<nat>, day: Weekday, parts: seq<int>, j: nat, slot: Slot)
    requires Keys(rungs, |blocks|) && |parts| == |rungs|
    requires forall a, b :: 0 <= a < b < |rungs| ==> blocks[rungs[a]].start != blocks[rungs[b]].start
    ensures j < |rungs| && slot == Slot(blocks[rungs[j]].start, day) ==>
      Bucket(Posted(blocks, rungs, day, parts), slot) == parts[j]
    ensures slot.day != day || (forall m :: 0 <= m < |rungs| ==> blocks[rungs[m]].start != slot.start) ==>
      Bucket(Posted(blocks, rungs, day, parts), slot) == 0
  {
    if rungs != [] {
      var n := |rungs| - 1;
      PostedAt(blocks, rungs[..n], day, parts[..n], j, slot);
    }
  }

  lemma RungsApart(blocks: seq<Block>, k: Schedule)
    requires Ascending(blocks)
    ensures
      var rungs := Occupied(blocks, k);
      forall a, b :: 0 <= a < b < |rungs| ==> blocks[rungs[a]].start != blocks[rungs[b]].start
  {
    var up := UpTo(|blocks|);
    UpToAscends(|blocks|);
    KeepPreserves(up, Inside(blocks, k), Less());
    var rungs := Occupied(blocks, k);
    assert rungs == Keep(up, Inside(blocks, k));
    forall a, b | 0 <= a < b < |rungs| ensures rungs[a] < rungs[b] {
      assert Less()(rungs[a], rungs[b]);
    }
  }

  function Less(): (nat, nat) -> bool {
    (x: nat, y: nat) => x < y
  }

  lemma {:induction false} UpToAscends(n: nat)
    ensures forall a, b :: 0 <= a < b < |UpTo(n)| ==> Less()(UpTo(n)[a], UpTo(n)[b])
  {
    if n > 0 {
      UpToAscends(n - 1);
      var rest := UpTo(n - 1);
      assert forall a :: 0 <= a < |rest| ==> rest[a] in rest;
    }
  }

  // A session's time goes to cells of its class's weekday on rungs that start within its hours,
  // the j-th of them getting the j-th part of the split.
  lemma TimeGoesToItsOwnCells(blocks: seq<Block>, k: Schedule, amount: nat, slot: Slot)
    requires Ascending(blocks)
    ensures
      var rungs := Occupied(blocks, k);
      && (slot.day != k.dow || !(k.start <= slot.start < k.end) || !IsRung(blocks, slot.start) ==>
            Bucket(Spread(blocks, k, amount), slot) == 0)
      && (forall j :: 0 <= j < |rungs| && slot == Slot(blocks[rungs[j]].start, k.dow) ==>
            Bucket(Spread(blocks, k, amount), slot) == Distribute(amount, Weights(blocks, rungs))[j])
  {
    hide Distribute;
    hide Posted;
    var rungs := Occupied(blocks, k);
    RungsApart(blocks, k);
    var parts := Distribute(amount, Weights(blocks, rungs));
    forall m | 0 <= m < |rungs| ensures k.start <= blocks[rungs[m]].start < k.end && IsRung(blocks, blocks[rungs[m]].start) {
      assert rungs[m] in rungs;
    }
    hide Occupied;
    forall j: nat ensures j < |rungs| && slot == Slot(blocks[rungs[j]].start, k.dow) ==>
      Bucket(Posted(blocks, rungs, k.dow, parts), slot) == parts[j]
    {
      PostedAt(blocks, rungs, k.dow, parts, j, slot);
    }
    PostedAt(blocks, rungs, k.dow, parts, 0, slot);
  }

  /* How much */

  lemma {:induction false} PostedNonNegative(
    blocks: seq<Block>, rungs: seq<nat>, day: Weekday, parts: seq<int>, slot: Slot)
    requires Keys(rungs, |blocks|) && |parts| == |rungs| && forall j :: 0 <= j < |parts| ==> parts[j] >= 0
    ensures Bucket(Posted(blocks, rungs, day, parts), slot) >= 0
  {
    if rungs != [] {
      var n := |rungs| - 1;
      PostedNonNegative(blocks, rungs[..n], day, parts[..n], slot);
    }
  }

  lemma PositiveWeights(blocks: seq<Block>, rungs: seq<nat>)
    requires Keys(rungs, |blocks|) && rungs != []
    ensures SumOf(Weights(blocks, rungs)) > 0
  {
    var weights := Weights(blocks, rungs);
    SumOfWeights(weights);
    assert weights[0] > 0;
  }

  // The lengths of the listed rungs, in seconds.
  function Lengths(blocks: seq<Block>, rungs: seq<nat>): seq<int>
    requires Keys(rungs, |blocks|)
  {
    if rungs == [] then [] else Lengths(blocks, rungs[..|rungs| - 1]) + [blocks[rungs[|rungs| - 1]].seconds]
  }

  lemma {:induction false} LengthsAt(blocks: seq<Block>, rungs: seq<nat>)
    requires Keys(rungs, |blocks|)
    ensures |Lengths(blocks, rungs)| == |rungs|
    ensures forall j :: 0 <= j < |rungs| ==> Lengths(blocks, rungs)[j] == blocks[rungs[j]].seconds
  {
    if rungs != [] {
      LengthsAt(blocks, rungs[..|rungs| - 1]);
    }
  }

  // The split follows the lengths of the rungs: every part but the last is the exact share of its
  // rung's length rounded down, and the last is short of its own by nothing.
  lemma PartsFollowRungLengths(blocks: seq<Block>, rungs: seq<nat>, amount: nat, j: nat)
    requires Keys(rungs, |blocks|) && j < |rungs| && forall m :: 0 <= m < |rungs| ==> blocks[rungs[m]].seconds > 0
    ensures
      var span, part := SumOf(Lengths(blocks, rungs)), Distribute(amount, Weights(blocks, rungs))[j];
      && span > 0
      && (if j < |rungs| - 1 then RoundedDown(amount, blocks[rungs[j]].seconds, span, part)
          else RoundedUp(amount, blocks[rungs[j]].seconds, span, part, j * (span - 1)))
  {
    hide RoundedDown;
    hide RoundedUp;
    LengthsAt(blocks, rungs);
    assert Lengths(blocks, rungs) == Weights(blocks, rungs);
    PositiveWeights(blocks, rungs);
    DistributeIsProportional(amount, Weights(blocks, rungs), j);
  }

  lemma SpreadNonNegative(blocks: seq<Block>, k: Schedule, amount: nat, slot: Slot)
    ensures Bucket(Spread(blocks, k, amount), slot) >= 0
  {
    hide Distribute;
    hide Occupied;
    var rungs := Occupied(blocks, k);
    var weights := Weights(blocks, rungs);
    if rungs != [] {
      PositiveWeights(blocks, rungs);
    }
    forall j | 0 <= j < |rungs| ensures Distribute(amount, weights)[j] >= 0 {
      DistributeIsProportional(amount, weights, j);
    }
    PostedNonNegative(blocks, rungs, k.dow, Distribute(amount, weights), slot);
  }

  lemma {:induction false} BucketAppend(es: seq<Entry<Slot>>, fs: seq<Entry<Slot>>, slot: Slot)
    ensures Bucket(es + fs, slot) == Bucket(es, slot) + Bucket(fs, slot)
  {
    if fs == [] {
      assert es + fs == es;
    } else {
      var n := |fs| - 1;
      BucketAppend(es, fs[..n], slot);
      assert (es + fs)[..|es| + n] == es + fs[..n];
    }
  }

  lemma {:induction false} CellsNonNegative(
    c: Campus, ss: seq<Session>, blocks: seq<Block>, ids: seq<Id>, amount: Session -> nat, slot: Slot)
    requires Keys(ids, |ss|)
    ensures Bucket(AllPostings(c, ss, blocks, ids, amount), slot) >= 0
  {
    hide Spread;
    hide Contribution.Contribute;
    if ids != [] {
      var n := |ids| - 1;
      var s := ss[ids[n]];
      CellsNonNegative(c, ss, blocks, ids[..n], amount, slot);
      if s.schedule < |c.schedules| {
        SpreadNonNegative(blocks, c.schedules[s.schedule], amount(s), slot);
      }
      BucketAppend(AllPostings(c, ss, blocks, ids[..n], amount), Postings(c, blocks, s, amount), slot);
    }
  }

  /* Against what */

  // A cell is timetabled when some active class meets on its day at its rung's start; its capacity
  // is then every physical room for the rung's length on each date of the range that falls on
  // the day, and otherwise nothing. Neither used nor booked time is ever negative.
  lemma CellMeans(c: Campus, ss: seq<Session>, q: Query, i: nat, d: nat)
    requires i < |GridOf(c, ss, q)| && d < 7
    ensures |GridOf(c, ss, q)| == |Rungs(c, q.term)|
    ensures
      var x, block := GridOf(c, ss, q)[i].cells[d], Rungs(c, q.term)[i];
      && x.day == d && x.used >= 0 && x.booked >= 0
      && (x.timetabled <==>
            exists k: Id :: (
              k < |c.schedules| && ActiveIn(c, q.term, k) && c.schedules[k].dow == d && c.schedules[k].start == block.start))
      && x.available == if x.timetabled
           then |PhysicalRooms(c)| * |DatesOn(q.start, LastDay(q.end, q.asOf), d)| * block.seconds else 0
  {
    hide Bucket;
    hide AllPostings;
    hide Occurrences;
    hide Percentage.Percent;
    var block, ids, blocks := Rungs(c, q.term)[i], ScopedIds(c, ss, q), Rungs(c, q.term);
    OccurrencesAreDates(q.start, LastDay(q.end, q.asOf), d);
    RungsAreExact(c, q.term);
    SecondsOfRung(Rungs(c, q.term), i);
    CellsNonNegative(c, ss, blocks, ids, Used(), Slot(block.start, d));
    CellsNonNegative(c, ss, blocks, ids, Booked(), Slot(block.start, d));
    hide Rungs;
    hide DatesOn;
    hide SpansAt;
    hide IsModalLongest;
  }
}
