/** The available-seconds denominator: one walk over the calendar, priced two ways. */
module Capacity {
  import opened Buckets
  import opened Calendar
  import opened Ladder
  import opened Tables
  import opened Wrappers

  /* Walking the dates */

  function LastDay(end: Date, asOf: Option<Date>): Date {
    if asOf.Some? && asOf.value < end then asOf.value else end
  }

  function Dates(first: Date, last: Date): seq<Date>
    decreases last - first
  {
    if last < first then [] else Dates(first, last - 1) + [last]
  }

  // One entry of 1 per date, under its weekday.
  function DayEntries(first: Date, last: Date): seq<Entry<Weekday>>
    decreases last - first
  {
    if last < first then [] else DayEntries(first, last - 1) + [Entry(WeekdayOf(last), 1)]
  }

  function Occurrences(first: Date, last: Date, day: Weekday): int {
    Bucket(DayEntries(first, last), day)
  }

  function DatesOn(first: Date, last: Date, day: Weekday): set<Date> {
    set d | first <= d <= last && WeekdayOf(d) == day
  }

  lemma DatesOnGrow(first: Date, last: Date, day: Weekday)
    requires first <= last
    ensures last !in DatesOn(first, last - 1, day)
    ensures DatesOn(first, last, day) == DatesOn(first, last - 1, day) + if WeekdayOf(last) == day then {last} else {}
  {
    hide WeekdayOf;
  }

  // Counting the weekday's occurrences counts the dates of the range that fall on it.
  lemma {:induction false} OccurrencesAreDates(first: Date, last: Date, day: Weekday)
    ensures Occurrences(first, last, day) == |DatesOn(first, last, day)|
    decreases last - first
  {
    hide WeekdayOf;
    if last < first {
      assert DatesOn(first, last, day) == {};
    } else {
      OccurrencesAreDates(first, last - 1, day);
      DatesOnGrow(first, last, day);
      hide DatesOn;
    }
  }

  method WeekdayOccurrences(start: Date, end: Date, asOf: Option<Date>) returns (counts: map<Weekday, int>)
    ensures Tallies(counts, DayEntries(start, LastDay(end, asOf)))
  {
    hide Tallies;
    var lastDay := LastDay(end, asOf);
    counts := map[];
    TallyStart<Weekday>();
    var day := start;
    while day <= lastDay
      invariant start <= day && (day > start ==> day <= lastDay + 1)
      invariant Tallies(counts, DayEntries(start, day - 1))
      decreases lastDay - day
    {
      TallyStep(counts, DayEntries(start, day - 1), WeekdayOf(day), 1);
      counts := Add(counts, WeekdayOf(day), 1);
      day := day + 1;
    }
    assert DayEntries(start, lastDay) == DayEntries(start, day - 1);
  }

  /* The shape of a range, per physical room */

  function SecondEntries(cells: seq<Cell>): seq<Entry<Weekday>> {
    if cells == [] then [] else
    SecondEntries(cells[..|cells| - 1]) + [Entry(cells[|cells| - 1].day, cells[|cells| - 1].seconds)]
  }

  function CountEntries(cells: seq<Cell>): seq<Entry<Weekday>> {
    if cells == [] then [] else CountEntries(cells[..|cells| - 1]) + [Entry(cells[|cells| - 1].day, 1)]
  }

  // What each date is worth when its weekday is worth its bucket.
  function PerDate(es: seq<Entry<Weekday>>): Date -> int {
    (d: Date) => Bucket(es, WeekdayOf(d))
  }

  predicate Teaching(cells: seq<Cell>, day: Weekday) {
    exists x :: x in cells && x.day == day
  }

  function TeachingOn(cells: seq<Cell>): Date -> int {
    (d: Date) => if Teaching(cells, WeekdayOf(d)) then 1 else 0
  }

  datatype Shape = Shape(teachingDays: int, cellCount: int, cellSeconds: int)

  function ShapeOf(cells: seq<Cell>, first: Date, last: Date): Shape {
    var dates := Dates(first, last);
    Shape(
      Across(dates, TeachingOn(cells)), Across(dates, PerDate(CountEntries(cells))),
      Across(dates, PerDate(SecondEntries(cells))))
  }

  lemma EmptyShape(cells: seq<Cell>, first: Date, last: Date)
    requires last < first
    ensures ShapeOf(cells, first, last) == Shape(0, 0, 0)
  {
  }

  lemma OneMoreDay(cells: seq<Cell>, first: Date, last: Date)
    requires first <= last
    ensures
      var before, day := ShapeOf(cells, first, last - 1), WeekdayOf(last);
      ShapeOf(cells, first, last) == Shape(
        before.teachingDays + if Teaching(cells, day) then 1 else 0,
        before.cellCount + Bucket(CountEntries(cells), day), before.cellSeconds + Bucket(SecondEntries(cells), day))
  {
    hide Bucket;
    hide Teaching;
    var dates := Dates(first, last);
    assert dates[..|dates| - 1] == Dates(first, last - 1);
  }

  method CellsByWeekday(cells: seq<Cell>) returns (counts: map<Weekday, int>, seconds: map<Weekday, int>)
    ensures Tallies(counts, CountEntries(cells)) && Tallies(seconds, SecondEntries(cells))
    ensures forall day :: (day in counts <==> Teaching(cells, day)) && (day in seconds <==> Teaching(cells, day))
  {
    hide Tallies;
    counts, seconds := map[], map[];
    TallyStart<Weekday>();
    for n := 0 to |cells|
      invariant Tallies(counts, CountEntries(cells[..n])) && Tallies(seconds, SecondEntries(cells[..n]))
      invariant forall day :: (day in counts <==> Teaching(cells[..n], day)) && (day in seconds <==> Teaching(cells[..n], day))
    {
      var x := cells[n];
      assert cells[..n + 1][..n] == cells[..n] && cells[..n + 1] == cells[..n] + [x];
      TallyStep(counts, CountEntries(cells[..n]), x.day, 1);
      TallyStep(seconds, SecondEntries(cells[..n]), x.day, x.seconds);
      counts := Add(counts, x.day, 1);
      seconds := Add(seconds, x.day, x.seconds);
    }
    assert cells[..|cells|] == cells;
  }

  method RangeCellShape(c: Campus, term: Option<Id>, start: Date, end: Date, asOf: Option<Date>) returns (shape: Shape)
    ensures shape == ShapeOf(TimetabledCells(c, term), start, LastDay(end, asOf))
  {
    hide Bucket;
    hide ShapeOf;
    hide Teaching;
    hide TimetabledCells;
    var cells := TimetabledCells(c, term);
    var counts, seconds := CellsByWeekday(cells);
    var lastDay := LastDay(end, asOf);
    var teachingDays, cellCount, cellSeconds := 0, 0, 0;
    var day := start;
    EmptyShape(cells, start, start - 1);
    while day <= lastDay
      invariant start <= day && (day > start ==> day <= lastDay + 1)
      invariant Shape(teachingDays, cellCount, cellSeconds) == ShapeOf(cells, start, day - 1)
      decreases lastDay - day
    {
      var weekday := WeekdayOf(day);
      OneMoreDay(cells, start, day);
      assert Get(counts, weekday) == Bucket(CountEntries(cells), weekday);
      assert Get(seconds, weekday) == Bucket(SecondEntries(cells), weekday);
      if weekday in counts {
        teachingDays := teachingDays + 1;
        cellCount := cellCount + counts[weekday];
        cellSeconds := cellSeconds + seconds[weekday];
      }
      day := day + 1;
    }
    if lastDay < start {
      EmptyShape(cells, start, lastDay);
    }
    return Shape(teachingDays, cellCount, cellSeconds);
  }

  /* The two prices agree */

  datatype Slot = Slot(start: TimeOfDay, day: Weekday)

  function Price(rooms: nat, occurrences: int, seconds: nat): int {
    rooms * occurrences * seconds
  }

  // Each cell priced by how often its weekday falls in the range.
  function PricedCells(cells: seq<Cell>, rooms: nat, first: Date, last: Date): seq<Entry<Slot>> {
    if cells == [] then []
    else
      var x := cells[|cells| - 1];
      PricedCells(cells[..|cells| - 1], rooms, first, last)
      + [Entry(Slot(x.start, x.day), Price(rooms, Occurrences(first, last, x.day), x.seconds))]
  }

  lemma {:induction false} NoDatesNoPrice(cells: seq<Cell>, rooms: nat, first: Date, last: Date)
    requires last < first
    ensures Total(PricedCells(cells, rooms, first, last)) == 0
  {
    if cells != [] {
      NoDatesNoPrice(cells[..|cells| - 1], rooms, first, last);
    }
  }

  lemma OneMoreOccurrence(first: Date, last: Date, day: Weekday)
    requires first <= last
    ensures Occurrences(first, last, day) == Occurrences(first, last - 1, day) + if WeekdayOf(last) == day then 1 else 0
  {
  }

  lemma OneMoreCell(cells: seq<Cell>, day: Weekday)
    requires cells != []
    ensures
      var n := |cells| - 1;
      Bucket(SecondEntries(cells), day)
      == Bucket(SecondEntries(cells[..n]), day) + if cells[n].day == day then cells[n].seconds else 0
  {
  }

  lemma OneMorePrice(cells: seq<Cell>, rooms: nat, first: Date, last: Date)
    requires cells != []
    ensures
      var n := |cells| - 1;
      Total(PricedCells(cells, rooms, first, last))
      == Total(PricedCells(cells[..n], rooms, first, last))
         + Price(rooms, Occurrences(first, last, cells[n].day), cells[n].seconds)
  {
    hide Price;
    hide Occurrences;
  }

  lemma PriceGrows(rooms: nat, before: int, seconds: nat, rest: int)
    ensures Price(rooms, before + 1, seconds) + rooms * rest == Price(rooms, before, seconds) + rooms * (rest + seconds)
  {
    assert rooms * (before + 1) * seconds == rooms * before * seconds + rooms * seconds;
  }

  lemma {:induction false} OneMoreDate(cells: seq<Cell>, rooms: nat, first: Date, last: Date)
    requires first <= last
    ensures Total(PricedCells(cells, rooms, first, last))
      == Total(PricedCells(cells, rooms, first, last - 1)) + rooms * Bucket(SecondEntries(cells), WeekdayOf(last))
  {
    hide Price;
    hide Occurrences;
    hide PricedCells;
    hide SecondEntries;
    hide Bucket;
    hide Total;
    hide WeekdayOf;
    if cells == [] {
      NoCells(rooms, first, last);
    } else {
      var n, day := |cells| - 1, WeekdayOf(last);
      var x := cells[n];
      OneMoreDate(cells[..n], rooms, first, last);
      OneMorePrice(cells, rooms, first, last);
      OneMorePrice(cells, rooms, first, last - 1);
      OneMoreOccurrence(first, last, x.day);
      OneMoreCell(cells, day);
      if x.day == day {
        PriceGrows(rooms, Occurrences(first, last - 1, x.day), x.seconds, Bucket(SecondEntries(cells[..n]), day));
      }
    }
  }

  lemma NoCells(rooms: nat, first: Date, last: Date)
    ensures Total(PricedCells([], rooms, first, last)) == 0 == Total(PricedCells([], rooms, first, last - 1))
    ensures Bucket(SecondEntries([]), WeekdayOf(last)) == 0
  {
  }

  lemma Distributes(rooms: nat, x: int, y: int)
    ensures rooms * (x + y) == rooms * x + rooms * y
  {
  }

  // Counting weekday occurrences and walking the calendar are the same double sum.
  lemma {:induction false} WalksAgree(cells: seq<Cell>, rooms: nat, first: Date, last: Date)
    ensures Total(PricedCells(cells, rooms, first, last)) == rooms * ShapeOf(cells, first, last).cellSeconds
    decreases last - first
  {
    hide ShapeOf;
    hide Bucket;
    hide PricedCells;
    if last < first {
      NoDatesNoPrice(cells, rooms, first, last);
      EmptyShape(cells, first, last);
    } else {
      WalksAgree(cells, rooms, first, last - 1);
      OneMoreDate(cells, rooms, first, last);
      OneMoreDay(cells, first, last);
      Distributes(
        rooms, ShapeOf(cells, first, last - 1).cellSeconds, Bucket(SecondEntries(cells), WeekdayOf(last)));
    }
  }

  // The range ends with its last day, or earlier with the day the report is as of.
  lemma LastDayIsTheCut(end: Date, asOf: Option<Date>, d: Date)
    ensures d <= LastDay(end, asOf) <==> d <= end && (asOf.Some? ==> d <= asOf.value)
  {
  }

  function TeachingDates(cells: seq<Cell>, first: Date, last: Date): set<Date> {
    set d | first <= d <= last && Teaching(cells, WeekdayOf(d))
  }

  // Teaching days are the dates of the range on which the timetable has a cell.
  lemma {:induction false} TeachingDaysAreDates(cells: seq<Cell>, first: Date, last: Date)
    ensures ShapeOf(cells, first, last).teachingDays == |TeachingDates(cells, first, last)|
    decreases last - first
  {
    hide Teaching;
    hide WeekdayOf;
    if last < first {
      EmptyShape(cells, first, last);
      assert TeachingDates(cells, first, last) == {};
    } else {
      TeachingDaysAreDates(cells, first, last - 1);
      OneMoreDay(cells, first, last);
      TeachingDatesGrow(cells, first, last);
      hide ShapeOf;
      hide TeachingDates;
    }
  }

  lemma TeachingDatesGrow(cells: seq<Cell>, first: Date, last: Date)
    requires first <= last
    ensures last !in TeachingDates(cells, first, last - 1)
    ensures TeachingDates(cells, first, last)
      == TeachingDates(cells, first, last - 1) + if Teaching(cells, WeekdayOf(last)) then {last} else {}
  {
    hide Teaching;
    hide WeekdayOf;
  }

  // How often all cells come up: each as often as its weekday does.
  function Comings(cells: seq<Cell>, first: Date, last: Date): nat {
    if cells == [] then 0
    else Comings(cells[..|cells| - 1], first, last) + |DatesOn(first, last, cells[|cells| - 1].day)|
  }

  lemma {:induction false} NoDatesNoComings(cells: seq<Cell>, first: Date, last: Date)
    requires last < first
    ensures Comings(cells, first, last) == 0
  {
    if cells != [] {
      NoDatesNoComings(cells[..|cells| - 1], first, last);
      assert DatesOn(first, last, cells[|cells| - 1].day) == {};
    }
  }

  lemma {:induction false} OneMoreComing(cells: seq<Cell>, first: Date, last: Date)
    requires first <= last
    ensures Comings(cells, first, last)
      == Comings(cells, first, last - 1) + Bucket(CountEntries(cells), WeekdayOf(last))
  {
    hide WeekdayOf;
    if cells != [] {
      var n := |cells| - 1;
      OneMoreComing(cells[..n], first, last);
      DatesOnGrow(first, last, cells[n].day);
      hide DatesOn;
    }
  }

  // The cell count of a range is the number of times its cells come up.
  lemma {:induction false} CellsCountedByDate(cells: seq<Cell>, first: Date, last: Date)
    ensures ShapeOf(cells, first, last).cellCount == Comings(cells, first, last)
    decreases last - first
  {
    hide ShapeOf;
    hide Comings;
    if last < first {
      EmptyShape(cells, first, last);
      NoDatesNoComings(cells, first, last);
    } else {
      CellsCountedByDate(cells, first, last - 1);
      OneMoreDay(cells, first, last);
      OneMoreComing(cells, first, last);
    }
  }
}
