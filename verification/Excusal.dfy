/** Which (date, building) pairs are excused from attendance: breaks and active suspensions. */
module Excusal {
  import opened Calendar
  import opened Tables

  predicate Covers(s: Suspension, d: Date, building: Id) {
    && s.lifted.None?
    && s.start <= d <= s.end
    && (s.building.None? || s.building.value == building)
  }

  predicate Excused(c: Campus, term: Id, d: Date, building: Id) {
    || (exists b :: b in c.breaks && b.term == term && b.start <= d <= b.end)
    || (exists s :: s in c.suspensions && s.term == term && Covers(s, d, building))
  }

  // A session is excused by where and when it really meets: its own room and date.
  predicate SessionExcused(c: Campus, s: Session)
    requires Linked(c) && s.schedule < |c.schedules| && s.room < |c.rooms|
  {
    Excused(c, c.schedules[s.schedule].term, s.date, BuildingOf(c, s.room))
  }

  // A break alone excuses its own term, in every building, from its first date to its last.
  lemma BreakExcusesEveryBuilding(c: Campus, b: AcademicBreak, term: Id, d: Date, building: Id)
    ensures Excused(c.(breaks := [b], suspensions := []), term, d, building) <==>
      b.term == term && b.start <= d && d <= b.end
  {
    var alone := c.(breaks := [b], suspensions := []);
    assert b in alone.breaks;
  }
}
