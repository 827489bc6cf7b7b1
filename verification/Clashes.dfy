/** When two occupants want one room at one time. */
module Clashes {
  import opened Availability
  import opened Tables

  // Two different sessions hold one room at one time.
  predicate Clash(c: Campus, ss: seq<Session>, p: Id, q: Id)
    requires SessionsLinked(c, ss)
  {
    p < |ss| && q < |ss| && p != q && HoldsRoom(c, ss[p])
    && SessionIn(c, ss[q], ss[p].room, ss[p].start, ss[p].end)
  }

  predicate BookingClash(c: Campus, ss: seq<Session>, p: Id)
    requires SessionsLinked(c, ss)
  {
    p < |ss| && HoldsRoom(c, ss[p]) && BookingOccupies(c, ss[p].room, ss[p].start, ss[p].end)
  }

  ghost predicate Unclashed(c: Campus, ss: seq<Session>, p: Id)
    requires SessionsLinked(c, ss)
  {
    !BookingClash(c, ss, p) && forall q: Id :: !Clash(c, ss, p, q) && !Clash(c, ss, q, p)
  }

  // Every clash of tt was already a clash of ss.
  ghost predicate NoNewClash(c: Campus, ss: seq<Session>, tt: seq<Session>)
    requires SessionsLinked(c, ss) && SessionsLinked(c, tt)
  {
    && (forall p: Id, q: Id :: Clash(c, tt, p, q) ==> Clash(c, ss, p, q))
    && (forall p: Id :: BookingClash(c, tt, p) ==> BookingClash(c, ss, p))
  }

  lemma NoNewClashReflexive(c: Campus, ss: seq<Session>)
    requires SessionsLinked(c, ss)
    ensures NoNewClash(c, ss, ss)
  {
  }

  lemma NoNewClashTransitive(c: Campus, ss: seq<Session>, mid: seq<Session>, tt: seq<Session>)
    requires SessionsLinked(c, ss) && SessionsLinked(c, mid) && SessionsLinked(c, tt)
    requires NoNewClash(c, ss, mid) && NoNewClash(c, mid, tt)
    ensures NoNewClash(c, ss, tt)
  {
  }
}
