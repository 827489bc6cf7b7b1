/** The table of room-conflict flags: one open flag per room that two running classes hold. */
module ConflictFlags {
  import opened Calendar
  import opened Jobs
  import opened Queries
  import opened Tables
  import opened Wrappers

  datatype Flag = Flag(room: Id, resolved: Option<Instant>)

  /* Who is in conflict */

  predicate Holder(c: Campus, term: Id, room: Id, s: Session) {
    && s.status.Active? && s.released.None? && s.room == room
    && s.schedule < |c.schedules| && c.schedules[s.schedule].term == term
  }

  predicate Conflicted(c: Campus, ss: seq<Session>, term: Id, room: Id) {
    |IdsWhere(ss, (s: Session) => Holder(c, term, room, s))| > 1
  }

  lemma ConflictedIffTwoHolders(c: Campus, ss: seq<Session>, term: Id, room: Id)
    ensures Conflicted(c, ss, term, room) <==>
      exists p, q :: 0 <= p < q < |ss| && Holder(c, term, room, ss[p]) && Holder(c, term, room, ss[q])
    ensures forall s :: Holder(c, term, room, s) <==>
      && s.status == Active && s.room == room && s.released == None
      && s.schedule < |c.schedules| && c.schedules[s.schedule].term == term
  {
    var ids := IdsWhere(ss, (s: Session) => Holder(c, term, room, s));
    if |ids| > 1 {
      assert ids[0] in ids && ids[1] in ids && ids[0] < ids[1];
    }
    if p, q :| 0 <= p < q < |ss| && Holder(c, term, room, ss[p]) && Holder(c, term, room, ss[q]) {
      assert p in ids && q in ids;
    }
  }

  function ConflictedRooms(c: Campus, ss: seq<Session>, term: Id): (rooms: seq<Id>)
    ensures forall r: Id :: r in rooms <==> r < |c.rooms| && Conflicted(c, ss, term, r)
    ensures Keys(rooms, |c.rooms|)
  {
    var rooms := Keep(UpTo(|c.rooms|), (r: Id) => Conflicted(c, ss, term, r));
    assert forall j :: 0 <= j < |rooms| ==> rooms[j] in rooms;
    rooms
  }

  /* One run over the table */

  predicate HasOpen(flags: seq<Flag>, room: Id) {
    exists i :: 0 <= i < |flags| && flags[i] == Flag(room, None)
  }

  function Resolve(flags: seq<Flag>, current: seq<Id>, now: Instant): (r: seq<Flag>)
    ensures |r| == |flags|
  {
    seq(|flags|, i requires 0 <= i < |flags| =>
      if flags[i].resolved.None? && flags[i].room !in current then flags[i].(resolved := Some(now)) else flags[i])
  }

  function Raise(flags: seq<Flag>, rooms: seq<Id>): seq<Flag> {
    if rooms == [] then
      flags
    else
      var before := Raise(flags, rooms[..|rooms| - 1]);
      var room := rooms[|rooms| - 1];
      if HasOpen(before, room) then before else before + [Flag(room, None)]
  }

  function Detect(flags: seq<Flag>, current: seq<Id>, now: Instant): seq<Flag> {
    Raise(Resolve(flags, current, now), current)
  }

  // collected holds, in order, the floors of the rooms of the flags from index start on.
  predicate FloorsRaised(c: Campus, flags: seq<Flag>, start: nat, collected: seq<Id>) {
    && |flags| == start + |collected|
    && forall k :: start <= k < |flags| ==>
         flags[k].room < |c.rooms| && collected[k - start] == c.rooms[flags[k].room].floor
  }

  class FlagTable {
    var flags: seq<Flag>

    constructor ()
      ensures flags == []
    {
      flags := [];
    }

    // Stamp every open flag whose conflict has cleared.
    method ResolveCleared(current: seq<Id>, now: Instant)
      modifies this
      ensures flags == Resolve(old(flags), current, now)
    {
      for i := 0 to |flags|
        invariant |flags| == |old(flags)|
        invariant forall j :: 0 <= j < i ==> flags[j] == Resolve(old(flags), current, now)[j]
        invariant forall j :: i <= j < |flags| ==> flags[j] == old(flags)[j]
      {
        var flag := flags[i];
        if flag.resolved.None? && flag.room !in current {
          flags := flags[i := flag.(resolved := Some(now))];
        }
      }
    }

    method DetectRoomConflicts(c: Campus, ss: seq<Session>, now: Instant) returns (flagged: nat, collected: seq<Id>)
      requires Linked(c)
      modifies this
      ensures ActiveTerm(c).None? ==> flagged == 0 && collected == [] && flags == old(flags)
      ensures ActiveTerm(c).Some? ==>
        var current := ConflictedRooms(c, ss, ActiveTerm(c).value);
        && flags == Detect(old(flags), current, now)
        && flagged == |flags| - |old(flags)|
        && FloorsRaised(c, flags, |old(flags)|, collected)
    {
      hide ConflictedRooms;
      hide Resolve;
      hide ActiveTerm;
      flagged, collected := 0, [];
      var term := ActiveTerm(c);
      if term.None? {
        return;
      }
      var current := ConflictedRooms(c, ss, term.value);
      ghost var before := flags;
      ResolveCleared(current, now);
      ghost var resolved := flags;
      assert current[..0] == [];
      for n := 0 to |current|
        invariant flags == Raise(resolved, current[..n])
        invariant flagged == |flags| - |before|
        invariant FloorsRaised(c, flags, |before|, collected)
      {
        assert current[..n + 1][..n] == current[..n];
        var room := current[n];
        if HasOpen(flags, room) {
          continue;
        }
        flags := flags + [Flag(room, None)];
        flagged := flagged + 1;
        collected := collected + [c.rooms[room].floor];
      }
      assert current[..|current|] == current;
    }
  }

  /* The table is an exact index of the conflicts */

  function OpenCount(flags: seq<Flag>, room: Id): nat {
    if flags == [] then 0
    else OpenCount(flags[..|flags| - 1], room) + if flags[|flags| - 1] == Flag(room, None) then 1 else 0
  }

  // Every flag ever raised for the room, open or resolved.
  function RaisedCount(flags: seq<Flag>, room: Id): nat {
    if flags == [] then 0
    else RaisedCount(flags[..|flags| - 1], room) + if flags[|flags| - 1].room == room then 1 else 0
  }

  lemma {:induction false} OpenIffCounted(flags: seq<Flag>, room: Id)
    ensures HasOpen(flags, room) <==> OpenCount(flags, room) > 0
  {
    if flags != [] {
      var n := |flags| - 1;
      OpenIffCounted(flags[..n], room);
      if i :| 0 <= i < |flags| && flags[i] == Flag(room, None) {
        assert i < n ==> flags[..n][i] == Flag(room, None);
      }
    }
  }

  lemma {:induction false} ResolveCounts(flags: seq<Flag>, current: seq<Id>, now: Instant, room: Id)
    ensures OpenCount(Resolve(flags, current, now), room) == if room in current then OpenCount(flags, room) else 0
    ensures RaisedCount(Resolve(flags, current, now), room) == RaisedCount(flags, room)
  {
    if flags != [] {
      var n := |flags| - 1;
      ResolveCounts(flags[..n], current, now, room);
      assert Resolve(flags, current, now)[..n] == Resolve(flags[..n], current, now);
    }
  }

  lemma {:induction false} RaiseCounts(flags: seq<Flag>, rooms: seq<Id>, room: Id)
    ensures
      var added := if room in rooms && OpenCount(flags, room) == 0 then 1 else 0;
      && OpenCount(Raise(flags, rooms), room) == OpenCount(flags, room) + added
      && RaisedCount(Raise(flags, rooms), room) == RaisedCount(flags, room) + added
  {
    if rooms != [] {
      var n := |rooms| - 1;
      RaiseCounts(flags, rooms[..n], room);
      var before := Raise(flags, rooms[..n]);
      OpenIffCounted(before, rooms[n]);
      assert rooms == rooms[..n] + [rooms[n]];
      assert (before + [Flag(rooms[n], None)])[..|before|] == before;
    }
  }

  // Exactly one open flag per room in conflict and none for any other room, given that no room
  // had two open ones, which the table's unique constraint says.
  lemma FlagsIndexConflicts(flags: seq<Flag>, current: seq<Id>, now: Instant, room: Id)
    requires OpenCount(flags, room) <= 1
    ensures OpenCount(Detect(flags, current, now), room) == if room in current then 1 else 0
    ensures RaisedCount(Detect(flags, current, now), room)
         == RaisedCount(flags, room) + if room in current && OpenCount(flags, room) == 0 then 1 else 0
  {
    ResolveCounts(flags, current, now, room);
    RaiseCounts(Resolve(flags, current, now), current, room);
  }

  /* Over a run of sweeps */

  // The table after the sweeps that saw seen[0], seen[1], ... at times at[0], at[1], ...
  function Sweeps(seen: seq<seq<Id>>, at: seq<Instant>): seq<Flag>
    requires |seen| == |at|
  {
    if seen == [] then []
    else Detect(Sweeps(seen[..|seen| - 1], at[..|at| - 1]), seen[|seen| - 1], at[|at| - 1])
  }

  // Maximal stretches of consecutive sweeps that see the room in conflict.
  function Stretches(seen: seq<seq<Id>>, room: Id): nat {
    if seen == [] then 0
    else Stretches(seen[..|seen| - 1], room)
         + if room in seen[|seen| - 1] && (|seen| == 1 || room !in seen[|seen| - 2]) then 1 else 0
  }

  lemma {:induction false} OneFlagPerStretch(seen: seq<seq<Id>>, at: seq<Instant>, room: Id)
    requires |seen| == |at|
    ensures RaisedCount(Sweeps(seen, at), room) == Stretches(seen, room)
    ensures OpenCount(Sweeps(seen, at), room) == if seen != [] && room in seen[|seen| - 1] then 1 else 0
  {
    if seen != [] {
      var n := |seen| - 1;
      OneFlagPerStretch(seen[..n], at[..n], room);
      FlagsIndexConflicts(Sweeps(seen[..n], at[..n]), seen[n], at[n], room);
    }
  }

  lemma {:induction false} RaiseAppends(flags: seq<Flag>, rooms: seq<Id>)
    ensures flags <= Raise(flags, rooms)
    ensures forall i :: |flags| <= i < |Raise(flags, rooms)| ==>
      Raise(flags, rooms)[i].resolved.None? && Raise(flags, rooms)[i].room in rooms
  {
    if rooms != [] {
      RaiseAppends(flags, rooms[..|rooms| - 1]);
    }
  }

  // A sweep stamps the open flags whose conflict has cleared, with its own time, and touches no
  // other flag that was there; what it adds is open and of a room in conflict.
  lemma SweepTouchesOnlyCleared(flags: seq<Flag>, current: seq<Id>, now: Instant)
    ensures
      var r := Detect(flags, current, now);
      && |flags| <= |r|
      && (forall i :: 0 <= i < |flags| ==>
            if flags[i].resolved.None? && flags[i].room !in current then r[i] == Flag(flags[i].room, Some(now))
            else r[i] == flags[i])
      && forall i :: |flags| <= i < |r| ==> r[i].resolved.None? && r[i].room in current
  {
    RaiseAppends(Resolve(flags, current, now), current);
  }

  // A resolved flag is history, whatever later sweeps see.
  lemma {:induction false} ResolvedFlagsAreFinal(seen: seq<seq<Id>>, at: seq<Instant>, n: nat, i: nat)
    requires |seen| == |at| && n <= |seen|
    requires i < |Sweeps(seen[..n], at[..n])| && Sweeps(seen[..n], at[..n])[i].resolved.Some?
    ensures i < |Sweeps(seen, at)| && Sweeps(seen, at)[i] == Sweeps(seen[..n], at[..n])[i]
  {
    hide Detect;
    if n == |seen| {
      assert seen[..n] == seen && at[..n] == at;
    } else {
      var m := |seen| - 1;
      assert seen[..m][..n] == seen[..n] && at[..m][..n] == at[..n];
      ResolvedFlagsAreFinal(seen[..m], at[..m], n, i);
      SweepTouchesOnlyCleared(Sweeps(seen[..m], at[..m]), seen[m], at[m]);
    }
  }
}
