/** Stepping a slot of fixed length across an interval. */
module Slots {
  import opened Calendar

  // The slots of the given length that pass ok, stepping from cursor until one would end after close.
  function Stepped(cursor: Instant, close: Instant, length: int, ok: (Instant, Instant) -> bool): seq<(Instant, Instant)>
    requires 0 < length
    decreases close - cursor
  {
    if close < cursor + length then
      []
    else
      (if ok(cursor, cursor + length) then [(cursor, cursor + length)] else [])
      + Stepped(cursor + length, close, length, ok)
  }

  // What a search that has found slots so far, and stands at cursor, still comes to.
  function Found(
    slots: seq<(Instant, Instant)>, cursor: Instant, close: Instant, length: int, ok: (Instant, Instant) -> bool)
    : seq<(Instant, Instant)>
    requires 0 < length
  {
    slots + Stepped(cursor, close, length, ok)
  }

  lemma FoundStep(
    slots: seq<(Instant, Instant)>, cursor: Instant, close: Instant, length: int, ok: (Instant, Instant) -> bool)
    requires 0 < length
    ensures Found(slots, cursor, close, length, ok)
      == if close < cursor + length then slots
         else if ok(cursor, cursor + length)
         then Found(slots + [(cursor, cursor + length)], cursor + length, close, length, ok)
         else Found(slots, cursor + length, close, length, ok)
  {
    if cursor + length <= close {
      var head, rest := (cursor, cursor + length), Stepped(cursor + length, close, length, ok);
      assert slots + ([head] + rest) == (slots + [head]) + rest;
      assert slots + ([] + rest) == slots + rest;
    }
  }

  // t is reached from cursor by whole steps of length.
  predicate OnGrid(cursor: Instant, length: int, t: Instant)
    requires 0 < length
    decreases t - cursor
  {
    t == cursor || (cursor < t && OnGrid(cursor + length, length, t))
  }

  lemma {:induction false} SteppedIsExact(
    cursor: Instant, close: Instant, length: int, ok: (Instant, Instant) -> bool, x: (Instant, Instant))
    requires 0 < length
    ensures x in Stepped(cursor, close, length, ok) <==>
      cursor <= x.0 && OnGrid(cursor, length, x.0) && x.1 == x.0 + length && x.1 <= close && ok(x.0, x.1)
    decreases close - cursor
  {
    if cursor + length <= close {
      SteppedIsExact(cursor + length, close, length, ok, x);
      assert OnGrid(cursor + length, length, x.0) ==> cursor + length <= x.0;
    }
  }

  // Slots that start no earlier than from, each ending before the next one starts.
  predicate InSuccession(slots: seq<(Instant, Instant)>, from: Instant) {
    && (forall a :: 0 <= a < |slots| ==> from <= slots[a].0)
    && (forall a, b :: 0 <= a < b < |slots| ==> slots[a].1 <= slots[b].0)
  }

  lemma {:induction false} SteppedIsDisjoint(
    cursor: Instant, close: Instant, length: int, ok: (Instant, Instant) -> bool)
    requires 0 < length
    ensures InSuccession(Stepped(cursor, close, length, ok), cursor)
    decreases close - cursor
  {
    if cursor + length <= close {
      var next := cursor + length;
      SteppedIsDisjoint(next, close, length, ok);
      SlotBefore((cursor, next), Stepped(next, close, length, ok), ok(cursor, next));
    }
  }

  // Slots in succession stay so with one more put before them, or none.
  lemma SlotBefore(slot: (Instant, Instant), rest: seq<(Instant, Instant)>, kept: bool)
    requires slot.0 < slot.1 && InSuccession(rest, slot.1)
    ensures InSuccession((if kept then [slot] else []) + rest, slot.0)
  {
    var all := (if kept then [slot] else []) + rest;
    forall a | 0 <= a < |all| ensures all[a] == slot || (exists b :: 0 <= b < |rest| && all[a] == rest[b]) {
      assert kept && a > 0 ==> all[a] == rest[a - 1];
    }
  }
}
