/** Row selection: what a filtered and ordered query returns. */
module Queries {
  import opened Sorting
  import opened Wrappers

  // The keys of the rows that satisfy p, in primary-key order.
  function IdsWhere<T>(rows: seq<T>, p: T -> bool): (ids: seq<nat>)
    ensures forall i :: i in ids <==> 0 <= i < |rows| && p(rows[i])
    ensures forall a, b :: 0 <= a < b < |ids| ==> ids[a] < ids[b]
  {
    if rows == [] then
      []
    else
      var n := |rows| - 1;
      var front := IdsWhere(rows[..n], p);
      assert forall a :: 0 <= a < |front| ==> front[a] in front;
      if p(rows[n]) then front + [n] else front
  }

  // 0, 1, ... n - 1
  function UpTo(n: nat): (ids: seq<nat>)
    ensures |ids| == n && forall i :: i in ids <==> 0 <= i < n
  {
    if n == 0 then [] else UpTo(n - 1) + [n - 1]
  }

  // The entries of ids that satisfy p, in their given order.
  function Keep(ids: seq<nat>, p: nat -> bool): (r: seq<nat>)
    ensures forall i :: i in r <==> i in ids && p(i)
    ensures |r| <= |ids|
  {
    if ids == [] then
      []
    else
      var n := |ids| - 1;
      if p(ids[n]) then Keep(ids[..n], p) + [ids[n]] else Keep(ids[..n], p)
  }

  lemma KeepNone(p: nat -> bool)
    ensures Keep([], p) == []
  {
  }

  lemma KeepStep(ids: seq<nat>, n: nat, p: nat -> bool)
    requires n < |ids|
    ensures Keep(ids[..n + 1], p) == if p(ids[n]) then Keep(ids[..n], p) + [ids[n]] else Keep(ids[..n], p)
  {
    assert ids[..n + 1][..n] == ids[..n];
  }

  lemma {:induction false} SameKeep(ids: seq<nat>, p: nat -> bool, q: nat -> bool)
    requires forall i :: i in ids ==> p(i) == q(i)
    ensures Keep(ids, p) == Keep(ids, q)
  {
    if ids != [] {
      SameKeep(ids[..|ids| - 1], p, q);
    }
  }

  // Keeping some entries keeps every relation between earlier and later ones.
  lemma {:induction false} KeepPreserves(ids: seq<nat>, p: nat -> bool, rel: (nat, nat) -> bool)
    requires forall a, b :: 0 <= a < b < |ids| ==> rel(ids[a], ids[b])
    ensures forall a, b :: 0 <= a < b < |Keep(ids, p)| ==> rel(Keep(ids, p)[a], Keep(ids, p)[b])
  {
    if ids != [] {
      var n := |ids| - 1;
      var front := Keep(ids[..n], p);
      KeepPreserves(ids[..n], p, rel);
      forall a | 0 <= a < |front| ensures rel(front[a], ids[n]) {
        assert front[a] in front;
        var j :| 0 <= j < n && ids[..n][j] == front[a];
        assert rel(ids[j], ids[n]);
      }
    }
  }

  lemma KeepLast(ids: seq<nat>, p: nat -> bool)
    requires ids != []
    ensures
      var n := |ids| - 1;
      Keep(ids, p) == if p(ids[n]) then Keep(ids[..n], p) + [ids[n]] else Keep(ids[..n], p)
  {
  }

  // The entry of ids at n keeps its rank among the kept ones.
  lemma {:induction false} KeepAt(ids: seq<nat>, n: nat, p: nat -> bool)
    requires n < |ids| && p(ids[n])
    ensures |Keep(ids[..n], p)| < |Keep(ids, p)| && Keep(ids, p)[|Keep(ids[..n], p)|] == ids[n]
  {
    hide Keep;
    var m := |ids| - 1;
    KeepLast(ids, p);
    if n < m {
      KeepAt(ids[..m], n, p);
      assert ids[..m][..n] == ids[..n];
    }
  }

  // The first entry of ids that satisfies p, if any.
  function First(ids: seq<nat>, p: nat -> bool): (r: Option<nat>)
    ensures r.Some? ==> r.value in ids && p(r.value)
    ensures r.None? ==> forall j :: 0 <= j < |ids| ==> !p(ids[j])
  {
    if ids == [] then None else if p(ids[0]) then Some(ids[0]) else First(ids[1..], p)
  }

  // Which of two keys a query ordered by (major, minor) lists first.
  function ByKeys(major: nat -> int, minor: nat -> int): (nat, nat) -> bool {
    (i: nat, j: nat) => major(i) < major(j) || (major(i) == major(j) && minor(i) < minor(j))
  }

  // ids in ascending (major, minor) order.
  function OrderBy(ids: seq<nat>, major: nat -> int, minor: nat -> int): (r: seq<nat>)
    ensures multiset(r) == multiset(ids)
    ensures forall i :: i in r <==> i in ids
  {
    var r := SortBy(ids, ByKeys(major, minor));
    assert forall i :: i in r <==> i in multiset(r);
    assert forall i :: i in ids <==> i in multiset(ids);
    r
  }

  lemma OrderBySorts(ids: seq<nat>, major: nat -> int, minor: nat -> int)
    ensures InOrder(OrderBy(ids, major, minor), ByKeys(major, minor))
  {
    SortByOrders(ids, ByKeys(major, minor));
  }

  predicate Distinct<T(==)>(ids: seq<T>) {
    forall a, b :: 0 <= a < b < |ids| ==> ids[a] != ids[b]
  }

  lemma OrderByKeepsDistinct(ids: seq<nat>, major: nat -> int, minor: nat -> int)
    requires Distinct(ids)
    ensures Distinct(OrderBy(ids, major, minor))
  {
    var r := OrderBy(ids, major, minor);
    forall a, b | 0 <= a < b < |r| ensures r[a] != r[b] {
      if r[a] == r[b] {
        AppearsTwice(r, a, b);
        AppearsOnce(ids, r[a]);
      }
    }
  }

  lemma AppearsTwice(ids: seq<nat>, a: nat, b: nat)
    requires a < b < |ids| && ids[a] == ids[b]
    ensures multiset(ids)[ids[a]] >= 2
  {
    var front, back := ids[..b], ids[b..];
    assert ids == front + back;
    assert front[a] in front && back[0] in back;
  }

  lemma {:induction false} AppearsOnce(ids: seq<nat>, i: nat)
    requires Distinct(ids)
    ensures multiset(ids)[i] <= 1
  {
    if ids != [] {
      var n := |ids| - 1;
      assert ids == ids[..n] + [ids[n]];
      AppearsOnce(ids[..n], i);
      if i == ids[n] {
        assert i !in ids[..n];
      }
    }
  }

  // The first match of an ordered list is a least one.
  lemma {:induction false} FirstIsLeast(ids: seq<nat>, p: nat -> bool, major: nat -> int, minor: nat -> int)
    requires InOrder(ids, ByKeys(major, minor)) && First(ids, p).Some?
    ensures forall i :: i in ids && p(i) ==> major(First(ids, p).value) <= major(i)
  {
    if !p(ids[0]) {
      FirstIsLeast(ids[1..], p, major, minor);
      assert forall i :: i in ids ==> i == ids[0] || i in ids[1..];
    }
  }

  lemma EmptyOrNot(s: set<int>)
    ensures s == {} || exists d: int :: d in s
  {
    if forall d :: d !in s {
      assert s == {};
    }
  }

  predicate IsLeast(s: set<int>, least: int) {
    least in s && forall d: int :: d in s ==> least <= d
  }

  lemma {:induction false} HasLeast(s: set<int>)
    requires s != {}
    ensures exists least: int :: IsLeast(s, least)
  {
    EmptyOrNot(s);
    var x :| x in s;
    if s == {x} {
      assert IsLeast(s, x);
    } else {
      HasLeast(s - {x});
      var other: int :| IsLeast(s - {x}, other);
      var least := if other < x then other else x;
      forall d: int | d in s ensures least <= d {
        assert d == x || d in s - {x};
      }
      assert IsLeast(s, least);
    }
  }

  // Python's sorted() of a set.
  function Sorted(s: set<int>): (r: seq<int>)
    ensures forall i: int :: i in r <==> i in s
    ensures forall k :: 0 <= k < |r| ==> r[k] in s
    ensures forall a, b :: 0 <= a < b < |r| ==> r[a] < r[b]
  {
    if s == {} then
      []
    else
      var rest := Sorted(s - {Least(s)});
      assert forall k :: 0 <= k < |rest| ==> rest[k] in rest;
      [Least(s)] + rest
  }

  function Least(s: set<int>): (least: int)
    requires s != {}
    ensures least in s && forall i: int :: i in s ==> least <= i
  {
    HasLeast(s);
    var least: int :| IsLeast(s, least);
    least
  }

  lemma HeadIsMember(ids: seq<nat>)
    ensures ids == [] || ids[0] in ids
  {
  }
}
