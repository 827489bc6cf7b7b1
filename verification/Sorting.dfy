/** One stable insertion sort for every list the program sorts. */
module Sorting {

  function Insert<T(==)>(x: T, xs: seq<T>, before: (T, T) -> bool): (r: seq<T>)
    ensures multiset(r) == multiset(xs) + multiset{x}
    ensures |r| == |xs| + 1
  {
    if xs == [] || before(x, xs[0]) then
      [x] + xs
    else
      assert xs == [xs[0]] + xs[1..];
      [xs[0]] + Insert(x, xs[1..], before)
  }

  function SortBy<T(==)>(xs: seq<T>, before: (T, T) -> bool): (r: seq<T>)
    ensures multiset(r) == multiset(xs)
    ensures |r| == |xs|
  {
    if xs == [] then
      []
    else
      var n := |xs| - 1;
      assert xs == xs[..n] + [xs[n]];
      Insert(xs[n], SortBy(xs[..n], before), before)
  }

  // No later entry comes before an earlier one.
  predicate InOrder<T>(xs: seq<T>, before: (T, T) -> bool) {
    forall a, b :: 0 <= a < b < |xs| ==> !before(xs[b], xs[a])
  }

  // before is a strict order up to ties.
  ghost predicate Orders<T(!new)>(before: (T, T) -> bool) {
    && (forall x, y :: before(x, y) ==> !before(y, x))
    && (forall x, y, z :: !before(y, x) && !before(z, y) ==> !before(z, x))
  }

  lemma InsertMembers<T>(x: T, xs: seq<T>, before: (T, T) -> bool, y: T)
    ensures y in Insert(x, xs, before) <==> y == x || y in xs
  {
    var r := Insert(x, xs, before);
    assert y in r <==> y in multiset(r);
    assert y in xs <==> y in multiset(xs);
  }

  lemma SortMembers<T>(xs: seq<T>, before: (T, T) -> bool, y: T)
    ensures y in SortBy(xs, before) <==> y in xs
  {
    assert y in SortBy(xs, before) <==> y in multiset(SortBy(xs, before));
    assert y in xs <==> y in multiset(xs);
  }

  lemma {:induction false} InsertKeepsOrder<T(!new)>(x: T, xs: seq<T>, before: (T, T) -> bool)
    requires Orders(before) && InOrder(xs, before)
    ensures InOrder(Insert(x, xs, before), before)
  {
    if xs == [] {
    } else if before(x, xs[0]) {
      HeadComesFirst(x, xs, before);
    } else {
      InsertKeepsOrder(x, xs[1..], before);
      NothingBeforeHead(x, xs, before);
    }
  }

  lemma HeadComesFirst<T(!new)>(x: T, xs: seq<T>, before: (T, T) -> bool)
    requires Orders(before) && InOrder(xs, before) && xs != [] && before(x, xs[0])
    ensures InOrder([x] + xs, before)
  {
    forall b | 0 <= b < |xs| ensures !before(xs[b], x) {
      assert !before(xs[0], x);
      assert b > 0 ==> !before(xs[b], xs[0]);
    }
  }

  lemma NothingBeforeHead<T(!new)>(x: T, xs: seq<T>, before: (T, T) -> bool)
    requires InOrder(xs, before) && xs != [] && !before(x, xs[0])
    requires InOrder(Insert(x, xs[1..], before), before)
    ensures InOrder([xs[0]] + Insert(x, xs[1..], before), before)
  {
    var rest := Insert(x, xs[1..], before);
    forall b | 0 <= b < |rest| ensures !before(rest[b], xs[0]) {
      InsertMembers(x, xs[1..], before, rest[b]);
      assert rest[b] in rest;
      if rest[b] != x {
        var k :| 0 <= k < |xs[1..]| && xs[1..][k] == rest[b];
        assert rest[b] == xs[k + 1];
      }
    }
  }

  lemma {:induction false} SortByOrders<T(!new)>(xs: seq<T>, before: (T, T) -> bool)
    requires Orders(before)
    ensures InOrder(SortBy(xs, before), before)
  {
    if xs != [] {
      var n := |xs| - 1;
      SortByOrders(xs[..n], before);
      InsertKeepsOrder(xs[n], SortBy(xs[..n], before), before);
    }
  }
}
