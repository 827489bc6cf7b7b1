/** Round robin inside groups: keys that share a pool take the pool's seats in turn. */
module RoundRobin {
  import opened Queries
  import opened Wrappers

  // ids[k] goes to seat k mod |seats|; nobody gets anything when there are no seats.
  function DealOut(ids: seq<nat>, seats: seq<nat>): (m: map<nat, nat>)
    ensures seats == [] ==> m == map[]
    ensures seats != [] ==> forall i :: i in m <==> i in ids
  {
    if ids == [] || seats == [] then
      map[]
    else
      var k := |ids| - 1;
      DealOut(ids[..k], seats)[ids[k] := seats[k % |seats|]]
  }

  lemma {:induction false} DealOutAt(ids: seq<nat>, seats: seq<nat>, k: nat)
    requires Distinct(ids) && seats != [] && k < |ids|
    ensures ids[k] in DealOut(ids, seats) && DealOut(ids, seats)[ids[k]] == seats[k % |seats|]
  {
    var m := |ids| - 1;
    if k < m {
      DealOutAt(ids[..m], seats, k);
    }
  }

  function InPool(pool: nat -> seq<nat>, e: seq<nat>): nat -> bool {
    (i: nat) => pool(i) == e
  }

  // The keys with pool e, in order.
  function Members(ids: seq<nat>, pool: nat -> seq<nat>, e: seq<nat>): seq<nat> {
    Keep(ids, InPool(pool, e))
  }

  // Who ids[n] goes to: the seat its rank among the keys of the same pool falls on.
  function Owner(ids: seq<nat>, pool: nat -> seq<nat>, n: nat): (r: Option<nat>)
    requires n < |ids|
    ensures r.None? <==> pool(ids[n]) == []
    ensures r.Some? ==> r.value in pool(ids[n])
  {
    var e := pool(ids[n]);
    if e == [] then None else Some(e[|Members(ids[..n], pool, e)| % |e|])
  }

  lemma KeepsDistinct(ids: seq<nat>, p: nat -> bool)
    requires Distinct(ids)
    ensures Distinct(Keep(ids, p))
  {
    KeepPreserves(ids, p, (a: nat, b: nat) => a != b);
  }

  // Distributing one pool's keys over its seats gives each of them its owner.
  lemma DealOutGivesOwner(ids: seq<nat>, pool: nat -> seq<nat>, n: nat)
    requires Distinct(ids) && n < |ids| && pool(ids[n]) != []
    ensures
      var m := DealOut(Members(ids, pool, pool(ids[n])), pool(ids[n]));
      ids[n] in m && Some(m[ids[n]]) == Owner(ids, pool, n)
  {
    var e := pool(ids[n]);
    KeepsDistinct(ids, InPool(pool, e));
    KeepAt(ids, n, InPool(pool, e));
    DealOutAt(Members(ids, pool, e), e, |Members(ids[..n], pool, e)|);
  }

  /* The two passes: group by pool, then distribute group by group */

  // groups maps every pool seen so far to the keys that have it, in order.
  ghost predicate Grouped(ids: seq<nat>, pool: nat -> seq<nat>, order: seq<seq<nat>>, groups: map<seq<nat>, seq<nat>>) {
    && (forall e :: e in groups <==> e in order)
    && (forall n :: 0 <= n < |ids| ==> pool(ids[n]) in groups)
    && (forall e :: e in groups ==> groups[e] == Members(ids, pool, e))
  }

  lemma MembersStep(ids: seq<nat>, pool: nat -> seq<nat>, n: nat, e: seq<nat>)
    requires n < |ids|
    ensures Members(ids[..n + 1], pool, e)
      == if e == pool(ids[n]) then Members(ids[..n], pool, e) + [ids[n]] else Members(ids[..n], pool, e)
  {
    KeepStep(ids, n, InPool(pool, e));
  }

  lemma NoMembers(ids: seq<nat>, pool: nat -> seq<nat>, e: seq<nat>)
    requires forall n :: 0 <= n < |ids| ==> pool(ids[n]) != e
    ensures Members(ids, pool, e) == []
  {
    HeadIsMember(Members(ids, pool, e));
  }

  // groups.setdefault(e, []).append(i)
  function AppendTo(groups: map<seq<nat>, seq<nat>>, e: seq<nat>, i: nat): map<seq<nat>, seq<nat>> {
    groups[e := (if e in groups then groups[e] else []) + [i]]
  }

  lemma GroupStart(ids: seq<nat>, pool: nat -> seq<nat>)
    ensures Grouped(ids[..0], pool, [], map[])
  {
  }

  lemma GroupStep(
    ids: seq<nat>, pool: nat -> seq<nat>, n: nat, order: seq<seq<nat>>, groups: map<seq<nat>, seq<nat>>)
    requires n < |ids| && Grouped(ids[..n], pool, order, groups)
    ensures
      var e := pool(ids[n]);
      Grouped(ids[..n + 1], pool, if e in groups then order else order + [e], AppendTo(groups, e, ids[n]))
  {
    hide Members;
    var e := pool(ids[n]);
    var after := AppendTo(groups, e, ids[n]);
    assert ids[..n + 1] == ids[..n] + [ids[n]];
    if e !in groups {
      NoMembers(ids[..n], pool, e);
    }
    forall f | f in after ensures after[f] == Members(ids[..n + 1], pool, f) {
      MembersStep(ids, pool, n, f);
    }
  }

  method GroupByPool(ids: seq<nat>, pool: nat -> seq<nat>)
    returns (order: seq<seq<nat>>, groups: map<seq<nat>, seq<nat>>)
    ensures Grouped(ids, pool, order, groups)
  {
    order, groups := [], map[];
    GroupStart(ids, pool);
    hide Grouped;
    for n := 0 to |ids|
      invariant Grouped(ids[..n], pool, order, groups)
    {
      var e := pool(ids[n]);
      GroupStep(ids, pool, n, order, groups);
      order := if e in groups then order else order + [e];
      groups := AppendTo(groups, e, ids[n]);
    }
    assert ids[..|ids|] == ids;
  }

  function Lookup(m: map<nat, nat>, i: nat): Option<nat> {
    if i in m then Some(m[i]) else None
  }

  // mapping holds exactly the keys whose nonempty pool is among seen, each with its owner.
  predicate Mapped(ids: seq<nat>, pool: nat -> seq<nat>, seen: seq<seq<nat>>, mapping: map<nat, nat>) {
    forall n :: 0 <= n < |ids| ==>
      Lookup(mapping, ids[n]) == if pool(ids[n]) in seen then Owner(ids, pool, n) else None
  }

  lemma MapStep(ids: seq<nat>, pool: nat -> seq<nat>, seen: seq<seq<nat>>, mapping: map<nat, nat>, e: seq<nat>)
    requires Distinct(ids) && Mapped(ids, pool, seen, mapping)
    ensures Mapped(ids, pool, seen + [e], mapping + DealOut(Members(ids, pool, e), e))
  {
    hide Owner;
    hide DealOut;
    hide Members;
    var share := DealOut(Members(ids, pool, e), e);
    forall n | 0 <= n < |ids|
      ensures Lookup(mapping + share, ids[n]) == if pool(ids[n]) in seen + [e] then Owner(ids, pool, n) else None
    {
      if pool(ids[n]) == e && e != [] {
        DealOutGivesOwner(ids, pool, n);
      } else {
        MembersHavePool(ids, pool, e);
        assert ids[n] !in share;
      }
    }
  }

  lemma MembersHavePool(ids: seq<nat>, pool: nat -> seq<nat>, e: seq<nat>)
    ensures forall i :: i in Members(ids, pool, e) <==> i in ids && pool(i) == e
  {
  }

  method MapOwners(ids: seq<nat>, pool: nat -> seq<nat>, order: seq<seq<nat>>, groups: map<seq<nat>, seq<nat>>)
    returns (mapping: map<nat, nat>)
    requires Distinct(ids) && Grouped(ids, pool, order, groups)
    ensures forall n :: 0 <= n < |ids| ==> Lookup(mapping, ids[n]) == Owner(ids, pool, n)
  {
    hide Owner;
    hide DealOut;
    hide Members;
    mapping := map[];
    for g := 0 to |order|
      invariant Mapped(ids, pool, order[..g], mapping)
    {
      var e := order[g];
      MapStep(ids, pool, order[..g], mapping, e);
      assert order[..g + 1] == order[..g] + [e];
      if e == [] {
        assert mapping + map[] == mapping;
        continue;
      }
      mapping := mapping + DealOut(groups[e], e);
    }
    assert order[..|order|] == order;
  }

  /* The shares are even */

  // How many of the first n turns fall to seat a of w.
  function Turns(n: nat, w: nat, a: nat): nat
    requires a < w
  {
    if n == 0 then 0 else Turns(n - 1, w, a) + if (n - 1) % w == a then 1 else 0
  }

  lemma {:induction false} TurnsAreEven(n: nat, w: nat, a: nat)
    requires a < w
    ensures Turns(n, w, a) == n / w + if a < n % w then 1 else 0
  {
    if n > 0 {
      TurnsAreEven(n - 1, w, a);
      NextTurn(n - 1, w);
    }
  }

  lemma NextTurn(n: nat, w: nat)
    requires w > 0
    ensures if n % w == w - 1 then n + 1 == (n / w + 1) * w else n + 1 == n / w * w + n % w + 1
    ensures (n + 1) / w == if n % w == w - 1 then n / w + 1 else n / w
    ensures (n + 1) % w == if n % w == w - 1 then 0 else n % w + 1
  {
    var q, r := n / w, n % w;
    if r == w - 1 {
      DivMod(n + 1, w, q + 1, 0);
    } else {
      DivMod(n + 1, w, q, r + 1);
    }
  }

  // Division with remainder is unique.
  lemma DivMod(n: nat, w: nat, q: nat, r: nat)
    requires w > 0 && n == q * w + r && r < w
    ensures n / w == q && n % w == r
  {
    assert (q - n / w) * w == n % w - r;
    if q != n / w {
      AtLeastOne(q - n / w, w);
    }
  }

  lemma AtLeastOne(d: int, w: int)
    requires d != 0 && w > 0
    ensures d * w >= w || d * w <= 0 - w
  {
    if d > 0 {
      assert (d - 1) * w >= 0;
    } else {
      assert (-d - 1) * w >= 0;
    }
  }

  // The keys of pool e among ids that go to seat a.
  function Load(ids: seq<nat>, pool: nat -> seq<nat>, owner: nat -> Option<nat>, e: seq<nat>, seat: nat): seq<nat> {
    Keep(ids, TakenBy(pool, owner, e, seat))
  }

  function TakenBy(pool: nat -> seq<nat>, owner: nat -> Option<nat>, e: seq<nat>, seat: nat): nat -> bool {
    (i: nat) => pool(i) == e && owner(i) == Some(seat)
  }

  lemma OwnerInPrefix(ids: seq<nat>, pool: nat -> seq<nat>, m: nat, n: nat)
    requires n < m <= |ids|
    ensures ids[..m][n] == ids[n] && Owner(ids[..m], pool, n) == Owner(ids, pool, n)
  {
    assert ids[..m][..n] == ids[..n];
  }

  lemma OwnerIsSeat(ids: seq<nat>, pool: nat -> seq<nat>, e: seq<nat>, n: nat, a: nat)
    requires n < |ids| && pool(ids[n]) == e && a < |e| && Distinct(e)
    ensures Owner(ids, pool, n) == Some(e[a]) <==> |Members(ids[..n], pool, e)| % |e| == a
  {
    hide Members;
    var k := |Members(ids[..n], pool, e)| % |e|;
    assert e[k] == e[a] <==> k == a;
  }

  // Seat a of a pool gets every |e|-th of the pool's keys.
  lemma {:induction false} LoadIsTurns(
    ids: seq<nat>, pool: nat -> seq<nat>, owner: nat -> Option<nat>, e: seq<nat>, a: nat)
    requires forall n: nat :: n < |ids| ==> owner(ids[n]) == Owner(ids, pool, n)
    requires a < |e| && Distinct(e)
    ensures |Load(ids, pool, owner, e, e[a])| == Turns(|Members(ids, pool, e)|, |e|, a)
  {
    hide Keep;
    hide Owner;
    KeepNone(TakenBy(pool, owner, e, e[a]));
    KeepNone(InPool(pool, e));
    if ids != [] {
      var m := |ids| - 1;
      KeepLast(ids, TakenBy(pool, owner, e, e[a]));
      KeepLast(ids, InPool(pool, e));
      forall n: nat | n < m ensures owner(ids[..m][n]) == Owner(ids[..m], pool, n) {
        OwnerInPrefix(ids, pool, m, n);
      }
      LoadIsTurns(ids[..m], pool, owner, e, a);
      if pool(ids[m]) == e {
        OwnerIsSeat(ids, pool, e, m, a);
      }
    }
  }

  // Within one pool no seat gets more than one key more than another.
  lemma LoadsAreEven(
    ids: seq<nat>, pool: nat -> seq<nat>, owner: nat -> Option<nat>, e: seq<nat>, a: nat, b: nat)
    requires forall n: nat :: n < |ids| ==> owner(ids[n]) == Owner(ids, pool, n)
    requires a < b < |e| && Distinct(e)
    ensures
      var x, y := |Load(ids, pool, owner, e, e[a])|, |Load(ids, pool, owner, e, e[b])|;
      y <= x <= y + 1
  {
    LoadIsTurns(ids, pool, owner, e, a);
    LoadIsTurns(ids, pool, owner, e, b);
    TurnsAreEven(|Members(ids, pool, e)|, |e|, a);
    TurnsAreEven(|Members(ids, pool, e)|, |e|, b);
  }
}
