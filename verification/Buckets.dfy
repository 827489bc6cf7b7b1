/** Amounts added up by key: what a loop of d[k] = d.get(k, 0) + a leaves, and what it adds up to. */
module Buckets {
  import opened Queries

  datatype Entry<+K> = Entry(key: K, amount: int)

  function Total<K>(es: seq<Entry<K>>): int {
    if es == [] then 0 else Total(es[..|es| - 1]) + es[|es| - 1].amount
  }

  // The amounts posted under key k.
  function Bucket<K(==)>(es: seq<Entry<K>>, k: K): int {
    if es == [] then 0
    else Bucket(es[..|es| - 1], k) + if es[|es| - 1].key == k then es[|es| - 1].amount else 0
  }

  function Get<K(==)>(m: map<K, int>, k: K): int {
    if k in m then m[k] else 0
  }

  function Add<K(==)>(m: map<K, int>, k: K, amount: int): map<K, int> {
    m[k := Get(m, k) + amount]
  }

  ghost predicate Tallies<K(!new)>(m: map<K, int>, es: seq<Entry<K>>) {
    forall k :: Get(m, k) == Bucket(es, k)
  }

  lemma TallyStart<K(!new)>()
    ensures Tallies<K>(map[], [])
  {
  }

  lemma TallyStep<K(!new)>(m: map<K, int>, es: seq<Entry<K>>, k: K, amount: int)
    requires Tallies(m, es)
    ensures Tallies(Add(m, k, amount), es + [Entry(k, amount)])
  {
    assert (es + [Entry(k, amount)])[..|es|] == es;
  }

  lemma {:induction false} TotalAppend<K>(es: seq<Entry<K>>, fs: seq<Entry<K>>)
    ensures Total(es + fs) == Total(es) + Total(fs)
  {
    if fs == [] {
      assert es + fs == es;
    } else {
      var n := |fs| - 1;
      TotalAppend(es, fs[..n]);
      assert (es + fs)[..|es| + n] == es + fs[..n];
    }
  }

  // The sum of f over the listed keys.
  function Across<K>(keys: seq<K>, f: K -> int): int {
    if keys == [] then 0 else Across(keys[..|keys| - 1], f) + f(keys[|keys| - 1])
  }

  lemma {:induction false} AcrossAppend<K>(keys: seq<K>, more: seq<K>, f: K -> int)
    ensures Across(keys + more, f) == Across(keys, f) + Across(more, f)
  {
    if more == [] {
      assert keys + more == keys;
    } else {
      var n := |more| - 1;
      AcrossAppend(keys, more[..n], f);
      assert (keys + more)[..|keys| + n] == keys + more[..n];
    }
  }

  lemma {:induction false} AcrossEqual<K>(keys: seq<K>, f: K -> int, g: K -> int)
    requires forall k :: k in keys ==> f(k) == g(k)
    ensures Across(keys, f) == Across(keys, g)
  {
    if keys != [] {
      AcrossEqual(keys[..|keys| - 1], f, g);
    }
  }

  function BucketOf<K(==)>(es: seq<Entry<K>>): K -> int {
    (k: K) => Bucket(es, k)
  }

  // The amounts whose key is listed.
  function Within<K(==)>(es: seq<Entry<K>>, keys: seq<K>): int {
    if es == [] then 0
    else Within(es[..|es| - 1], keys) + if es[|es| - 1].key in keys then es[|es| - 1].amount else 0
  }

  // Reading the buckets of distinct keys loses nothing posted under them and counts nothing twice.
  lemma {:induction false} BucketsConserve<K>(es: seq<Entry<K>>, keys: seq<K>)
    requires Distinct(keys)
    ensures Across(keys, BucketOf(es)) == Within(es, keys)
  {
    if keys == [] {
      NothingWithin(es);
    } else {
      var n := |keys| - 1;
      BucketsConserve(es, keys[..n]);
      WithinOneMore(es, keys[..n], keys[n]);
      assert keys == keys[..n] + [keys[n]];
    }
  }

  lemma {:induction false} NothingWithin<K>(es: seq<Entry<K>>)
    ensures Within(es, []) == 0
  {
    if es != [] {
      NothingWithin(es[..|es| - 1]);
    }
  }

  lemma {:induction false} WithinOneMore<K>(es: seq<Entry<K>>, keys: seq<K>, k: K)
    requires k !in keys
    ensures Within(es, keys + [k]) == Within(es, keys) + Bucket(es, k)
  {
    if es != [] {
      WithinOneMore(es[..|es| - 1], keys, k);
    }
  }

  lemma {:induction false} AllWithin<K>(es: seq<Entry<K>>, keys: seq<K>)
    requires forall e :: e in es ==> e.key in keys
    ensures Within(es, keys) == Total(es)
  {
    if es != [] {
      AllWithin(es[..|es| - 1], keys);
    }
  }

  // A key posted under once holds that one amount.
  lemma {:induction false} BucketOfOne<K>(es: seq<Entry<K>>, j: nat)
    requires j < |es| && forall a, b :: 0 <= a < b < |es| ==> es[a].key != es[b].key
    ensures Bucket(es, es[j].key) == es[j].amount
  {
    var n := |es| - 1;
    if j < n {
      BucketOfOne(es[..n], j);
    } else {
      BucketOfNone(es[..n], es[n].key);
    }
  }

  lemma {:induction false} BucketOfNone<K>(es: seq<Entry<K>>, k: K)
    requires forall e :: e in es ==> e.key != k
    ensures Bucket(es, k) == 0
  {
    if es != [] {
      BucketOfNone(es[..|es| - 1], k);
    }
  }
}
