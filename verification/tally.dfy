/** A JavaScript object used as a counter, `m[k] = (m[k] || 0) + 1`, as an
    association list. Like an object's own string keys, the list keeps its keys
    in the order they were first inserted. */
module Tally {
  import opened Seqs

  type Counts<K> = seq<(K, nat)>

  /** The keys, in insertion order (`Object.keys`). */
  function Keys<K>(t: Counts<K>): (r: seq<K>)
    ensures |r| == |t|
    ensures forall i :: 0 <= i < |t| ==> r[i] == t[i].0
  {
    if |t| == 0 then [] else [t[0].0] + Keys(t[1..])
  }

  /** The counts, in key order (`Object.values`). */
  function Values<K>(t: Counts<K>): (r: seq<int>)
    ensures |r| == |t|
    ensures forall i :: 0 <= i < |t| ==> r[i] == t[i].1
  {
    if |t| == 0 then [] else [t[0].1 as int] + Values(t[1..])
  }

  /** `m[k] || 0`: the count of `k`, zero for an absent key. */
  function Lookup<K(==)>(t: Counts<K>, k: K): nat
  {
    if |t| == 0 then 0 else if t[0].0 == k then t[0].1 else Lookup(t[1..], k)
  }

  /** How many times `k` occurs in `ks`. */
  function Occ<K(==)>(ks: seq<K>, k: K): nat
  {
    multiset(ks)[k]
  }

  lemma KeysCons<K>(x: (K, nat), t: Counts<K>)
    ensures Keys([x] + t) == [x.0] + Keys(t)
    ensures Values([x] + t) == [x.1 as int] + Values(t)
  {
    assert ([x] + t)[1..] == t;
  }

  /** `m[k] = (m[k] || 0) + 1`: the first entry for `k` goes up by one, or an
      entry `(k, 1)` is added at the end. The key list grows only by a new key. */
  function Bump<K(==)>(t: Counts<K>, k: K): (r: Counts<K>)
    ensures Keys(r) == if k in Keys(t) then Keys(t) else Keys(t) + [k]
  {
    if |t| == 0 then [(k, 1)]
    else
      KeysCons(t[0], t[1..]);
      assert [t[0]] + t[1..] == t;
      if t[0].0 == k then
        KeysCons((k, t[0].1 + 1), t[1..]);
        [(k, t[0].1 + 1)] + t[1..]
      else
        var rest := Bump(t[1..], k);
        KeysCons(t[0], rest);
        [t[0]] + rest
  }

  /** After a bump, `k` counts one more, every other key the same, and the
      counts add up to one more. */
  lemma {:induction false} BumpCounts<K>(t: Counts<K>, k: K)
    ensures forall j :: Lookup(Bump(t, k), j) == Lookup(t, j) + (if j == k then 1 else 0)
    ensures Sum(Values(Bump(t, k))) == Sum(Values(t)) + 1
    decreases |t|
  {
    var r := Bump(t, k);
    if |t| == 0 {
      assert Values(r) == [1];
    } else {
      KeysCons(t[0], t[1..]);
      assert [t[0]] + t[1..] == t;
      if t[0].0 == k {
        KeysCons((k, t[0].1 + 1), t[1..]);
        assert r[1..] == t[1..];
      } else {
        BumpCounts(t[1..], k);
        KeysCons(t[0], Bump(t[1..], k));
        assert r[1..] == Bump(t[1..], k);
      }
    }
  }

  /** A bump keeps the keys distinct. */
  lemma BumpDistinct<K>(t: Counts<K>, k: K)
    requires Distinct(Keys(t))
    ensures Distinct(Keys(Bump(t, k)))
  {
    if k !in Keys(t) {
      DistinctSnoc(Keys(t), k);
    }
  }

  /** `ks.forEach(k => m[k] = (m[k] || 0) + 1)` starting from the counter `t`. */
  function CountInto<K(==,!new)>(t: Counts<K>, ks: seq<K>): (r: Counts<K>)
    requires Distinct(Keys(t))
    ensures Distinct(Keys(r))
    ensures forall j :: Lookup(r, j) == Lookup(t, j) + Occ(ks, j)
    ensures Sum(Values(r)) == Sum(Values(t)) + |ks|
    ensures forall j :: j in Keys(r) <==> j in Keys(t) || j in ks
    decreases |ks|
  {
    if |ks| == 0 then t
    else
      assert ks == [ks[0]] + ks[1..];
      BumpCounts(t, ks[0]);
      BumpDistinct(t, ks[0]);
      CountInto(Bump(t, ks[0]), ks[1..])
  }

  /** `sum over d in ds of Occ(ks, d)`: the per-key counts of `ks` read off in the order `ds`. */
  function SumOcc<K(==)>(ds: seq<K>, ks: seq<K>): nat
  {
    if |ds| == 0 then 0 else Occ(ks, ds[0]) + SumOcc(ds[1..], ks)
  }

  /** One more element adds one to the read-off sum exactly when the element is one of the (distinct) keys read. */
  lemma {:induction false} SumOccSnoc<K>(ds: seq<K>, ks: seq<K>, x: K)
    requires Distinct(ds)
    ensures SumOcc(ds, ks + [x]) == SumOcc(ds, ks) + (if x in ds then 1 else 0)
    decreases |ds|
  {
    if |ds| > 0 {
      assert ds == [ds[0]] + ds[1..];
      assert multiset(ks + [x]) == multiset(ks) + multiset{x};
      SumOccSnoc(ds[1..], ks, x);
      if ds[0] == x {
        assert x !in ds[1..] by {
          forall i | 0 <= i < |ds[1..]| ensures ds[1..][i] != x {
            assert ds[1..][i] == ds[i + 1];
          }
        }
      }
    }
  }

  /** Reading the counts of `ks` off a distinct key list that covers them accounts for every element once. */
  lemma {:induction false} SumOccCovers<K>(ds: seq<K>, ks: seq<K>)
    requires Distinct(ds)
    requires forall x :: x in ks ==> x in ds
    ensures SumOcc(ds, ks) == |ks|
    decreases |ks|
  {
    if |ks| == 0 {
      SumOccEmpty(ds);
    } else {
      var init := ks[..|ks| - 1];
      assert ks == init + [ks[|ks| - 1]];
      SumOccCovers(ds, init);
      SumOccSnoc(ds, init, ks[|ks| - 1]);
    }
  }

  lemma {:induction false} SumOccEmpty<K>(ds: seq<K>)
    ensures SumOcc(ds, []) == 0
    decreases |ds|
  {
    if |ds| > 0 {
      SumOccEmpty(ds[1..]);
    }
  }
}
