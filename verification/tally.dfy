/** The zero-defaulted tallies several models return: a `GROUP BY key` count
    query folded into an object that starts with every known key at 0
    (`stats.reduce((acc, stat) => { acc[stat.key] = count; ... }, {A: 0, ...})`).
    The database grouping and the reduce are modelled together as one fold over
    the records' keys that adds one per record. */
module Tally {

  /** The count already in the accumulator for `k`, 0 when the key is absent. */
  function Get<K(==)>(acc: map<K, nat>, k: K): nat {
    if k in acc then acc[k] else 0
  }

  /** One record of key `k` seen by the fold. */
  function Bump<K(==)>(acc: map<K, nat>, k: K): (r: map<K, nat>)
    ensures r.Keys == acc.Keys + {k}
    ensures r[k] == Get(acc, k) + 1
    ensures forall j :: j in acc && j != k ==> r[j] == acc[j]
  {
    acc[k := Get(acc, k) + 1]
  }

  /** The fold over the records' keys. */
  function Fold<K(==)>(acc: map<K, nat>, ks: seq<K>): (m: map<K, nat>)
    ensures forall k :: k in m ==> k in acc || k in ks
    ensures forall k :: k in acc ==> k in m
    ensures forall k :: k in ks ==> k in m
    ensures forall k :: k in m ==> m[k] == Get(acc, k) + multiset(ks)[k]
    decreases |ks|
  {
    if |ks| == 0 then acc
    else
      assert ks == [ks[0]] + ks[1..];
      Fold(Bump(acc, ks[0]), ks[1..])
  }

  /** The initial accumulator: every listed key at 0. */
  function Zeroes<K(==)>(keys: set<K>): (m: map<K, nat>)
    ensures m.Keys == keys
    ensures forall k :: k in m ==> m[k] == 0
  {
    map k | k in keys :: 0
  }

  /** A tally whose listed keys are always present: each key counts the
      records carrying it, and a key no record carries reads 0. */
  function Defaulted<K(==)>(keys: set<K>, ks: seq<K>): (m: map<K, nat>)
    ensures forall k :: k in m ==> k in keys || k in ks
    ensures forall k :: k in keys ==> k in m
    ensures forall k :: k in ks ==> k in m
    ensures forall k :: k in m ==> m[k] == multiset(ks)[k]
    ensures (forall i :: 0 <= i < |ks| ==> ks[i] in keys) ==> m.Keys == keys
  {
    Fold(Zeroes(keys), ks)
  }

  /** The number of records that carry one of the keys in `keys`. */
  function CountOf<K(==)>(keys: seq<K>, ks: seq<K>): nat {
    if |keys| == 0 then 0 else multiset(ks)[keys[0]] + CountOf(keys[1..], ks)
  }

  /** How many positions of `keys` hold `x`. */
  function Hits<K(==)>(keys: seq<K>, x: K): nat {
    if |keys| == 0 then 0 else (if keys[0] == x then 1 else 0) + Hits(keys[1..], x)
  }

  lemma {:induction false} HitsOfDistinct<K>(keys: seq<K>, x: K)
    requires forall i, j :: 0 <= i < j < |keys| ==> keys[i] != keys[j]
    ensures Hits(keys, x) == (if x in keys then 1 else 0)
  {
    if |keys| > 0 {
      HitsOfDistinct(keys[1..], x);
      assert x in keys <==> keys[0] == x || x in keys[1..];
      if keys[0] == x {
        assert x !in keys[1..] by {
          forall i | 0 <= i < |keys[1..]| ensures keys[1..][i] != x {
            assert keys[1..][i] == keys[i + 1];
          }
        }
      }
    }
  }

  lemma {:induction false} CountOfAppend<K>(keys: seq<K>, ks: seq<K>, x: K)
    ensures CountOf(keys, ks + [x]) == CountOf(keys, ks) + Hits(keys, x)
  {
    if |keys| > 0 {
      CountOfAppend(keys[1..], ks, x);
      assert multiset(ks + [x]) == multiset(ks) + multiset{x};
    }
  }

  /** When the keys are distinct and every record's key is among them, the
      per-key counts add up to the number of records. */
  lemma {:induction false} CountsCoverAll<K>(keys: seq<K>, ks: seq<K>)
    requires forall i, j :: 0 <= i < j < |keys| ==> keys[i] != keys[j]
    requires forall i :: 0 <= i < |ks| ==> ks[i] in keys
    ensures CountOf(keys, ks) == |ks|
  {
    if |ks| == 0 {
      EmptyCount(keys, ks);
    } else {
      var init := ks[..|ks| - 1];
      var x := ks[|ks| - 1];
      assert ks == init + [x];
      CountsCoverAll(keys, init);
      CountOfAppend(keys, init, x);
      HitsOfDistinct(keys, x);
    }
  }

  lemma {:induction false} EmptyCount<K>(keys: seq<K>, ks: seq<K>)
    requires |ks| == 0
    ensures CountOf(keys, ks) == 0
  {
    if |keys| > 0 {
      EmptyCount(keys[1..], ks);
    }
  }
}
