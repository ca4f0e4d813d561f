/**
 * A Python `dict` as the exporters use it: an insertion-ordered list of
 * key/value pairs with distinct keys. Assigning to a key that is already
 * present replaces its value where it stands; a new key goes at the end.
 */
module Assoc {
  import opened Wrappers

  function Keys<K, V>(m: seq<(K, V)>): (ks: seq<K>)
    ensures |ks| == |m|
    ensures forall i :: 0 <= i < |m| ==> ks[i] == m[i].0
  {
    if m == [] then [] else [m[0].0] + Keys(m[1..])
  }

  ghost predicate DistinctKeys<K, V>(m: seq<(K, V)>) {
    forall i, j :: 0 <= i < j < |m| ==> m[i].0 != m[j].0
  }

  /** Python's `m.get(k)`. */
  function Lookup<K(==), V>(m: seq<(K, V)>, k: K): (r: Option<V>)
    ensures r.None? <==> k !in Keys(m)
    ensures r.Some? ==> (k, r.value) in m
    ensures DistinctKeys(m) ==> forall i :: 0 <= i < |m| && m[i].0 == k ==> r == Some(m[i].1)
  {
    if m == [] then None
    else if m[0].0 == k then Some(m[0].1)
    else
      var r := Lookup(m[1..], k);
      assert Keys(m) == [m[0].0] + Keys(m[1..]);
      r
  }

  /** Python's `m[k] = v`. */
  function Put<K(==), V>(m: seq<(K, V)>, k: K, v: V): (r: seq<(K, V)>)
    ensures |m| <= |r| <= |m| + 1
    ensures (k, v) in r
  {
    if m == [] then [(k, v)]
    else if m[0].0 == k then [(k, v)] + m[1..]
    else
      var rest := Put(m[1..], k, v);
      assert (k, v) in [m[0]] + rest;
      [m[0]] + rest
  }

  /** An existing key keeps its position; a new key is appended. */
  lemma {:induction false} PutKeys<K, V>(m: seq<(K, V)>, k: K, v: V)
    ensures k in Keys(m) ==> Keys(Put(m, k, v)) == Keys(m)
    ensures k !in Keys(m) ==> Keys(Put(m, k, v)) == Keys(m) + [k]
  {
    if m != [] {
      assert Keys(m) == [m[0].0] + Keys(m[1..]);
      if m[0].0 != k {
        PutKeys(m[1..], k, v);
        assert Keys(Put(m, k, v)) == [m[0].0] + Keys(Put(m[1..], k, v));
      } else {
        assert Keys(Put(m, k, v)) == [k] + Keys(m[1..]);
      }
    }
  }

  /** After the assignment `k` maps to `v` and every other key is as before. */
  lemma {:induction false} PutLookup<K, V>(m: seq<(K, V)>, k: K, v: V)
    ensures Lookup(Put(m, k, v), k) == Some(v)
    ensures forall k' :: k' != k ==> Lookup(Put(m, k, v), k') == Lookup(m, k')
  {
    if m != [] && m[0].0 != k {
      PutLookup(m[1..], k, v);
      assert Put(m, k, v)[1..] == Put(m[1..], k, v);
    } else if m != [] {
      assert Put(m, k, v)[1..] == m[1..];
    }
  }

  /** Assignment keeps the keys distinct. */
  lemma {:induction false} PutDistinct<K, V>(m: seq<(K, V)>, k: K, v: V)
    requires DistinctKeys(m)
    ensures DistinctKeys(Put(m, k, v))
  {
    if m != [] && m[0].0 != k {
      var rest := Put(m[1..], k, v);
      assert DistinctKeys(m[1..]) by {
        forall i, j | 0 <= i < j < |m[1..]| ensures m[1..][i].0 != m[1..][j].0 {
          assert m[1..][i] == m[i + 1] && m[1..][j] == m[j + 1];
        }
      }
      PutDistinct(m[1..], k, v);
      PutKeys(m[1..], k, v);
      assert m[0].0 !in Keys(m[1..]) by {
        forall i | 0 <= i < |m[1..]| ensures Keys(m[1..])[i] != m[0].0 {
          assert m[1..][i] == m[i + 1];
        }
      }
      assert m[0].0 !in Keys(rest);
      ConsDistinct(m[0], rest);
    } else if m != [] {
      var r := Put(m, k, v);
      assert forall i :: 0 <= i < |r| ==> r[i].0 == m[i].0;
    }
  }

  /** A pair in front of distinct pairs without its key keeps the keys distinct. */
  lemma ConsDistinct<K, V>(p: (K, V), rest: seq<(K, V)>)
    requires DistinctKeys(rest) && p.0 !in Keys(rest)
    ensures DistinctKeys([p] + rest)
  {
    var r := [p] + rest;
    forall i, j | 0 <= i < j < |r| ensures r[i].0 != r[j].0 {
      assert r[j] == rest[j - 1];
      if i == 0 {
        assert Keys(rest)[j - 1] == rest[j - 1].0;
      } else {
        assert r[i] == rest[i - 1];
      }
    }
  }

  /** Every pair after the assignment was there before or is the new one. */
  lemma {:induction false} PutPairs<K, V>(m: seq<(K, V)>, k: K, v: V, p: (K, V))
    requires p in Put(m, k, v)
    ensures p in m || p == (k, v)
  {
    if m != [] && m[0].0 != k && p != m[0] {
      assert p in Put(m[1..], k, v);
      PutPairs(m[1..], k, v, p);
    } else if m != [] && m[0].0 == k && p != (k, v) {
      assert p in m[1..];
    }
  }
}
