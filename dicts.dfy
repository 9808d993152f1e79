/**
 * A Python dict as a sequence of its entries. Lookup and assignment follow
 * `d.get(k)` and `d[k] = v`: assignment to a present key replaces its
 * value, a new key is added. The sequence keeps entries in insertion order,
 * which is how iterating the dict is modelled; Python 2 iterates a dict in
 * hash order, so positions in the sequence are the model's, not Python's.
 */
module Dicts {
  import opened Wrappers

  type Dict<K, V> = seq<(K, V)>

  function Keys<K, V>(d: Dict<K, V>): (ks: seq<K>)
    ensures |ks| == |d| && forall i :: 0 <= i < |d| ==> ks[i] == d[i].0
  {
    if d == [] then [] else [d[0].0] + Keys(d[1..])
  }

  predicate DistinctKeys<K(==), V>(d: Dict<K, V>) {
    forall i, j :: 0 <= i < j < |d| ==> d[i].0 != d[j].0
  }

  /** `d.get(k)`, with `None` for a missing key. */
  function Get<K(==), V>(d: Dict<K, V>, k: K): (r: Option<V>)
    ensures r.Some? <==> k in Keys(d)
  {
    if d == [] then None
    else if d[0].0 == k then Some(d[0].1)
    else Get(d[1..], k)
  }

  /** What `get` finds is an entry of the dict. */
  lemma {:induction false} GetFound<K, V>(d: Dict<K, V>, k: K)
    requires Get(d, k).Some?
    ensures (k, Get(d, k).value) in d
  {
    if d[0].0 != k {
      GetFound(d[1..], k);
    }
  }

  /** `d[k] = v` */
  function Put<K(==), V>(d: Dict<K, V>, k: K, v: V): (r: Dict<K, V>)
    ensures Get(r, k) == Some(v)
  {
    if d == [] then [(k, v)]
    else if d[0].0 == k then [(k, v)] + d[1..]
    else [d[0]] + Put(d[1..], k, v)
  }

  /** A new key is appended to the sequence; a present key keeps its position, so the keys stay the same. */
  lemma PutShape<K, V>(d: Dict<K, V>, k: K, v: V)
    ensures k !in Keys(d) ==> Put(d, k, v) == d + [(k, v)]
    ensures k in Keys(d) ==> Keys(Put(d, k, v)) == Keys(d)
  {
    if k in Keys(d) {
      PutKeepsKeys(d, k, v);
    } else {
      PutAppends(d, k, v);
    }
  }

  /** Assigning a key the dict lacks appends the entry. */
  lemma {:induction false} PutAppends<K, V>(d: Dict<K, V>, k: K, v: V)
    requires k !in Keys(d)
    ensures Put(d, k, v) == d + [(k, v)]
  {
    if d != [] {
      assert Keys(d)[0] == d[0].0;
      assert Keys(d[1..]) == Keys(d)[1..];
      PutAppends(d[1..], k, v);
      assert [d[0]] + d[1..] == d;
      assert [d[0]] + (d[1..] + [(k, v)]) == ([d[0]] + d[1..]) + [(k, v)];
    }
  }

  /** Assigning a present key keeps every key in its place. */
  lemma {:induction false} PutKeepsKeys<K, V>(d: Dict<K, V>, k: K, v: V)
    requires k in Keys(d)
    ensures Keys(Put(d, k, v)) == Keys(d)
  {
    if d[0].0 != k {
      assert Keys(d) == [d[0].0] + Keys(d[1..]);
      PutKeepsKeys(d[1..], k, v);
      var tail := Put(d[1..], k, v);
      assert Keys([d[0]] + tail) == [d[0].0] + Keys(tail);
    }
  }

  /** `d[k] = v` leaves every other key's value alone. */
  lemma {:induction false} PutOther<K, V>(d: Dict<K, V>, k: K, v: V, j: K)
    requires j != k
    ensures Get(Put(d, k, v), j) == Get(d, j)
  {
    if d != [] && d[0].0 != k {
      PutOther(d[1..], k, v, j);
    }
  }

  /** `d[k] = v` keeps the keys of a dict distinct. */
  lemma {:induction false} PutDistinct<K, V>(d: Dict<K, V>, k: K, v: V)
    requires DistinctKeys(d)
    ensures DistinctKeys(Put(d, k, v))
  {
    PutShape(d, k, v);
    if k in Keys(d) {
      var r := Put(d, k, v);
      assert forall i :: 0 <= i < |r| ==> r[i].0 == Keys(r)[i] == Keys(d)[i] == d[i].0;
    }
  }

  /**
   * With distinct keys, the key of entry `i` is missing from any dict built
   * from entries before it.
   */
  lemma FreshKey<K, V>(d: Dict<K, V>, i: nat, r: Dict<K, V>)
    requires DistinctKeys(d) && i < |d|
    requires forall p :: p in r ==> p in d[..i]
    ensures d[i].0 !in Keys(r)
  {
    forall j | 0 <= j < |r|
      ensures r[j].0 != d[i].0
    {
      assert r[j] in d[..i];
      var m :| 0 <= m < i && d[..i][m] == r[j];
      assert d[m] == r[j];
    }
  }
}
