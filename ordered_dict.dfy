/** Python's insertion-ordered `dict`, as a sequence of (key, value) entries
    with distinct keys. Assigning to an existing key replaces its value in
    place; assigning to a new key appends an entry at the end. */
module OrderedDict {
  import opened Results

  type Dict<K, V> = seq<(K, V)>

  function Keys<K(==), V>(d: Dict<K, V>): (ks: seq<K>)
    ensures |ks| == |d|
    ensures forall i :: 0 <= i < |d| ==> ks[i] == d[i].0
  {
    if d == [] then [] else [d[0].0] + Keys(d[1..])
  }

  predicate DistinctKeys<K(==), V>(d: Dict<K, V>) {
    forall i, j :: 0 <= i < j < |d| ==> d[i].0 != d[j].0
  }

  /** `d.get(k)`: the value stored under `k`, if any. */
  function Get<K(==), V>(d: Dict<K, V>, k: K): (r: Option<V>)
    ensures r.Some? <==> k in Keys(d)
    ensures r.Some? ==> exists i :: 0 <= i < |d| && d[i] == (k, r.value)
  {
    if d == [] then None
    else if d[0].0 == k then Some(d[0].1)
    else Get(d[1..], k)
  }

  /** `d[k] = v`. */
  function Put<K(==), V>(d: Dict<K, V>, k: K, v: V): (r: Dict<K, V>)
    requires DistinctKeys(d)
    ensures DistinctKeys(r)
    ensures k !in Keys(d) ==> r == d + [(k, v)]
    ensures k in Keys(d) ==> |r| == |d| && Keys(r) == Keys(d)
    ensures k in Keys(d) ==> forall i :: 0 <= i < |d| ==> r[i] == (if d[i].0 == k then (k, v) else d[i])
  {
    if d == [] then [(k, v)]
    else if d[0].0 == k then [(k, v)] + d[1..]
    else [d[0]] + Put(d[1..], k, v)
  }

  /** In a dictionary with distinct keys, the entry at position `i` is what a
      lookup of its key finds. */
  lemma {:induction false} GetAt<K, V>(d: Dict<K, V>, i: nat)
    requires DistinctKeys(d) && i < |d|
    ensures Get(d, d[i].0) == Some(d[i].1)
  {
    if i > 0 {
      GetAt(d[1..], i - 1);
    }
  }

  /** After `d[k] = v`, looking up `k` gives `v`. */
  lemma {:induction false} PutGetSame<K, V>(d: Dict<K, V>, k: K, v: V)
    requires DistinctKeys(d)
    ensures Get(Put(d, k, v), k) == Some(v)
  {
    var r := Put(d, k, v);
    if k in Keys(d) {
      var j :| 0 <= j < |d| && Keys(d)[j] == k;
      assert r[j] == (k, v);
      GetAt(r, j);
    } else {
      assert r[|d|] == (k, v);
      GetAt(r, |d|);
    }
  }

  /** After `d[k] = v`, every other key is bound as before. */
  lemma {:induction false} PutGetOther<K, V>(d: Dict<K, V>, k: K, v: V, k': K)
    requires DistinctKeys(d) && k' != k
    ensures Get(Put(d, k, v), k') == Get(d, k')
  {
    var r := Put(d, k, v);
    if k' in Keys(d) {
      var j :| 0 <= j < |d| && Keys(d)[j] == k';
      GetAt(d, j);
      assert r[j] == d[j];
      GetAt(r, j);
    } else {
      if k !in Keys(d) {
        forall i | 0 <= i < |r| ensures Keys(r)[i] != k' {
          if i < |d| {
            assert r[i] == d[i] && Keys(d)[i] == d[i].0;
          }
        }
      }
    }
  }
}
