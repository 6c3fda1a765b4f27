/**
 * A Python dict: a finite map that remembers the order in which its keys
 * were first inserted. Iteration follows `keys`; assigning to a key that is
 * already present keeps its place.
 */
module Dicts {

  datatype Dict<K, V> = Dict(keys: seq<K>, entries: map<K, V>) {

    /** The key at position `i` of the iteration order. */
    ghost function KeyAt(i: int): K
      requires 0 <= i < |keys|
    {
      keys[i]
    }

    /** Keys are distinct and are exactly the domain of the map. */
    ghost predicate Valid() {
      && (forall i, j :: 0 <= i < j < |keys| ==> KeyAt(i) != KeyAt(j))
      && (forall k | k in keys :: k in entries)
      && (forall k | k in entries :: k in keys)
    }
  }

  function Empty<K, V>(): (d: Dict<K, V>)
    ensures d.Valid() && d.keys == [] && d.entries == map[]
  {
    Dict([], map[])
  }

  /** `d[k] = v` */
  function Put<K, V>(d: Dict<K, V>, k: K, v: V): (r: Dict<K, V>)
    ensures r.entries == d.entries[k := v]
    ensures r.keys == if k in d.entries then d.keys else d.keys + [k]
  {
    if k in d.entries then Dict(d.keys, d.entries[k := v])
    else Dict(d.keys + [k], d.entries[k := v])
  }

  /** Distinct positions of a valid dict hold distinct keys. */
  lemma KeysDistinct<K, V>(d: Dict<K, V>, i: int, j: int)
    requires d.Valid() && 0 <= i < |d.keys| && 0 <= j < |d.keys| && i != j
    ensures d.keys[i] != d.keys[j]
  {
    if i < j {
      assert d.KeyAt(i) != d.KeyAt(j);
    } else {
      assert d.KeyAt(j) != d.KeyAt(i);
    }
  }

  /** Assignment keeps a valid dict valid. */
  lemma PutValid<K, V>(d: Dict<K, V>, k: K, v: V)
    requires d.Valid()
    ensures Put(d, k, v).Valid()
  {
    var r := Put(d, k, v);
    forall i, j | 0 <= i < j < |r.keys|
      ensures r.KeyAt(i) != r.KeyAt(j)
    {
      if j < |d.keys| {
        KeysDistinct(d, i, j);
      }
    }
  }

  /** Assigning the next key of `d` to a dict that holds exactly the keys of `d` before it, in order. */
  lemma PutNext<K, V, W>(acc: Dict<K, W>, d: Dict<K, V>, i: nat, v: W)
    requires d.Valid() && acc.Valid() && i < |d.keys| && acc.keys == d.keys[..i]
    ensures d.keys[i] !in acc.entries && forall m :: 0 <= m < i ==> d.keys[m] != d.keys[i]
    ensures Put(acc, d.keys[i], v).Valid() && Put(acc, d.keys[i], v).keys == d.keys[..i + 1]
  {
    forall m | 0 <= m < i
      ensures d.keys[m] != d.keys[i]
    {
      KeysDistinct(d, m, i);
    }
    assert d.keys[..i + 1] == d.keys[..i] + [d.keys[i]];
    PutValid(acc, d.keys[i], v);
  }
}
