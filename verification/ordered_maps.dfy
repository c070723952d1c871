/**
 * An ECMAScript `Map` (section 24.1 of ECMA-262): a finite map that also
 * remembers the order in which its keys were first inserted. `set` on a key
 * already present replaces the value but keeps the key's position; iteration
 * follows that order.
 */
module OrderedMaps {
  import opened Options

  /** Keys in insertion order, next to the key-to-value mapping. */
  datatype RawMap<K(==), V> = RawMap(keys: seq<K>, entries: map<K, V>)

  ghost predicate Distinct<K>(s: seq<K>) {
    forall i, j :: 0 <= i < j < |s| ==> s[i] != s[j]
  }

  /** The key order lists every key of the mapping exactly once. */
  ghost predicate Valid<K, V>(m: RawMap<K, V>) {
    && Distinct(m.keys)
    && (forall i :: 0 <= i < |m.keys| ==> m.keys[i] in m.entries)
    && (forall k :: k in m.entries ==> k in m.keys)
  }

  type OrderedMap<K(==), V> = m: RawMap<K, V> | Valid(m) witness RawMap([], map[])

  /** `new Map()`. */
  function Empty<K(==), V>(): (m: OrderedMap<K, V>)
    ensures m.keys == [] && m.entries == map[]
  {
    RawMap([], map[])
  }

  /** A new map: every `get` misses and iteration yields nothing. */
  lemma EmptyHoldsNothing<K, V>()
    ensures forall k :: Get(Empty<K, V>(), k) == None
    ensures Values(Empty<K, V>()) == []
  {
  }

  /** `m.get(k)`. */
  function Get<K(==), V>(m: OrderedMap<K, V>, k: K): Option<V> {
    if k in m.entries then Some(m.entries[k]) else None
  }

  /** `m.set(k, v)`: a new key goes last, an existing one keeps its place. */
  function Set<K(==), V>(m: OrderedMap<K, V>, k: K, v: V): (r: OrderedMap<K, V>)
    ensures r.entries == m.entries[k := v]
    ensures k in m.entries ==> r.keys == m.keys
    ensures k !in m.entries ==> r.keys == m.keys + [k]
  {
    if k in m.entries then RawMap(m.keys, m.entries[k := v])
    else RawMap(m.keys + [k], m.entries[k := v])
  }

  /** `Array.from(m.values())`: one value per key, in key order. */
  function Values<K(==), V>(m: OrderedMap<K, V>): (vs: seq<V>)
    ensures |vs| == |m.keys|
    ensures forall i :: 0 <= i < |m.keys| ==> vs[i] == m.entries[m.keys[i]]
  {
    seq(|m.keys|, i requires 0 <= i < |m.keys| => m.entries[m.keys[i]])
  }

  /** Every stored value is listed by `Values`, and `Values` lists nothing else. */
  lemma ValuesAreStored<K, V>(m: OrderedMap<K, V>)
    ensures forall k :: k in m.entries ==> m.entries[k] in Values(m)
    ensures forall v :: v in Values(m) ==> v in m.entries.Values
  {
    var vs := Values(m);
    forall k | k in m.entries
      ensures m.entries[k] in vs
    {
      var i :| 0 <= i < |m.keys| && m.keys[i] == k;
      assert vs[i] == m.entries[k];
    }
  }

  /** What `set` does to `get` and to the iteration order of the values. */
  lemma SetEffect<K, V>(m: OrderedMap<K, V>, k: K, v: V)
    ensures Get(Set(m, k, v), k) == Some(v)
    ensures forall k' :: k' != k ==> Get(Set(m, k, v), k') == Get(m, k')
    ensures k !in m.entries ==> Values(Set(m, k, v)) == Values(m) + [v]
    ensures forall i :: 0 <= i < |m.keys| && m.keys[i] == k ==>
              Values(Set(m, k, v)) == Values(m)[i := v]
  {
    var r := Set(m, k, v);
    if k !in m.entries {
      assert Values(r) == Values(m) + [v];
    }
    forall i | 0 <= i < |m.keys| && m.keys[i] == k
      ensures Values(r) == Values(m)[i := v]
    {
      forall j | 0 <= j < |m.keys| && j != i
        ensures m.keys[j] != k
      {
        if j < i { assert m.keys[j] != m.keys[i]; } else { assert m.keys[i] != m.keys[j]; }
      }
    }
  }
}
