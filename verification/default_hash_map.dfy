/** PMAT's `DefaultHashMap`: a map that, asked for a key it does not hold, stores and returns
    a value made by its creator. */
module DefaultHashMap {
  import opened Wrappers

  /** The creator: `make(count)` is the value of its `count`-th `create()` since the last
      reset. `resets` says whether its `reset()` restarts the count; the base class's
      `reset()` does nothing. A creator without state has a constant `make`. */
  datatype Creator<V> = Creator(make: nat -> V, resets: bool, count: nat)

  /** The map over its base map and its creator. */
  datatype DefaultMap<K, V> = DefaultMap(base: map<K, V>, creator: Creator<V>)

  /** `get(key)`: the stored value; for an absent key the creator's next value, stored first.
      The map's new state comes with the value. */
  function Get<K, V>(m: DefaultMap<K, V>, key: K): (r: (V, DefaultMap<K, V>))
    ensures key in r.1.base && r.1.base[key] == r.0
    ensures key in m.base ==> r == (m.base[key], m)
    ensures key !in m.base ==>
              && r.0 == m.creator.make(m.creator.count)
              && r.1.base == m.base[key := r.0]
              && r.1.creator == m.creator.(count := m.creator.count + 1)
  {
    if key in m.base then (m.base[key], m)
    else
      var v := m.creator.make(m.creator.count);
      (v, DefaultMap(m.base[key := v], m.creator.(count := m.creator.count + 1)))
  }

  /** After `get(key)` the key is present, and the map has grown by at most that key. */
  lemma GetGrowsByOne<K, V>(m: DefaultMap<K, V>, key: K)
    ensures Get(m, key).1.base.Keys == m.base.Keys + {key}
    ensures |Get(m, key).1.base.Keys| <= |m.base.Keys| + 1
  {
    var ks := Get(m, key).1.base.Keys;
    if key in m.base {
      assert ks == m.base.Keys;
    } else {
      assert ks == m.base.Keys + {key};
    }
  }

  /** `containsKey`: the base map's. */
  predicate ContainsKey<K, V>(m: DefaultMap<K, V>, key: K) {
    key in m.base
  }

  /** `put(key, value)`: stores into the base map, returning the previous value or `null`;
      the creator is not consulted. */
  function Put<K, V>(m: DefaultMap<K, V>, key: K, value: V): (r: (Option<V>, DefaultMap<K, V>))
    ensures r.1.base == m.base[key := value] && r.1.creator == m.creator
    ensures r.0 == if key in m.base then Some(m.base[key]) else None
  {
    (if key in m.base then Some(m.base[key]) else None, DefaultMap(m.base[key := value], m.creator))
  }

  /** `remove(key)`: removes from the base map, returning the previous value or `null`. */
  function Remove<K, V>(m: DefaultMap<K, V>, key: K): (r: (Option<V>, DefaultMap<K, V>))
    ensures r.1.base == m.base - {key} && r.1.creator == m.creator
    ensures r.0 == if key in m.base then Some(m.base[key]) else None
  {
    (if key in m.base then Some(m.base[key]) else None, DefaultMap(m.base - {key}, m.creator))
  }

  /** `clear()`: empties the base map and resets the creator. */
  function Clear<K, V>(m: DefaultMap<K, V>): (r: DefaultMap<K, V>)
    ensures r.base == map[]
    ensures r.creator.make == m.creator.make && r.creator.resets == m.creator.resets
    ensures r.creator.count == if m.creator.resets then 0 else m.creator.count
  {
    DefaultMap(map[], if m.creator.resets then m.creator.(count := 0) else m.creator)
  }

  /** A `put` is seen by the next `get`, which then creates nothing. */
  lemma GetAfterPut<K, V>(m: DefaultMap<K, V>, key: K, value: V)
    ensures Get(Put(m, key, value).1, key) == (value, Put(m, key, value).1)
  {
  }

  /** A `get` after a `remove` creates a fresh value. */
  lemma GetAfterRemove<K, V>(m: DefaultMap<K, V>, key: K)
    ensures Get(Remove(m, key).1, key).0 == m.creator.make(m.creator.count)
  {
  }
}
