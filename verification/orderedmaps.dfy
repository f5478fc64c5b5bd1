/** String-keyed maps that remember insertion order, as JavaScript plain
    objects do for ordinary string keys: assigning to an existing key keeps its
    position, a new key goes to the end, and `Object.keys` lists keys in that
    order. A map is its key list together with its key-value table. */
module OrderedMaps {
  import opened Wrappers
  import opened Seqs

  datatype OrderedMap<V> = OrderedMap(keys: seq<string>, table: map<string, V>)

  /** `{}`. */
  function Empty<V>(): OrderedMap<V> {
    OrderedMap([], map[])
  }

  /** The key list names every assigned key exactly once. */
  predicate Valid<V>(m: OrderedMap<V>) {
    Distinct(m.keys) && Elements(m.keys) == m.table.Keys
  }

  /** `m[k]`, or `None` for a key that was never assigned. */
  function Get<V>(m: OrderedMap<V>, k: string): Option<V> {
    if k in m.table then Some(m.table[k]) else None
  }

  /** `m[k] = v`: the value at `k` becomes `v`, every other key keeps its value,
      and the key list grows by `k` exactly when `k` was not yet assigned. */
  function Put<V>(m: OrderedMap<V>, k: string, v: V): (r: OrderedMap<V>)
    ensures Get(r, k) == Some(v)
    ensures forall j :: j != k ==> Get(r, j) == Get(m, j)
  {
    OrderedMap(if k in m.keys then m.keys else m.keys + [k], m.table[k := v])
  }

  /** On a well-formed map, `m[k] = v` keeps it well formed, and the key list
      grows by `k` exactly when `k` had no value. */
  lemma PutValid<V>(m: OrderedMap<V>, k: string, v: V)
    requires Valid(m)
    ensures Valid(Put(m, k, v))
    ensures Get(m, k).Some? ==> Put(m, k, v).keys == m.keys
    ensures Get(m, k).None? ==> Put(m, k, v).keys == m.keys + [k]
  {
    ElementsAppend(m.keys, [k]);
  }

  /** The empty object is well formed. */
  lemma EmptyValid<V>()
    ensures Valid(Empty<V>())
    ensures forall k :: Get(Empty<V>(), k) == None
  {
  }
}
