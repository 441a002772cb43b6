/** A dictionary that remembers insertion order, as the result mapping of
    the driver does: `keys` lists every key once, in the order it was first
    stored, and `entries` holds the values. */
module OrderedMaps {

  datatype OrderedMap<K, V> = OrderedMap(keys: seq<K>, entries: map<K, V>)

  /** Keys are listed once each, and exactly the keys of `entries` are listed. */
  ghost predicate Valid<K, V>(m: OrderedMap<K, V>) {
    && (forall i, j :: 0 <= i < j < |m.keys| ==> m.keys[i] != m.keys[j])
    && (forall k :: k in m.entries ==> k in m.keys)
    && (forall i :: 0 <= i < |m.keys| ==> m.keys[i] in m.entries)
  }

  function Empty<K, V>(): (m: OrderedMap<K, V>)
    ensures Valid(m) && m.entries == map[]
  {
    OrderedMap([], map[])
  }

  /** Item assignment `d[key] = value`. */
  function Put<K, V>(m: OrderedMap<K, V>, key: K, value: V): OrderedMap<K, V> {
    if key in m.entries then OrderedMap(m.keys, m.entries[key := value])
    else OrderedMap(m.keys + [key], m.entries[key := value])
  }

  /** After the assignment the key maps to the value and no other key
      changes; a key already present keeps its place in the order and a new
      key goes last. */
  lemma PutStores<K, V>(m: OrderedMap<K, V>, key: K, value: V)
    requires Valid(m)
    ensures Valid(Put(m, key, value))
    ensures Put(m, key, value).entries.Keys == m.entries.Keys + {key}
    ensures Put(m, key, value).entries[key] == value
    ensures forall k :: k in m.entries && k != key ==> Put(m, key, value).entries[k] == m.entries[k]
    ensures Put(m, key, value).keys == if key in m.entries then m.keys else m.keys + [key]
  {
  }
}
