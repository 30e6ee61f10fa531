/** A JavaScript plain object: its own keys in insertion order and the value at each key.
    `obj[k] = v` on a new key appends `k` to the key order; on an existing key it keeps
    the position. `Object.keys` and `Object.values` read the keys in that order. */
module Dicts {
  import opened JsValues

  datatype Dict<K(==,!new), V> = Dict(keys: seq<K>, entries: map<K, V>)
  {
    /** The keys listed are exactly the keys mapped, each once. */
    ghost predicate Valid() {
      Distinct(keys) && forall k :: k in entries <==> k in keys
    }

    /** `obj[k] = v`. */
    function Put(k: K, v: V): (d: Dict<K, V>)
      requires Valid()
      ensures d.Valid()
      ensures d.entries == entries[k := v]
      ensures k in entries ==> d.keys == keys
      ensures k !in entries ==> d.keys == keys + [k]
    {
      if k in entries then Dict(keys, entries[k := v]) else Dict(keys + [k], entries[k := v])
    }

    /** `Object.values(obj)`. */
    function Values(): (vs: seq<V>)
      requires Valid()
      ensures |vs| == |keys|
      ensures forall i :: 0 <= i < |keys| ==> vs[i] == entries[keys[i]]
    {
      seq(|keys|, i requires 0 <= i < |keys| => entries[keys[i]])
    }
  }

  /** `{}`. */
  function EmptyDict<K(==,!new), V>(): (d: Dict<K, V>)
    ensures d.Valid() && d.keys == []
  {
    Dict([], map[])
  }
}
