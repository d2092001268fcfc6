/** The key/value store of `away_from_home/store.py`. */
module Store {
  import opened Wrappers

  /** A dictionary that is updated in place by `Set` and queried by `Get`. */
  class Store<K(==, !new), V> {
    var data: map<K, V>

    /** A new store holds no key at all. */
    constructor ()
      ensures data == map[]
    {
      data := map[];
    }

    /** `get`: the value last stored under `key`, or `None` when the key was never set. */
    function Get(key: K): (r: Option<V>)
      reads this
      ensures r.None? <==> key !in data
      ensures r.Some? ==> key in data && data[key] == r.value
    {
      if key in data then Some(data[key]) else None
    }

    /** `set`: stores `value` under `key`, replacing any earlier value, and touches no other key. */
    method Set(key: K, value: V)
      modifies this
      ensures data == old(data)[key := value]
      ensures Get(key) == Some(value)
      ensures forall k :: k != key ==> Get(k) == old(Get(k))
    {
      data := data[key := value];
    }
  }
}
