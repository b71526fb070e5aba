/**
 * The bounded key/value registry the consumer uses as its lease table: a
 * `Map` whose `set` refuses to grow the map once its size has reached a
 * fixed limit.
 */
module LimitedMaps {
  import opened Optional

  /** What `set` does: the entry is stored, or "Map size limit exceeded" is thrown. */
  datatype SetResult = Stored | LimitExceeded

  class LimitedMap<K(==), V> {
    const limit: nat
    var entries: map<K, V>

    /** The bound the registry keeps when it starts empty and is changed only by `Set` and `Delete`. */
    ghost predicate Valid()
      reads this
    {
      |entries| <= limit
    }

    constructor (limit: nat)
      ensures this.limit == limit && entries == map[]
      ensures Valid()
    {
      this.limit := limit;
      entries := map[];
    }

    /** `atLimit`: the size has reached the limit. */
    method AtLimit() returns (r: bool)
      ensures r <==> |entries| >= limit
    {
      r := |entries| >= limit;
    }

    /**
     * `set`: throws at or over the limit, even when `key` is already present,
     * and otherwise inserts or overwrites `key` alone.
     */
    method Set(key: K, value: V) returns (r: SetResult)
      modifies this
      ensures r == (if |old(entries)| >= limit then LimitExceeded else Stored)
      ensures r == LimitExceeded ==> entries == old(entries)
      ensures r == Stored ==> entries == old(entries)[key := value]
      ensures old(Valid()) ==> Valid()
    {
      if |entries| >= limit {
        return LimitExceeded;
      }
      entries := entries[key := value];
      r := Stored;
    }

    /** `has`, inherited from `Map`. */
    method Has(key: K) returns (r: bool)
      ensures r <==> key in entries
    {
      r := key in entries;
    }

    /** `get`, inherited from `Map`: `undefined` for an absent key. */
    method Get(key: K) returns (r: Option<V>)
      ensures key in entries ==> r == Some(entries[key])
      ensures key !in entries ==> r == None
    {
      r := if key in entries then Some(entries[key]) else None;
    }

    /** `delete`, inherited from `Map`: removing an absent key changes nothing. */
    method Delete(key: K)
      modifies this
      ensures entries == old(entries) - {key}
      ensures key !in old(entries) ==> entries == old(entries)
      ensures old(Valid()) ==> Valid()
    {
      entries := entries - {key};
    }
  }
}
