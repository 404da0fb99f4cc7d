/** The process-wide cache in front of the spreadsheet: a map from a dataset
    name to the value last stored under it and the time it was stored. The
    time-to-live is chosen by each reader, not stored with the entry. */
module TtlCache {
  import opened Wrappers

  /** What `set_cache` stores: the data and the clock reading at the write. */
  datatype Entry<V> = Entry(data: V, storedAt: real)

  class Cache<V> {
    var entries: map<string, Entry<V>>

    /** The empty cache the process starts with. */
    constructor ()
      ensures entries == map[]
    {
      entries := map[];
    }

    /** `get_cached(key, ttl)` at clock reading `now`: the stored data when an
        entry exists and is at most `ttl` seconds old, otherwise None. Reading
        never changes the cache. */
    function Get(key: string, ttl: int, now: real): (r: Option<V>)
      reads this
      ensures r.Some? <==> key in entries && now - entries[key].storedAt <= ttl as real
      ensures r.Some? ==> r.value == entries[key].data
    {
      if key !in entries then None
      else if now - entries[key].storedAt > ttl as real then None
      else Some(entries[key].data)
    }

    /** `set_cache(key, data)` at clock reading `now`: replaces the entry for
        `key`, whatever it held, and leaves every other key alone. Afterwards
        a read of `key` returns `data` exactly while no more than its TTL has
        elapsed since `now`. */
    method Set(key: string, data: V, now: real)
      modifies this
      ensures entries == old(entries)[key := Entry(data, now)]
      ensures forall ttl: int, t: real ::
                Get(key, ttl, t) == if t - now <= ttl as real then Some(data) else None
      ensures forall k, ttl: int, t: real :: k != key ==> Get(k, ttl, t) == old(Get(k, ttl, t))
    {
      entries := entries[key := Entry(data, now)];
    }
  }

  /** Expiry is final: once an entry reads as absent, it stays absent at every
      later clock reading until it is written again. */
  lemma ExpiredStaysExpired<V>(c: Cache<V>, key: string, ttl: int, t1: real, t2: real)
    requires t1 <= t2 && c.Get(key, ttl, t1).None?
    ensures c.Get(key, ttl, t2).None?
  {
  }

  /** A read with a longer TTL finds at least what a read with a shorter TTL
      finds, and finds the same data. */
  lemma LongerTtlStillHits<V>(c: Cache<V>, key: string, ttl1: int, ttl2: int, now: real)
    requires ttl1 <= ttl2 && c.Get(key, ttl1, now).Some?
    ensures c.Get(key, ttl2, now) == c.Get(key, ttl1, now)
  {
  }
}
