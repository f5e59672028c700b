/**
 The in-memory cache: a map with lazy expiry. A lifetime that is missing or not
 positive means the entry never expires.
 */
module CacheService {
  import opened Options

  datatype CacheEntry<+V> = CacheEntry(value: V, expiresAt: Option<real>)

  /** The lifetime used when nothing better is known: an hour. */
  const DEFAULT_TTL_MS := 3600000.0

  predicate Expired<V>(e: CacheEntry<V>, now: real) {
    e.expiresAt.Some? && now > e.expiresAt.value
  }

  /** What a reader sees at `now`. */
  function Live<K, V>(entries: map<K, CacheEntry<V>>, key: K, now: real): Option<V> {
    if key in entries && !Expired(entries[key], now) then Some(entries[key].value) else None
  }

  function ExpiryOf(ttlMs: Option<real>, now: real): Option<real> {
    if ttlMs.Some? && ttlMs.value > 0.0 then Some(now + ttlMs.value) else None
  }

  class InMemoryCache<K(==), V> {
    var entries: map<K, CacheEntry<V>>

    constructor ()
      ensures entries == map[]
    {
      entries := map[];
    }

    /** Read an entry; an expired one is removed and reads as a miss. */
    method Get(key: K, now: real) returns (r: Option<V>)
      modifies this
      ensures r == Live(old(entries), key, now)
      ensures entries == if r.None? then old(entries) - {key} else old(entries)
    {
      if key !in entries {
        assert entries - {key} == entries;
        return None;
      }
      var entry := entries[key];
      if entry.expiresAt.Some? && now > entry.expiresAt.value {
        entries := entries - {key};
        return None;
      }
      r := Some(entry.value);
    }

    method Set(key: K, value: V, ttlMs: Option<real>, now: real)
      modifies this
      ensures entries == old(entries)[key := CacheEntry(value, ExpiryOf(ttlMs, now))]
    {
      var expiresAt := if ttlMs.Some? && ttlMs.value > 0.0 then Some(now + ttlMs.value) else None;
      entries := entries[key := CacheEntry(value, expiresAt)];
    }
  }

  /** An entry is readable up to its lifetime and not after; without a positive lifetime, for ever. */
  lemma LifetimeOf<K, V>(entries: map<K, CacheEntry<V>>, key: K, value: V, ttlMs: Option<real>, now: real, later: real)
    ensures Live(entries[key := CacheEntry(value, ExpiryOf(ttlMs, now))], key, later) ==
            if ttlMs.Some? && 0.0 < ttlMs.value < later - now then None else Some(value)
  {
  }
}
