/** The in-memory cache: a map of entries, each locked region one method. */
module MemCache {
  import opened Values
  import opened CacheSteps

  class Store {
    var entries: map<string, Entry>

    constructor ()
      ensures entries == map[]
    {
      entries := map[];
    }

    /** The locked read of Get and its expiry check; a `Stale` answer owes an eviction. */
    method ReadEntry(key: string, now: int) returns (r: Answer)
      ensures r == Apply(entries, CacheSteps.Read(key, now)).1
    {
      if key !in entries {
        return Miss;
      }
      var entry := entries[key];
      if entry.expiresAt != ZERO_TIME && now > entry.expiresAt {
        return Stale;
      }
      return Hit(entry.value);
    }

    /** The locked delete, both of a caller and of a Get that met an expired entry. */
    method Delete(key: string)
      modifies this
      ensures entries == Apply(old(entries), CacheSteps.Delete(key)).0
      ensures entries == Apply(old(entries), CacheSteps.Evict(key)).0
    {
      entries := entries - {key};
    }

    method Get(key: string, now: int) returns (r: Answer)
      modifies this
      ensures (entries, r) == Whole(old(entries), CacheSteps.Read(key, now))
    {
      r := ReadEntry(key, now);
      if r == Stale {
        Delete(key);
        r := Miss;
      }
    }

    method Set(key: string, value: Bytes, ttl: int, now: int)
      modifies this
      ensures (entries, Done) == Whole(old(entries), CacheSteps.Set(key, value, ttl, now))
    {
      var entry := Entry(value, ZERO_TIME);
      if ttl > 0 {
        entry := entry.(expiresAt := now + ttl);
      }
      entries := entries[key := entry];
    }

    /** The clock is read twice: for the expiry check and for the new expiry. */
    method CompareAndSet(key: string, expected: Option<Bytes>, value: Bytes, ttl: int, now: int, later: int) returns (ok: bool)
      modifies this
      ensures (entries, Swapped(ok)) == Whole(old(entries), CacheSteps.CompareAndSet(key, expected, value, ttl, now, later))
    {
      if key !in entries {
        if expected != None {
          return false;
        }
      } else {
        var entry := entries[key];
        if entry.expiresAt != ZERO_TIME && now > entry.expiresAt {
          entries := entries - {key};
          if expected != None {
            return false;
          }
        } else if !EqualBytes(entry.value, expected) {
          return false;
        }
      }
      var newEntry := Entry(value, ZERO_TIME);
      if ttl > 0 {
        newEntry := newEntry.(expiresAt := later + ttl);
      }
      entries := entries[key := newEntry];
      assert entries == old(entries)[key := newEntry];
      return true;
    }
  }
}
