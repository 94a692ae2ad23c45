/**
 * The response cache in front of the aggregate views (`api_cache` with
 * `get_cached_response`, `set_cached_response` and `invalidate_cache`).
 * The wall clock `time.time()` is an explicit `now` argument, in seconds.
 */
module ResponseCache {
  import opened Wrappers

  /** `CACHE_DURATION`: a cached value is served while it is younger than this. */
  const CacheDuration: real := 60.0

  /** One slot: the cached value (`None` when cleared) and when it was stored. */
  datatype Slot<V> = Slot(data: Option<V>, timestamp: real)

  class Cache<V> {
    var slots: map<string, Slot<V>>

    /** The module-level initial value: two empty slots with timestamp 0. */
    constructor ()
      ensures slots == map["leaderboard" := Slot(None, 0.0), "list" := Slot(None, 0.0)]
    {
      slots := map["leaderboard" := Slot(None, 0.0), "list" := Slot(None, 0.0)];
    }

    /** `get_cached_response(key)` at time `now`: a hit only for a present,
        non-null value stored less than `CacheDuration` seconds before `now`. */
    function Get(key: string, now: real): (r: Option<V>)
      reads this
      ensures r.Some? <==> key in slots && slots[key].data.Some? && now - slots[key].timestamp < CacheDuration
      ensures r.Some? ==> r.value == slots[key].data.value
    {
      if key in slots && slots[key].data.Some? && now - slots[key].timestamp < CacheDuration
      then slots[key].data
      else None
    }

    /** `set_cached_response(key, data)` at time `now`: overwrites the slot.
        Afterwards `Get(key, t)` returns `data` exactly while `t - now < 60`;
        other keys are unaffected. */
    method Set(key: string, data: V, now: real)
      modifies this
      ensures slots == old(slots)[key := Slot(Some(data), now)]
      ensures forall t :: t - now < CacheDuration ==> Get(key, t) == Some(data)
      ensures forall t :: t - now >= CacheDuration ==> Get(key, t) == None
      ensures forall k, t :: k != key ==> Get(k, t) == old(Get(k, t))
    {
      slots := slots[key := Slot(Some(data), now)];
    }

    /** `invalidate_cache()`: every existing slot is reset to no value and
        timestamp 0, so no key hits at any time until it is set again. */
    method Invalidate()
      modifies this
      ensures slots.Keys == old(slots).Keys
      ensures forall k :: k in slots ==> slots[k] == Slot(None, 0.0)
      ensures forall k, t :: Get(k, t) == None
    {
      slots := map k | k in slots :: Slot(None, 0.0);
    }
  }

  /** The cache checks of the project's own test script, on an explicit clock. */
  method CacheScenario<V>(v: V, start: real)
  {
    var cache := new Cache<V>();
    cache.Set("test_key", v, start);
    assert cache.Get("test_key", start) == Some(v);
    assert cache.Get("test_key", start + 59.0) == Some(v);
    assert cache.Get("test_key", start + 60.0) == None;
    cache.Invalidate();
    assert cache.Get("test_key", start) == None;
  }
}
