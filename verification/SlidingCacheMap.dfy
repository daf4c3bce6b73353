/** A clock that any reading may find further along, never behind. */
module Clocks {

  class Clock {
    var time: int

    constructor () {
      time := 0;
    }

    method Now() returns (now: int)
      modifies this
      ensures old(time) <= now == time
    {
      var elapsed: nat :| elapsed >= 0;
      time := time + elapsed;
      now := time;
    }
  }
}

/**
 * The class SlidingCacheMap: a map from keys to entries that slide their expiry when they are read and that
 * are evicted by whichever operation happens to meet them expired. The ghost history records the operations
 * and the clock readings they took, so that the lemmas about histories apply to the object.
 */
module SlidingCacheMaps {

  import opened Options
  import opened Clocks
  import opened SlidingCache

  const DEFAULT_EXPIRATION_MS: Time := 15 * 60 * 1000

  class SlidingCacheMap<K(==), V> {

    var cache: Cache<K, V>
    const clock: Clock
    ghost var history: seq<Event<K, V>>

    ghost predicate Valid()
      reads this, clock
    {
      && InOrder(history)
      && cache == After(history, |history|)
      && (history != [] ==> history[|history| - 1].later <= clock.time)
    }

    // When each key was last touched, as the map that never evicts remembers it.
    ghost function Touches(): Stamps<K, V>
      reads this
    {
      RefAfter(history, |history|)
    }

    constructor (clock: Clock)
      ensures Valid() && this.clock == clock && cache == map[] && history == []
    {
      this.clock := clock;
      cache := map[];
      history := [];
    }

    // Appends an event to the history once its effect on the cache has been carried out.
    ghost method Record(e: Event<K, V>, before: Cache<K, V>)
      requires InOrder(history) && before == After(history, |history|) && cache == Step(before, e)
      requires history != [] ==> history[|history| - 1].later <= e.now
      requires e.now <= e.later <= clock.time
      modifies this`history
      ensures history == old(history) + [e] && Valid()
    {
      AfterExtends(history, e, |history|);
      history := history + [e];
    }

    method PutDefault(key: K, value: V)
      requires Valid()
      modifies this, clock
      ensures Valid() && old(clock.time) <= clock.time
      ensures cache == Step(old(cache), Event(Put(key, value, DEFAULT_EXPIRATION_MS), clock.time, clock.time))
      ensures history == old(history) + [Event(Put(key, value, DEFAULT_EXPIRATION_MS), clock.time, clock.time)]
    {
      PutEntry(key, value, DEFAULT_EXPIRATION_MS);
    }

    method PutEntry(key: K, value: V, ttl: Time)
      requires Valid()
      modifies this, clock
      ensures Valid() && old(clock.time) <= clock.time
      ensures cache == Step(old(cache), Event(Put(key, value, ttl), clock.time, clock.time))
      ensures history == old(history) + [Event(Put(key, value, ttl), clock.time, clock.time)]
    {
      ghost var before := cache;
      var now := clock.Now();
      var expiryTime := now + ttl;
      cache := cache[key := Entry(value, expiryTime, ttl)];
      Record(Event(Put(key, value, ttl), now, now), before);
    }

    method PutEntryIfAbsent(key: K, value: V, ttl: Time) returns (ghost e: Event<K, V>)
      requires Valid()
      modifies this, clock
      ensures Valid() && old(clock.time) <= e.now <= e.later == clock.time && e.op == PutIfAbsent(key, value, ttl)
      ensures cache == Step(old(cache), e) && history == old(history) + [e]
    {
      ghost var before := cache;
      var now := clock.Now();
      if key in cache && cache[key].expiry > now {
        cache := cache[key := cache[key].(expiry := now + cache[key].ttl)];
        e := Event(PutIfAbsent(key, value, ttl), now, now);
        Record(e, before);
        return;
      }
      var later := clock.Now();
      var expiryTime := later + ttl;
      cache := cache[key := Entry(value, expiryTime, ttl)];
      e := Event(PutIfAbsent(key, value, ttl), now, later);
      Record(e, before);
    }

    method GetValue(key: K) returns (value: Option<V>)
      requires Valid()
      modifies this, clock
      ensures Valid() && old(clock.time) <= clock.time
      ensures cache == Step(old(cache), Event(Get(key), clock.time, clock.time))
      ensures history == old(history) + [Event(Get(key), clock.time, clock.time)]
      ensures Value(value) == Answers(old(cache), Event(Get(key), clock.time, clock.time))
    {
      ghost var before := cache;
      var now := clock.Now();
      value := None;
      if key in cache {
        if cache[key].expiry > now {
          cache := cache[key := cache[key].(expiry := now + cache[key].ttl)];
          value := Some(cache[key].value);
        } else {
          cache := cache - {key};
        }
      }
      Record(Event(Get(key), now, now), before);
    }

    method FindKey(key: K) returns (found: bool)
      requires Valid()
      modifies this, clock
      ensures Valid() && old(clock.time) <= clock.time
      ensures cache == Step(old(cache), Event(Find(key), clock.time, clock.time))
      ensures history == old(history) + [Event(Find(key), clock.time, clock.time)]
      ensures found == Fresh(old(cache), key, clock.time)
    {
      ghost var before := cache;
      var now := clock.Now();
      found := false;
      if key in cache {
        if cache[key].expiry > now {
          cache := cache[key := cache[key].(expiry := now + cache[key].ttl)];
          found := true;
        } else {
          cache := cache - {key};
        }
      }
      Record(Event(Find(key), now, now), before);
    }

    // Exactly the entries that had expired before are gone, and the others are as they were.
    method CountEntries() returns (count: nat)
      requires Valid()
      modifies this, clock
      ensures Valid() && old(clock.time) <= clock.time
      ensures cache == Step(old(cache), Event(Size, clock.time, clock.time))
      ensures history == old(history) + [Event(Size, clock.time, clock.time)]
      ensures Count(count) == Answers(old(cache), Event(Size, clock.time, clock.time))
      ensures Swept(old(cache), cache, clock.time)
    {
      hide Swept, InOrder, After;
      ghost var before := cache;
      var now := clock.Now();
      var pending := cache.Keys;
      while pending != {}
        invariant pending <= cache.Keys <= before.Keys
        invariant forall k :: k in cache ==> cache[k] == before[k]
        invariant forall k :: k in before && k !in pending ==> (k in cache <==> !(before[k].expiry < now))
        invariant history == old(history) && clock.time == now
        decreases |pending|
      {
        var k :| k in pending;
        pending := pending - {k};
        if cache[k].expiry < now {
          cache := cache - {k};
        }
      }
      assert cache == Retained(before, now);
      RetainingSweeps(before, now);
      count := |cache|;
      Record(Event(Size, now, now), before);
    }

    method ClearAll()
      requires Valid()
      modifies this
      ensures Valid() && cache == map[] && history == old(history) + [Event(Clear, clock.time, clock.time)]
    {
      ghost var before := cache;
      cache := map[];
      Record(Event(Clear, clock.time, clock.time), before);
    }

    method DeleteKey(key: K)
      requires Valid()
      modifies this
      ensures Valid() && cache == old(cache) - {key}
      ensures history == old(history) + [Event(Delete(key), clock.time, clock.time)]
    {
      ghost var before := cache;
      cache := cache - {key};
      Record(Event(Delete(key), clock.time, clock.time), before);
    }
  }
}
