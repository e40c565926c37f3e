/**
 internal/cache/cache.go: the LRU list and the map into it, updated in place.  Each method is proved to
 take the step of CacheModel that its name says, and to keep list and map in step.
 */
module LruCache {
  import opened Policy
  import opened CacheModel

  // ----- the list and the map into it

  /** The map holds exactly the entries of the list, each under its own key, and no key is listed twice. */
  ghost predicate InStep<P>(ll: seq<Entry<P>>, items: map<Key, Entry<P>>) {
    && DistinctKeys(ll)
    && (forall i :: 0 <= i < |ll| ==> ll[i].key in items && items[ll[i].key] == ll[i])
    && (forall k :: k in items ==> items[k] in ll && items[k].key == k)
  }

  lemma WithoutInStep<P>(ll: seq<Entry<P>>, items: map<Key, Entry<P>>, i: nat)
    requires InStep(ll, items) && i < |ll|
    ensures InStep(RemoveAt(ll, i), items - {ll[i].key})
  {
    var r, m := RemoveAt(ll, i), items - {ll[i].key};
    assert forall j :: 0 <= j < |r| ==> r[j] == ll[if j < i then j else j + 1];
    forall k | k in m
      ensures m[k] in r
    {
      var j :| 0 <= j < |ll| && ll[j] == items[k];
      assert r[if j < i then j else j - 1] == m[k];
    }
  }

  lemma PushInStep<P>(ll: seq<Entry<P>>, items: map<Key, Entry<P>>, e: Entry<P>)
    requires InStep(ll, items) && e.key !in items
    ensures InStep([e] + ll, items[e.key := e])
  {
    var r, m := [e] + ll, items[e.key := e];
    assert forall j :: 1 <= j < |r| ==> r[j] == ll[j - 1];
    assert r[0] == e;
    assert forall x :: x in ll ==> x in r;
  }

  /** Replacing the entry of a listed key and moving it to the front. */
  lemma FrontInStep<P>(ll: seq<Entry<P>>, items: map<Key, Entry<P>>, i: nat, e: Entry<P>)
    requires InStep(ll, items) && i < |ll| && e.key == ll[i].key
    ensures InStep([e] + RemoveAt(ll, i), items[e.key := e])
  {
    WithoutInStep(ll, items, i);
    PushInStep(RemoveAt(ll, i), items - {e.key}, e);
    assert (items - {e.key})[e.key := e] == items[e.key := e];
  }

  lemma MapFindsPlace<P>(ll: seq<Entry<P>>, items: map<Key, Entry<P>>, key: Key)
    requires InStep(ll, items)
    ensures key in items <==> Position(ll, key) < |ll|
    ensures key in items ==> ll[Position(ll, key)] == items[key]
  {
    var i := Position(ll, key);
    if key in items {
      var j :| 0 <= j < |ll| && ll[j] == items[key];
      assert i <= j;
    }
  }

  /** The map has as many keys as the list has entries. */
  lemma {:induction false} InStepSize<P>(ll: seq<Entry<P>>, items: map<Key, Entry<P>>)
    requires InStep(ll, items)
    ensures |items| == |ll|
  {
    if ll == [] {
      assert items == map[];
    } else {
      WithoutInStep(ll, items, 0);
      InStepSize(RemoveAt(ll, 0), items - {ll[0].key});
      assert items.Keys == (items - {ll[0].key}).Keys + {ll[0].key};
      assert |items| == |items.Keys| && |items - {ll[0].key}| == |(items - {ll[0].key}).Keys|;
    }
  }

  /** A coalesced lookup: its value once there is one, and whether its channel has been closed. */
  class Flight<P(!new)> {
    var v: Option<Value<P>>
    var done: bool

    constructor ()
      ensures v == None && !done
    {
      v, done := None, false;
    }
  }

  class Cache<P(!new)> {
    const maxEntries: nat
    var ll: seq<Entry<P>>              // front = most recently used
    var items: map<Key, Entry<P>>
    var flights: map<Key, Flight<P>>   // lookups in progress
    var clock: Time                    // the last reading of the injected clock
    var hits: nat
    var misses: nat
    var evictions: nat
    ghost var gets: nat                // calls of Get
    ghost var unserved: nat            // hits that were not served
    ghost var inserted: nat            // entries ever pushed
    ghost var flushed: nat             // entries dropped by Flush

    /** List and map are in step and within capacity; every Get was a hit or a miss, and unserved hits are misses too; every entry pushed is listed, or was evicted, or flushed. */
    ghost predicate Valid()
      reads this
    {
      && InStep(ll, items) && |ll| <= maxEntries
      && gets + unserved == hits + misses
      && inserted == |ll| + evictions + flushed
    }

    constructor (maxEntries: nat, start: Time)
      ensures Valid() && ll == [] && flights == map[] && this.maxEntries == maxEntries && clock == start
      ensures hits == misses == evictions == 0
    {
      this.maxEntries := maxEntries;
      ll, items, flights, clock := [], map[], map[], start;
      hits, misses, evictions := 0, 0, 0;
      gets, unserved, inserted, flushed := 0, 0, 0, 0;
    }

    /** A reading of the clock, which never goes back. */
    method Now() returns (t: Time)
      modifies this`clock
      ensures t == clock && clock >= old(clock)
    {
      var passed: int :| passed >= 0;
      clock := clock + passed;
      t := clock;
    }

    /** `remove` of the entry at place i: out of the map and out of the list. */
    method Remove(i: nat)
      requires i < |ll| && InStep(ll, items)
      modifies this`ll, this`items
      ensures InStep(ll, items) && ll == RemoveAt(old(ll), i)
    {
      WithoutInStep(ll, items, i);
      items := items - {ll[i].key};
      ll := RemoveAt(ll, i);
    }

    /** `MoveToFront` of the entry at place i. */
    method ToFront(i: nat)
      requires i < |ll| && InStep(ll, items)
      modifies this`ll
      ensures InStep(ll, items) && ll == MoveToFront(old(ll), i)
    {
      FrontInStep(ll, items, i, ll[i]);
      assert items[ll[i].key := ll[i]] == items;
      ll := MoveToFront(ll, i);
    }

    method Get(key: Key) returns (v: Option<Value<P>>)
      requires Valid()
      modifies this`ll, this`items, this`clock, this`hits, this`misses, this`evictions, this`gets
      ensures Valid() && clock >= old(clock) && gets == old(gets) + 1
      ensures hits == old(hits) + (if v.Some? then 1 else 0) && misses == old(misses) + (if v.Some? then 0 else 1)
      ensures evictions == old(evictions) + |old(ll)| - |ll|
      ensures v == GetResult(old(ll), key, clock)
      ensures StepOk(maxEntries, old(ll), Step(CacheModel.Get(key, clock), old(clock), clock), ll)
    {
      hide Puts, LiveOnes, ServedTTL, DistinctKeys;
      MapFindsPlace(ll, items, key);
      gets := gets + 1;
      if key !in items {
        misses := misses + 1;
        return None;
      }
      var e := items[key];
      var now := Now();
      var remaining := Sub(e.value.expires, now);
      var i := Position(ll, key);
      if remaining <= 0 {
        Remove(i);
        evictions := evictions + 1;
        misses := misses + 1;
        return None;
      }
      ToFront(i);
      hits := hits + 1;
      return Some(e.value.(ttl := ServedTTL(remaining)));
    }

    /** A hit that `Lookup` does not serve counts as a miss as well. */
    method CountMiss()
      requires Valid()
      modifies this`misses, this`unserved
      ensures Valid() && misses == old(misses) + 1
    {
      misses, unserved := misses + 1, unserved + 1;
    }

    /** The scan of `evictLocked` from the back, and its choice. */
    method ChooseVictim() returns (j: nat)
      requires |ll| > 0
      modifies this`clock
      ensures clock >= old(clock) && IsVictim(ll, j, old(clock), clock)
    {
      var i := |ll| - 1;
      while i >= 0
        invariant -1 <= i < |ll| && clock >= old(clock)
        invariant forall k :: i < k < |ll| ==> Live(ll[k], old(clock))
        decreases i
      {
        var now := Now();
        if !Live(ll[i], now) {
          return i;
        }
        i := i - 1;
      }
      j := |ll| - 1;
    }

    /** One turn of `evictLocked`. */
    method EvictOne() returns (j: nat)
      requires InStep(ll, items) && |ll| > maxEntries
      modifies this`ll, this`items, this`clock, this`evictions
      ensures InStep(ll, items) && clock >= old(clock)
      ensures DropsOne(maxEntries, old(ll), j, ll, old(clock), clock)
      ensures |ll| + 1 == |old(ll)| && evictions == old(evictions) + 1
    {
      j := ChooseVictim();
      Remove(j);
      evictions := evictions + 1;
    }

    method EvictLocked()
      requires InStep(ll, items)
      modifies this`ll, this`items, this`clock, this`evictions
      ensures InStep(ll, items) && clock >= old(clock)
      ensures Evicts(maxEntries, old(ll), ll, old(clock), clock)
      ensures |ll| + evictions == old(|ll| + evictions)
    {
      ghost var n := 0;
      while |ll| > maxEntries
        invariant InStep(ll, items) && clock >= old(clock)
        invariant Drops(maxEntries, old(ll), n, ll, old(clock), clock)
        invariant |ll| + evictions == old(|ll| + evictions)
        decreases |ll|
      {
        ghost var mid, before := ll, clock;
        var j := EvictOne();
        DropsMore(maxEntries, old(ll), n, mid, j, ll, old(clock), before, clock);
        n := n + 1;
      }
    }

    /** `setLocked`, for a value whose TTL is already set; the expiry is counted from the first reading of the clock. */
    method SetLocked(key: Key, payload: P, ttl: U32) returns (ghost at: Time)
      requires Valid()
      modifies this`ll, this`items, this`clock, this`evictions, this`inserted
      ensures Valid() && old(clock) <= at <= clock
      ensures Puts(maxEntries, old(ll), Entry(key, Value(payload, ttl, Expiry(at, ttl))), ll, at, clock)
    {
      hide Drops, GetEntries, LiveOnes, DistinctKeys;
      MapFindsPlace(ll, items, key);
      var now := Now();
      at := now;
      var e := Entry(key, Value(payload, ttl, Expiry(now, ttl)));
      if key in items {
        var i := Position(ll, key);
        FrontInStep(ll, items, i, e);
        ll := [e] + RemoveAt(ll, i);
        items := items[key := e];
        return;
      }
      PushInStep(ll, items, e);
      ll := [e] + ll;
      items := items[key := e];
      inserted := inserted + 1;
      EvictLocked();
    }

    /** `Set` */
    method Set(key: Key, payload: P, ttl: U32) returns (ghost at: Time)
      requires Valid()
      modifies this`ll, this`items, this`clock, this`evictions, this`inserted
      ensures Valid()
      ensures StepOk(maxEntries, old(ll), Step(Put(key, payload, ttl, at), old(clock), clock), ll)
    {
      at := SetLocked(key, payload, ttl);
    }

    /** `sweep`: removes what is expired at one reading of the clock. */
    method SweepExpired()
      requires Valid()
      modifies this`ll, this`items, this`clock, this`evictions
      ensures Valid() && clock >= old(clock)
      ensures StepOk(maxEntries, old(ll), Step(Sweep(clock), old(clock), clock), ll)
    {
      var now := Now();
      LiveOnesMembers(ll, now);
      SweepFromBack(now);
    }

    method SweepFromBack(now: Time)
      requires InStep(ll, items)
      modifies this`ll, this`items, this`evictions
      ensures InStep(ll, items) && ll == LiveOnes(old(ll), now)
      ensures |ll| + evictions == old(|ll| + evictions)
    {
      var i := |ll|;
      ghost var tail: seq<Entry<P>> := [];
      assert old(ll)[..i] == old(ll);
      while i > 0
        invariant 0 <= i <= |old(ll)|
        invariant InStep(ll, items) && ll == old(ll)[..i] + tail
        invariant LiveOnes(old(ll), now) == LiveOnes(old(ll)[..i], now) + tail
        invariant |ll| + evictions == old(|ll| + evictions)
      {
        i := i - 1;
        LiveOnesStep(old(ll), i, now, tail);
        tail := (if Live(ll[i], now) then [ll[i]] else []) + tail;
        SweepPlace(i, now);
      }
    }

    /** One turn of `sweep`. */
    method SweepPlace(i: nat, now: Time)
      requires InStep(ll, items) && i < |ll|
      modifies this`ll, this`items, this`evictions
      ensures InStep(ll, items) && ll == (if Live(old(ll)[i], now) then old(ll) else RemoveAt(old(ll), i))
      ensures |ll| + evictions == old(|ll| + evictions)
    {
      if !Live(ll[i], now) {
        Remove(i);
        evictions := evictions + 1;
      }
    }

    method FlushAll()
      requires Valid()
      modifies this`ll, this`items, this`flushed
      ensures Valid() && StepOk(maxEntries, old(ll), Step(Flush, clock, clock), ll)
    {
      flushed := flushed + |ll|;
      ll, items := [], map[];
    }

    // ----- the three steps of `Do` under the mutex, and the channel

    /** First critical section of `Do`: join the flight registered for the key, or register a new one and lead it. */
    method Enter(key: Key) returns (f: Flight<P>, leads: bool)
      requires Valid()
      modifies this`flights
      ensures Valid()
      ensures leads <==> key !in old(flights)
      ensures leads ==> fresh(f) && f.v == None && !f.done && flights == old(flights)[key := f]
      ensures !leads ==> f == old(flights)[key] && flights == old(flights)
    {
      if key in flights {
        return flights[key], false;
      }
      f := new Flight();
      flights := flights[key := f];
      leads := true;
    }

    /** Second critical section of `Do`: publish the value, unregister, store if cacheable; done is not closed yet. */
    method Leave(key: Key, f: Flight<P>, v: Value<P>, cacheable: bool) returns (ghost at: Time)
      requires Valid()
      modifies f`v, this`flights, this`ll, this`items, this`clock, this`evictions, this`inserted
      ensures Valid() && f.v == Some(v) && flights == old(flights) - {key} && old(clock) <= at <= clock
      ensures if cacheable then Puts(maxEntries, old(ll), Entry(key, Value(v.payload, v.ttl, Expiry(at, v.ttl))), ll, at, clock)
              else ll == old(ll)
    {
      f.v := Some(v);
      flights := flights - {key};
      at := clock;
      if cacheable {
        at := SetLocked(key, v.payload, v.ttl);
      }
    }

    /** The number of keys the cache has an entry for, which never exceeds the capacity. */
    method Len() returns (n: nat)
      requires Valid()
      ensures n == |items| <= maxEntries
    {
      InStepSize(ll, items);
      n := |ll|;
    }
  }

  /** One turn of the sweep at place i, with `tail` behind it. */
  lemma LiveOnesStep<P>(es: seq<Entry<P>>, i: nat, t: Time, tail: seq<Entry<P>>)
    requires i < |es|
    ensures var more := (if Live(es[i], t) then [es[i]] else []) + tail; var here := es[..i + 1] + tail;
            && here[i] == es[i]
            && LiveOnes(es[..i + 1], t) + tail == LiveOnes(es[..i], t) + more
            && es[..i] + more == if Live(es[i], t) then here else RemoveAt(here, i)
  {
    assert es[..i + 1][..i] == es[..i];
  }
}
