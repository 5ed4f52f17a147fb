/**
  `ReferenceManager` itself: the dictionaries are fields that the methods update entry by entry.
  Each method runs under the manager's lock, so it is one step; the clock is a parameter.
*/
module ReferenceManagers {
  import opened Common
  import opened Sorting
  import opened ReferenceCache

  lemma {:induction false} WithoutTwice(s: seq<string>, a: set<string>, b: set<string>)
    ensures Without(Without(s, a), b) == Without(s, a + b)
  {
    if |s| != 0 {
      var head, last := s[..|s| - 1], s[|s| - 1];
      WithoutTwice(head, a, b);
      if last in a {
        assert Without(s, a) == Without(head, a);
      } else {
        assert Without(s, a)[..|Without(head, a)|] == Without(head, a);
      }
    }
  }

  lemma DeleteTwice(c: Cache, a: set<string>, b: set<string>)
    ensures Delete(Delete(c, a), b) == Delete(c, a + b)
  {
    WithoutTwice(c.order, a, b);
    assert c.values - a - b == c.values - (a + b);
    assert c.stamps - a - b == c.stamps - (a + b);
  }

  lemma DeleteNone(c: Cache)
    ensures Delete(c, {}) == c
  {
    NothingDeleted(c.order);
    assert c.values - {} == c.values && c.stamps - {} == c.stamps;
  }

  class ReferenceManager {
    const ttl: real
    const maxCacheSize: int
    var cache: map<string, Obj>
    var timestamps: map<string, real>
    /** The insertion order of the timestamp dictionary. */
    var order: seq<string>

    function State(): Cache
      reads this
    {
      Cache(cache, timestamps, order)
    }

    constructor (ttl: real, maxCacheSize: int)
      ensures this.ttl == ttl && this.maxCacheSize == maxCacheSize
      ensures State() == Empty && WellFormed(State())
    {
      this.ttl, this.maxCacheSize := ttl, maxCacheSize;
      cache, timestamps, order := map[], map[], [];
    }

    method DeleteEntry(key: string)
      requires key in cache && key in timestamps
      modifies this
      ensures State() == Delete(old(State()), {key})
    {
      cache, timestamps, order := cache - {key}, timestamps - {key}, Without(order, {key});
    }

    method CacheGet(key: string, now: real) returns (r: Option<Obj>)
      requires WellFormed(State())
      modifies this
      ensures WellFormed(State())
      ensures (State(), r) == Get(old(State()), key, now, ttl)
    {
      if key in cache && key in timestamps && now - timestamps[key] < ttl {
        return Some(cache[key]);
      }
      if key in cache {
        DeleteWellFormed(State(), {key});
        DeleteEntry(key);
      }
      return None;
    }

    method CacheSet(key: string, value: Obj, now: real)
      requires WellFormed(State())
      modifies this
      ensures State() == Set(old(State()), key, value, now, maxCacheSize)
      ensures WellFormed(State()) && cache.Keys == timestamps.Keys
      ensures 5 <= maxCacheSize && |old(cache)| <= maxCacheSize && NothingNewer(old(State()), now) ==>
                |cache| <= maxCacheSize && key in cache && cache[key] == value
    {
      hide Sorted, Without, Evicted;
      SetWellFormed(State(), key, value, now, maxCacheSize);
      ghost var before := State();
      if key !in timestamps {
        order := order + [key];
      }
      cache := cache[key := value];
      timestamps := timestamps[key := now];
      ghost var p := State();
      PutWellFormed(before, key, value, now);
      assert p == Put(before, key, value, now);
      if |cache| > maxCacheSize {
        EvictOldest();
      }
      if 5 <= maxCacheSize && |before.values| <= maxCacheSize && NothingNewer(before, now) {
        SetKeepsBoundAndKey(before, key, value, now, maxCacheSize);
      }
    }

    method EvictOldest()
      requires WellFormed(State())
      modifies this
      ensures State() == Delete(old(State()), Keys(Evicted(old(State()), maxCacheSize)))
    {
      hide Sorted, Without, Delete, WellFormed;
      ghost var p := State();
      var victims := Evicted(State(), maxCacheSize);
      VictimsAreThere(p, maxCacheSize);
      DeleteNone(p);
      assert Keys(victims[..0]) == {};
      for i := 0 to |victims|
        invariant State() == Delete(p, Keys(victims[..i]))
      {
        StillThere(p, victims, i);
        DeleteEntry(victims[i]);
      }
      assert victims[..|victims|] == victims;
    }

    method InvalidateCache(pattern: Option<string>)
      requires WellFormed(State())
      modifies this
      ensures State() == Invalidated(old(State()), pattern) && WellFormed(State())
    {
      hide Without, Delete, WellFormed, Occurs;
      ghost var c := State();
      if pattern == None {
        cache, timestamps, order := map[], map[], [];
        EmptyIsWellFormed();
        return;
      }
      DeleteWellFormed(c, Matching(c, pattern.value));
      var keysToRemove := Matching(State(), pattern.value);
      ghost var done: set<string> := {};
      DeleteNone(c);
      while keysToRemove != {}
        invariant done !! keysToRemove && done + keysToRemove == Matching(c, pattern.value)
        invariant State() == Delete(c, done)
        decreases |keysToRemove|
      {
        var key :| key in keysToRemove;
        NotDeletedYet(c, done, key);
        DeleteTwice(c, done, {key});
        DeleteEntry(key);
        keysToRemove, done := keysToRemove - {key}, done + {key};
      }
      assert done == Matching(c, pattern.value);
    }

    /** The five `get_*_object` lookups, which differ in the kind only. */
    method GetObject(kind: Kind, id: string, store: Store, fails: bool, now: real) returns (r: Option<Obj>)
      requires WellFormed(State())
      modifies this
      ensures WellFormed(State())
      ensures (State(), r) == Lookup(old(State()), kind, id, store, fails, now, ttl, maxCacheSize)
    {
      hide Set, Get, WellFormed;
      var key := KeyOf(kind, id);
      var cached := CacheGet(key, now);
      if cached.Some? {
        return cached;
      }
      if fails || (kind, id) !in store {
        return None;
      }
      var value := store[(kind, id)];
      CacheSet(key, value, now);
      return Some(value);
    }
  }

  lemma EmptyIsWellFormed()
    ensures WellFormed(Empty)
  {
  }

  lemma NotDeletedYet(c: Cache, done: set<string>, key: string)
    requires WellFormed(c) && key in c.values && key !in done
    ensures key in Delete(c, done).values && key in Delete(c, done).stamps
  {
  }

  ghost predicate DistinctKeysOf(victims: seq<string>, c: Cache) {
    && (forall i :: 0 <= i < |victims| ==> victims[i] in c.values)
    && (forall i, j :: 0 <= i < j < |victims| ==> victims[i] != victims[j])
  }

  lemma VictimsAreThere(p: Cache, max: int)
    requires WellFormed(p)
    ensures DistinctKeysOf(Evicted(p, max), p)
  {
    hide Sorted;
    SortedOrder(p);
    var s, e := Sorted(p.order, Age(p)), Evicted(p, max);
    assert e <= s;
    forall i | 0 <= i < |e|
      ensures e[i] in p.values
    {
      assert s[i] in s;
    }
  }

  lemma StillThere(p: Cache, victims: seq<string>, i: nat)
    requires WellFormed(p) && i < |victims| && DistinctKeysOf(victims, p)
    ensures var d := Delete(p, Keys(victims[..i]));
            && victims[i] in d.values && victims[i] in d.stamps
            && Delete(d, {victims[i]}) == Delete(p, Keys(victims[..i + 1]))
  {
    hide Without, Delete;
    NotDeletedYet(p, Keys(victims[..i]), victims[i]);
    DeleteTwice(p, Keys(victims[..i]), {victims[i]});
    assert Keys(victims[..i + 1]) == Keys(victims[..i]) + {victims[i]};
  }

  /** Invalidation removes exactly the keys that contain the pattern, and leaves every other entry as it was. */
  lemma InvalidatedKeys(c: Cache, pattern: Option<string>, key: string)
    requires WellFormed(c)
    ensures key in Invalidated(c, pattern).values <==>
            key in c.values && pattern.Some? && !Occurs(pattern.value, key)
    ensures key in Invalidated(c, pattern).values ==>
              Invalidated(c, pattern).values[key] == c.values[key] &&
              key in Invalidated(c, pattern).stamps && Invalidated(c, pattern).stamps[key] == c.stamps[key]
  {
  }

  /** Invalidating with the prefix of a kind drops every object of that kind. */
  lemma PrefixInvalidatesKind(c: Cache, kind: Kind, pattern: string, id: string)
    requires WellFormed(c)
    requires (kind, pattern) in {(Environment, "env_obj_"), (TestFunction, "tf_obj_"), (TestParameter, "tp_obj_"),
                                 (Kind.Vm, "vm_obj_"), (VmInstance, "vmi_obj_")}
    ensures KeyOf(kind, id) !in Invalidated(c, Some(pattern)).values
  {
    OccursIff(pattern, KeyOf(kind, id));
    assert KeyOf(kind, id) == "" + pattern + id;
    InvalidatedKeys(c, Some(pattern), KeyOf(kind, id));
  }
}
