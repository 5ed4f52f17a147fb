/**
  Runs of the reference manager over a store that others change, with a clock that never runs
  backwards, and the class whose methods update the dictionaries in place.
*/
module ReferenceRuns {
  import opened Common
  import opened ReferenceCache

  datatype Event =
    | Write(kind: Kind, id: string, item: Option<Obj>)
    | Tick(elapsed: real)
    | Request(kind: Kind, id: string, fails: bool)
    | Clear(pattern: Option<string>)

  /** What a run leaves in the record: changes of the store, objects taken from it, invalidations. */
  datatype Record =
    | Stored(kind: Kind, id: string, item: Option<Obj>)
    | Fetched(kind: Kind, id: string, value: Obj, time: real)
    | Cleared(pattern: Option<string>)

  datatype World = World(cache: Cache, store: Store, now: real, log: seq<Record>)

  function Stores(store: Store, kind: Kind, id: string, item: Option<Obj>): Store {
    if item.Some? then store[(kind, id) := item.value] else store - {(kind, id)}
  }

  predicate Possible(e: Event) { e.Tick? ==> 0.0 <= e.elapsed }

  /** One event and, for a request, its answer. */
  function Happen(w: World, e: Event, ttl: real, max: int): (World, Option<Obj>) {
    match e
    case Write(kind, id, item) =>
      (w.(store := Stores(w.store, kind, id, item), log := w.log + [Stored(kind, id, item)]), None)
    case Tick(elapsed) => (w.(now := w.now + elapsed), None)
    case Clear(pattern) => (w.(cache := Invalidated(w.cache, pattern), log := w.log + [Cleared(pattern)]), None)
    case Request(kind, id, fails) =>
      var (cache, answer) := Lookup(w.cache, kind, id, w.store, fails, w.now, ttl, max);
      var hit := Get(w.cache, KeyOf(kind, id), w.now, ttl).1.Some?;
      (w.(cache := cache,
          log := if hit || answer == None then w.log else w.log + [Fetched(kind, id, answer.value, w.now)]),
       answer)
  }

  /** The store after the changes in a record. */
  function StoreAfter(initial: Store, log: seq<Record>): Store {
    if |log| == 0 then initial
    else
      var before := StoreAfter(initial, log[..|log| - 1]);
      match log[|log| - 1]
      case Stored(kind, id, item) => Stores(before, kind, id, item)
      case _ => before
  }

  predicate Covers(pattern: Option<string>, key: string) { pattern == None || Occurs(pattern.value, key) }

  /**
    Record `f` is a fetch of `value` for `key` at `time`; the store held that value then, and no
    later invalidation covers the key.
  */
  ghost predicate Backed(log: seq<Record>, initial: Store, key: string, value: Obj, time: real, f: nat) {
    && f < |log|
    && log[f].Fetched? && KeyOf(log[f].kind, log[f].id) == key && log[f].value == value && log[f].time == time
    && (log[f].kind, log[f].id) in StoreAfter(initial, log[..f])
    && StoreAfter(initial, log[..f])[(log[f].kind, log[f].id)] == value
    && (forall g :: f < g < |log| ==> !(log[g].Cleared? && Covers(log[g].pattern, key)))
  }

  ghost predicate SomeBacking(log: seq<Record>, initial: Store, key: string, value: Obj, time: real) {
    exists f: nat :: Backed(log, initial, key, value, time, f)
  }

  ghost predicate AllBacked(c: Cache, log: seq<Record>, initial: Store) {
    forall k :: k in c.values ==> k in c.stamps && SomeBacking(log, initial, k, c.values[k], c.stamps[k])
  }

  ghost predicate Inv(w: World, initial: Store, max: int) {
    && WellFormed(w.cache) && WithinBound(w.cache, max) && NothingNewer(w.cache, w.now)
    && w.store == StoreAfter(initial, w.log)
    && AllBacked(w.cache, w.log, initial)
  }

  lemma BackingExtends(log: seq<Record>, r: Record, initial: Store, key: string, value: Obj, time: real)
    requires SomeBacking(log, initial, key, value, time)
    requires !(r.Cleared? && Covers(r.pattern, key))
    ensures SomeBacking(log + [r], initial, key, value, time)
  {
    hide StoreAfter;
    var f: nat :| Backed(log, initial, key, value, time, f);
    assert (log + [r])[..f] == log[..f];
    assert Backed(log + [r], initial, key, value, time, f);
  }

  lemma StoreExtends(initial: Store, log: seq<Record>, r: Record)
    ensures StoreAfter(initial, log + [r]) ==
            if r.Stored? then Stores(StoreAfter(initial, log), r.kind, r.id, r.item) else StoreAfter(initial, log)
  {
    assert (log + [r])[..|log|] == log;
  }

  lemma FetchBacks(log: seq<Record>, initial: Store, kind: Kind, id: string, value: Obj, time: real)
    requires (kind, id) in StoreAfter(initial, log) && StoreAfter(initial, log)[(kind, id)] == value
    ensures Backed(log + [Fetched(kind, id, value, time)], initial, KeyOf(kind, id), value, time, |log|)
  {
    hide StoreAfter;
    assert (log + [Fetched(kind, id, value, time)])[..|log|] == log;
  }

  lemma DeletedKeeps(w: World, initial: Store, max: int, keys: set<string>)
    requires Inv(w, initial, max)
    ensures Inv(w.(cache := Delete(w.cache, keys)), initial, max)
  {
    hide SomeBacking, StoreAfter, WellFormed, Without, AllBacked, NothingNewer;
    DeleteWellFormed(w.cache, keys);
    FewerKeys(w.cache.values, keys);
    DeleteKeepsBacking(w.cache, keys, w.log, initial, w.now);
  }

  lemma DeleteKeepsBacking(c: Cache, keys: set<string>, log: seq<Record>, initial: Store, now: real)
    requires AllBacked(c, log, initial) && NothingNewer(c, now)
    ensures AllBacked(Delete(c, keys), log, initial) && NothingNewer(Delete(c, keys), now)
  {
    hide SomeBacking, Without;
  }

  lemma FewerKeys(m: map<string, Obj>, keys: set<string>)
    ensures |m - keys| <= |m|
  {
    assert (m - keys).Keys == m.Keys - keys;
    assert m.Keys == (m.Keys - keys) + (m.Keys * keys);
  }

  lemma GetKeepsInv(w: World, initial: Store, key: string, ttl: real, max: int)
    requires Inv(w, initial, max)
    ensures Inv(w.(cache := Get(w.cache, key, w.now, ttl).0), initial, max)
  {
    hide Inv;
    if Get(w.cache, key, w.now, ttl).0 == w.cache {
      assert w.(cache := w.cache) == w;
    } else {
      DeletedKeeps(w, initial, max, {key});
    }
  }

  lemma FetchKeepsInv(w: World, initial: Store, kind: Kind, id: string, max: int)
    requires Inv(w, initial, max) && (kind, id) in w.store
    ensures var value := w.store[(kind, id)];
            Inv(w.(cache := Set(w.cache, KeyOf(kind, id), value, w.now, max),
                   log := w.log + [Fetched(kind, id, value, w.now)]), initial, max)
  {
    hide Set, SomeBacking, StoreAfter, WellFormed, Backed;
    var key, value := KeyOf(kind, id), w.store[(kind, id)];
    var c', r := Set(w.cache, key, value, w.now, max), Fetched(kind, id, value, w.now);
    SetKeepsBoundAndKey(w.cache, key, value, w.now, max);
    SameKeys(c');
    StoreExtends(initial, w.log, r);
    FetchBacks(w.log, initial, kind, id, value, w.now);
    BackedIsSome(w.log + [r], initial, key, value, w.now, |w.log|);
    forall k | k in c'.values
      ensures k in c'.stamps && SomeBacking(w.log + [r], initial, k, c'.values[k], c'.stamps[k])
    {
      if k != key {
        BackingExtends(w.log, r, initial, k, w.cache.values[k], w.cache.stamps[k]);
      }
    }
  }

  lemma SameKeys(c: Cache)
    requires WellFormed(c)
    ensures c.values.Keys == c.stamps.Keys
  {
  }

  lemma BackedIsSome(log: seq<Record>, initial: Store, key: string, value: Obj, time: real, f: nat)
    requires Backed(log, initial, key, value, time, f)
    ensures SomeBacking(log, initial, key, value, time)
  {
  }

  lemma RequestKeepsInv(w: World, initial: Store, kind: Kind, id: string, fails: bool, ttl: real, max: int)
    requires Inv(w, initial, max)
    ensures Inv(Happen(w, Request(kind, id, fails), ttl, max).0, initial, max)
  {
    hide Inv, Set, Get;
    GetKeepsInv(w, initial, KeyOf(kind, id), ttl, max);
    var (c1, hit) := Get(w.cache, KeyOf(kind, id), w.now, ttl);
    if hit == None && !fails && (kind, id) in w.store {
      FetchKeepsInv(w.(cache := c1), initial, kind, id, max);
    }
  }

  lemma ClearKeepsInv(w: World, initial: Store, pattern: Option<string>, max: int)
    requires Inv(w, initial, max)
    ensures Inv(w.(cache := Invalidated(w.cache, pattern), log := w.log + [Cleared(pattern)]), initial, max)
  {
    hide Occurs, WellFormed, Without;
    var w1 := w.(cache := Invalidated(w.cache, pattern));
    if pattern.Some? {
      DeletedKeeps(w, initial, max, Matching(w.cache, pattern.value));
    } else {
      EmptyWellFormed();
    }
    RecordClear(w1, initial, pattern, max);
  }

  lemma RecordClear(w: World, initial: Store, pattern: Option<string>, max: int)
    requires Inv(w, initial, max) && forall k :: k in w.cache.values ==> !Covers(pattern, k)
    ensures Inv(w.(log := w.log + [Cleared(pattern)]), initial, max)
  {
    hide StoreAfter, SomeBacking, Occurs, WellFormed, Covers;
    StoreExtends(initial, w.log, Cleared(pattern));
    forall k | k in w.cache.values
      ensures k in w.cache.stamps &&
              SomeBacking(w.log + [Cleared(pattern)], initial, k, w.cache.values[k], w.cache.stamps[k])
    {
      BackingExtends(w.log, Cleared(pattern), initial, k, w.cache.values[k], w.cache.stamps[k]);
    }
  }

  lemma EmptyWellFormed()
    ensures WellFormed(Empty)
  {
  }

  lemma WriteKeepsInv(w: World, initial: Store, kind: Kind, id: string, item: Option<Obj>, max: int)
    requires Inv(w, initial, max)
    ensures Inv(w.(store := Stores(w.store, kind, id, item), log := w.log + [Stored(kind, id, item)]), initial, max)
  {
    hide StoreAfter, SomeBacking, WellFormed;
    var r := Stored(kind, id, item);
    StoreExtends(initial, w.log, r);
    forall k | k in w.cache.values
      ensures k in w.cache.stamps && SomeBacking(w.log + [r], initial, k, w.cache.values[k], w.cache.stamps[k])
    {
      BackingExtends(w.log, r, initial, k, w.cache.values[k], w.cache.stamps[k]);
    }
  }

  /** Every event keeps every cached object backed by a fetch that no invalidation has covered since. */
  lemma EventKeepsInv(w: World, e: Event, initial: Store, ttl: real, max: int)
    requires Inv(w, initial, max) && Possible(e)
    ensures Inv(Happen(w, e, ttl, max).0, initial, max)
  {
    match e
    case Write(kind, id, item) => WriteKeepsInv(w, initial, kind, id, item, max);
    case Tick(_) =>
    case Clear(pattern) => ClearKeepsInv(w, initial, pattern, max);
    case Request(kind, id, fails) => RequestKeepsInv(w, initial, kind, id, fails, ttl, max);
  }

  function Run(w: World, events: seq<Event>, ttl: real, max: int): World {
    if |events| == 0 then w
    else Happen(Run(w, events[..|events| - 1], ttl, max), events[|events| - 1], ttl, max).0
  }

  lemma {:induction false} RunKeepsInv(initial: Store, start: real, events: seq<Event>, ttl: real, max: int)
    requires (forall i :: 0 <= i < |events| ==> Possible(events[i]))
    ensures Inv(Run(World(Empty, initial, start, []), events, ttl, max), initial, max)
  {
    hide Happen;
    if |events| != 0 {
      var n := |events| - 1;
      RunKeepsInv(initial, start, events[..n], ttl, max);
      EventKeepsInv(Run(World(Empty, initial, start, []), events[..n], ttl, max), events[n], initial, ttl, max);
    }
  }

  /**
    In every run: an object a lookup returns was fetched for exactly that kind and id, less than the
    time to live ago or just now, when the store held it, and no invalidation since covers its key.
  */
  lemma AnswersAreRecentStoreValues(initial: Store, start: real, events: seq<Event>, ttl: real, max: int,
                                    kind: Kind, id: string, fails: bool) returns (f: nat)
    requires (forall i :: 0 <= i < |events| ==> Possible(events[i]))
    requires var w := Run(World(Empty, initial, start, []), events, ttl, max);
             Happen(w, Request(kind, id, fails), ttl, max).1.Some?
    ensures var w := Run(World(Empty, initial, start, []), events, ttl, max);
            var (w', answer) := Happen(w, Request(kind, id, fails), ttl, max);
            && f < |w'.log| && w'.log[f].Fetched? && w'.log[f].kind == kind && w'.log[f].id == id
            && Backed(w'.log, initial, KeyOf(kind, id), answer.value, w'.log[f].time, f)
            && (w.now - w'.log[f].time < ttl || (f == |w.log| && w'.log[f].time == w.now))
  {
    hide Run, StoreAfter, Set;
    RunKeepsInv(initial, start, events, ttl, max);
    var w := Run(World(Empty, initial, start, []), events, ttl, max);
    var (w', answer) := Happen(w, Request(kind, id, fails), ttl, max);
    var key := KeyOf(kind, id);
    if Get(w.cache, key, w.now, ttl).1.Some? {
      assert SomeBacking(w.log, initial, key, answer.value, w.cache.stamps[key]);
      f :| Backed(w.log, initial, key, answer.value, w.cache.stamps[key], f);
      KeysNeverCollide(w.log[f].kind, w.log[f].id, kind, id);
    } else {
      f := |w.log|;
      FetchBacks(w.log, initial, kind, id, answer.value, w.now);
    }
  }

  /** A lookup that answers `None` had no valid entry and got nothing from the store. */
  lemma NoAnswerMeansNothingThere(w: World, initial: Store, kind: Kind, id: string, fails: bool, ttl: real, max: int)
    requires Inv(w, initial, max)
    ensures Happen(w, Request(kind, id, fails), ttl, max).1 == None <==>
            && (KeyOf(kind, id) in w.cache.values ==> w.now - w.cache.stamps[KeyOf(kind, id)] >= ttl)
            && (fails || (kind, id) !in w.store)
  {
    hide Set, StoreAfter;
  }

  /** Record `g` is the last change of that object in the store. */
  ghost predicate LastChange(log: seq<Record>, kind: Kind, id: string, g: nat) {
    && Changes(log, kind, id, g)
    && (forall h: nat :: g < h ==> !Changes(log, kind, id, h))
  }

  ghost predicate Changes(log: seq<Record>, kind: Kind, id: string, g: nat) {
    g < |log| && log[g].Stored? && log[g].kind == kind && log[g].id == id
  }

  /**
    The store after a record holds what the last change of an object says, and what it held at first
    if there is none.
  */
  lemma {:induction false} StoreIsLastChange(initial: Store, log: seq<Record>, kind: Kind, id: string, g: nat)
    ensures var store := StoreAfter(initial, log);
            && (LastChange(log, kind, id, g) ==>
                  && ((kind, id) in store <==> log[g].item.Some?)
                  && (log[g].item.Some? ==> store[(kind, id)] == log[g].item.value))
            && ((forall h: nat :: !Changes(log, kind, id, h)) ==>
                  && ((kind, id) in store <==> (kind, id) in initial)
                  && ((kind, id) in initial ==> store[(kind, id)] == initial[(kind, id)]))
  {
    if |log| != 0 {
      var n := |log| - 1;
      StoreIsLastChange(initial, log[..n], kind, id, g);
      assert forall h: nat :: h < n ==> (Changes(log[..n], kind, id, h) <==> Changes(log, kind, id, h));
      if LastChange(log, kind, id, g) && g < n {
        assert !Changes(log, kind, id, n);
        assert LastChange(log[..n], kind, id, g);
      }
      if forall h: nat :: !Changes(log, kind, id, h) {
        assert !Changes(log, kind, id, n);
      }
    }
  }

  /**
    What each event leaves alone: changes of the store the cache, ticks all but the clock, requests
    the store and the clock.
  */
  lemma EventFootprint(w: World, e: Event, ttl: real, max: int)
    ensures var w' := Happen(w, e, ttl, max).0;
            && (e.Tick? ==> w' == w.(now := w.now + e.elapsed))
            && (!e.Tick? ==> w'.now == w.now)
            && (!e.Write? ==> w'.store == w.store)
            && (e.Write? || e.Tick? ==> w'.cache == w.cache)
            && (e.Write? || e.Clear? ==> |w'.log| == |w.log| + 1) && w.log <= w'.log
            && (e.Write? ==> w'.log[|w.log|] == Stored(e.kind, e.id, e.item))
            && (e.Clear? ==> w'.log[|w.log|] == Cleared(e.pattern))
  {
  }
}
