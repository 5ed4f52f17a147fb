/**
  The object cache of `ReferenceManager`: values and the times they were set, expiry after a
  time to live, eviction by time of setting, invalidation by substring, and the object lookups
  that use it in front of a changing store.
*/
module ReferenceCache {
  import opened Common
  import opened Sorting

  type Obj = seq<int>

  datatype Kind = Environment | TestFunction | TestParameter | Vm | VmInstance

  type Store = map<(Kind, string), Obj>

  function KeyPrefix(kind: Kind): string {
    match kind
    case Environment => "env_obj_"
    case TestFunction => "tf_obj_"
    case TestParameter => "tp_obj_"
    case Vm => "vm_obj_"
    case VmInstance => "vmi_obj_"
  }

  function KeyOf(kind: Kind, id: string): string { KeyPrefix(kind) + id }

  /** Python's `pattern in key`. */
  predicate Occurs(pattern: string, key: string) {
    exists i :: 0 <= i <= |key| - |pattern| && OccursAt(pattern, key, i)
  }

  predicate OccursAt(pattern: string, key: string, i: nat)
    requires i + |pattern| <= |key|
  {
    key[i..i + |pattern|] == pattern
  }

  /** The two dictionaries; `order` is the insertion order of the timestamps, which a later overwrite keeps. */
  datatype Cache = Cache(values: map<string, Obj>, stamps: map<string, real>, order: seq<string>)

  const Empty := Cache(map[], map[], [])

  ghost predicate WellFormed(c: Cache) {
    && c.values.Keys == c.stamps.Keys
    && (forall k :: k in c.order <==> k in c.stamps)
    && (forall i, j :: 0 <= i < j < |c.order| ==> c.order[i] != c.order[j])
  }

  // ---------- Operations on values ----------

  function Without(s: seq<string>, keys: set<string>): seq<string> {
    if |s| == 0 then [] else Without(s[..|s| - 1], keys) + if s[|s| - 1] in keys then [] else [s[|s| - 1]]
  }

  function Delete(c: Cache, keys: set<string>): Cache {
    Cache(c.values - keys, c.stamps - keys, Without(c.order, keys))
  }

  predicate Valid(c: Cache, key: string, now: real, ttl: real) {
    key in c.stamps && now - c.stamps[key] < ttl
  }

  /** `_cache_get`: an expired entry is removed. */
  function Get(c: Cache, key: string, now: real, ttl: real): (Cache, Option<Obj>) {
    if key in c.values && Valid(c, key, now, ttl) then (c, Some(c.values[key]))
    else if key in c.values then (Delete(c, {key}), None)
    else (c, None)
  }

  function Put(c: Cache, key: string, value: Obj, now: real): Cache {
    Cache(c.values[key := value], c.stamps[key := now], if key in c.stamps then c.order else c.order + [key])
  }

  /** `int(max * 0.2)`, truncating towards zero. */
  function EvictCount(max: int): int { if max >= 0 then max / 5 else -((-max) / 5) }

  function Age(c: Cache): string -> real { k => if k in c.stamps then c.stamps[k] else 0.0 }

  /** The keys `_cache_set` evicts: the oldest ones, ties in insertion order. */
  function Evicted(c: Cache, max: int): seq<string> { Prefix(Sorted(c.order, Age(c)), EvictCount(max)) }

  function Keys(s: seq<string>): set<string> { set k | k in s }

  /** `_cache_set`. */
  function Set(c: Cache, key: string, value: Obj, now: real, max: int): Cache {
    var p := Put(c, key, value, now);
    if |p.values| > max then Delete(p, Keys(Evicted(p, max))) else p
  }

  function Matching(c: Cache, pattern: string): set<string> { set k | k in c.values && Occurs(pattern, k) }

  function Invalidated(c: Cache, pattern: Option<string>): Cache {
    if pattern == None then Empty else Delete(c, Matching(c, pattern.value))
  }

  /** A `get_*_object` lookup.  A failing database and a missing object both give `None` and cache nothing. */
  function Lookup(c: Cache, kind: Kind, id: string, store: Store, fails: bool, now: real, ttl: real, max: int)
    : (Cache, Option<Obj>)
  {
    var (c1, hit) := Get(c, KeyOf(kind, id), now, ttl);
    if hit.Some? then (c1, hit)
    else if fails || (kind, id) !in store then (c1, None)
    else (Set(c1, KeyOf(kind, id), store[(kind, id)], now, max), Some(store[(kind, id)]))
  }

  // ---------- Keys ----------

  /** The five prefixes never make two objects share a key, whatever the ids contain. */
  lemma KeysNeverCollide(kind1: Kind, id1: string, kind2: Kind, id2: string)
    requires KeyOf(kind1, id1) == KeyOf(kind2, id2)
    ensures kind1 == kind2 && id1 == id2
  {
    var k1, k2 := KeyOf(kind1, id1), KeyOf(kind2, id2);
    assert k1[0] == k2[0] && k1[1] == k2[1] && k1[2] == k2[2];
    assert kind1 == kind2;
    assert k1[|KeyPrefix(kind1)|..] == id1 && k2[|KeyPrefix(kind2)|..] == id2;
  }

  // ---------- Well-formedness ----------

  lemma {:induction false} WithoutMembers(s: seq<string>, keys: set<string>)
    requires forall i, j :: 0 <= i < j < |s| ==> s[i] != s[j]
    ensures forall k :: k in Without(s, keys) <==> k in s && k !in keys
    ensures forall i, j :: 0 <= i < j < |Without(s, keys)| ==> Without(s, keys)[i] != Without(s, keys)[j]
  {
    if |s| != 0 {
      var head, last := s[..|s| - 1], s[|s| - 1];
      WithoutMembers(head, keys);
      assert s == head + [last];
      assert last !in head;
      assert last !in Without(head, keys);
    }
  }

  lemma DeleteWellFormed(c: Cache, keys: set<string>)
    requires WellFormed(c)
    ensures WellFormed(Delete(c, keys))
  {
    WithoutMembers(c.order, keys);
  }

  lemma PutWellFormed(c: Cache, key: string, value: Obj, now: real)
    requires WellFormed(c)
    ensures WellFormed(Put(c, key, value, now))
  {
    var p := Put(c, key, value, now);
    if key !in c.stamps {
      forall i, j | 0 <= i < j < |p.order|
        ensures p.order[i] != p.order[j]
      {
        assert c.order[i] in c.order;
      }
    }
  }

  lemma SetWellFormed(c: Cache, key: string, value: Obj, now: real, max: int)
    requires WellFormed(c)
    ensures WellFormed(Set(c, key, value, now, max))
  {
    hide WellFormed;
    PutWellFormed(c, key, value, now);
    var p := Put(c, key, value, now);
    DeleteWellFormed(p, Keys(Evicted(p, max)));
  }

  // ---------- Eviction ----------

  lemma SortedOrder(c: Cache)
    requires WellFormed(c)
    ensures var s := Sorted(c.order, Age(c));
            && |s| == |c.order| == |c.values|
            && (forall k :: k in s <==> k in c.values)
            && (forall i, j :: 0 <= i < j < |s| ==> s[i] != s[j])
            && (forall i, j :: 0 <= i < j < |s| ==> c.stamps[s[i]] <= c.stamps[s[j]])
  {
    hide Sorted;
    var s := Sorted(c.order, Age(c));
    SortedIsPermutation(c.order, Age(c));
    DistinctCount(c.order, c.values.Keys);
    DistinctPermutation(c.order, s);
    forall i, j | 0 <= i < j < |s|
      ensures c.stamps[s[i]] <= c.stamps[s[j]]
    {
      assert s[i] in s && s[j] in s;
      assert Age(c)(s[i]) <= Age(c)(s[j]);
    }
  }

  lemma {:induction false} DistinctCount(s: seq<string>, keys: set<string>)
    requires forall i, j :: 0 <= i < j < |s| ==> s[i] != s[j]
    requires forall k :: k in s <==> k in keys
    ensures |s| == |keys|
  {
    if |s| == 0 {
      assert keys == {};
    } else {
      var last := s[|s| - 1];
      assert last in s;
      assert forall k :: k in s[..|s| - 1] <==> k in keys - {last};
      DistinctCount(s[..|s| - 1], keys - {last});
    }
  }

  lemma {:induction false} DistinctCountsOnce(s: seq<string>, k: string)
    requires forall i, j :: 0 <= i < j < |s| ==> s[i] != s[j]
    ensures multiset(s)[k] <= 1
  {
    if |s| != 0 {
      var head, last := s[..|s| - 1], s[|s| - 1];
      DistinctCountsOnce(head, k);
      assert s == head + [last];
      assert last !in head;
      assert last !in multiset(head);
    }
  }

  lemma DistinctPermutation(a: seq<string>, b: seq<string>)
    requires multiset(a) == multiset(b)
    requires forall i, j :: 0 <= i < j < |a| ==> a[i] != a[j]
    ensures forall i, j :: 0 <= i < j < |b| ==> b[i] != b[j]
  {
    forall i, j | 0 <= i < j < |b|
      ensures b[i] != b[j]
    {
      DistinctCountsOnce(a, b[i]);
      var front, back := b[..j], b[j..];
      assert b == front + back;
      assert front[i] == b[i] && back[0] == b[j];
      assert b[i] in multiset(front) && b[j] in multiset(back);
      assert multiset(b)[b[i]] == multiset(front)[b[i]] + multiset(back)[b[i]];
    }
  }

  /** Every evicted entry is no newer than every surviving one. */
  lemma EvictedAreOldest(c: Cache, max: int, gone: string, kept: string)
    requires WellFormed(c) && gone in Evicted(c, max) && kept in c.values && kept !in Evicted(c, max)
    ensures gone in c.stamps && kept in c.stamps && c.stamps[gone] <= c.stamps[kept]
  {
    hide Sorted;
    SortedOrder(c);
    var s, e := Sorted(c.order, Age(c)), Evicted(c, max);
    assert kept in s;
    var i :| 0 <= i < |e| && e[i] == gone;
    var j :| 0 <= j < |s| && s[j] == kept;
    assert e <= s;
  }

  lemma MapMinus(m: map<string, Obj>, keys: set<string>)
    requires keys <= m.Keys
    ensures |m - keys| == |m| - |keys|
  {
    assert (m - keys).Keys == m.Keys - keys;
    assert |m.Keys - keys| == |m.Keys| - |keys|;
  }

  /** How many entries are left after evicting. */
  lemma EvictionCount(c: Cache, max: int)
    requires WellFormed(c)
    ensures |Delete(c, Keys(Evicted(c, max))).values| == |c.values| - |Evicted(c, max)|
    ensures 0 <= max < |c.values| ==> |Evicted(c, max)| == max / 5
  {
    hide Sorted, Without, WellFormed, Prefix, EvictCount;
    SortedOrder(c);
    var s, e := Sorted(c.order, Age(c)), Evicted(c, max);
    PrefixIsPrefix(s, EvictCount(max));
    FifthOf(max);
    forall k | k in e
      ensures k in c.values
    {
      assert k in s;
    }
    DistinctCount(e, Keys(e));
    MapMinus(c.values, Keys(e));
  }

  lemma PrefixIsPrefix(s: seq<string>, n: int)
    ensures Prefix(s, n) <= s
    ensures 0 <= n <= |s| ==> |Prefix(s, n)| == n
  {
  }

  /** The number to evict is a fifth of the maximum, rounded towards zero. */
  lemma FifthOf(max: int)
    ensures max >= 0 ==> 5 * EvictCount(max) <= max < 5 * EvictCount(max) + 5 && EvictCount(max) <= max
    ensures max < 0 ==> 5 * EvictCount(max) - 5 < max <= 5 * EvictCount(max) <= 0
  {
  }

  /** The cache holds no more entries than it may, and no entry is newer than `now`. */
  ghost predicate WithinBound(c: Cache, max: int) { 5 <= max ==> |c.values| <= max }

  ghost predicate NothingNewer(c: Cache, now: real) { forall k :: k in c.stamps ==> c.stamps[k] <= now }

  /**
    What every `_cache_set` leaves: matching key sets, the size bound, the key just set, and
    otherwise only old entries.
  */
  lemma SetKeepsBoundAndKey(c: Cache, key: string, value: Obj, now: real, max: int)
    requires WellFormed(c) && WithinBound(c, max) && NothingNewer(c, now)
    ensures var c' := Set(c, key, value, now, max);
            && WellFormed(c') && WithinBound(c', max) && NothingNewer(c', now)
            && (0 <= max ==> key in c'.values)
            && (key in c'.values ==> c'.values[key] == value && c'.stamps[key] == now)
            && OnlyOldEntries(c', c, key)
  {
    hide Sorted, Without, Evicted, NothingNewer, OnlyOldEntries;
    SetWellFormed(c, key, value, now, max);
    PutWellFormed(c, key, value, now);
    PutKeeps(c, key, value, now);
    var p := Put(c, key, value, now);
    SizeAfterPut(c, key, value, now);
    if |p.values| > max {
      EvictionCount(p, max);
      var gone := Keys(Evicted(p, max));
      assert 0 <= max ==> key !in gone by {
        if 5 <= max {
          NewestIsLast(c, key, value, now);
          KeySurvives(p, max, key);
        } else if 0 <= max {
          assert |Evicted(p, max)| == 0;
        }
      }
      DeleteKeeps(p, c, key, now, gone);
    }
  }

  /** Apart from `key`, the entries of `c'` are entries of `c`, unaltered. */
  ghost predicate OnlyOldEntries(c': Cache, c: Cache, key: string) {
    forall k :: k in c'.values && k != key ==>
      k in c.values && c'.values[k] == c.values[k] &&
      k in c'.stamps && k in c.stamps && c'.stamps[k] == c.stamps[k]
  }

  lemma PutKeeps(c: Cache, key: string, value: Obj, now: real)
    requires WellFormed(c) && NothingNewer(c, now)
    ensures NothingNewer(Put(c, key, value, now), now) && OnlyOldEntries(Put(c, key, value, now), c, key)
  {
  }

  lemma DeleteKeeps(p: Cache, c: Cache, key: string, now: real, gone: set<string>)
    requires NothingNewer(p, now) && OnlyOldEntries(p, c, key)
    ensures NothingNewer(Delete(p, gone), now) && OnlyOldEntries(Delete(p, gone), c, key)
    ensures key in p.values && key !in gone ==> key in Delete(p, gone).values
    ensures key in Delete(p, gone).values ==> key in p.values && Delete(p, gone).values[key] == p.values[key]
    ensures key in Delete(p, gone).stamps ==> key in p.stamps && Delete(p, gone).stamps[key] == p.stamps[key]
  {
  }

  lemma SizeAfterPut(c: Cache, key: string, value: Obj, now: real)
    ensures |Put(c, key, value, now).values| == if key in c.values then |c.values| else |c.values| + 1
  {
    var p := Put(c, key, value, now);
    assert p.values.Keys == c.values.Keys + {key};
  }

  lemma NewestIsLast(c: Cache, key: string, value: Obj, now: real)
    requires WellFormed(c) && NothingNewer(c, now) && key !in c.values
    ensures var p := Put(c, key, value, now);
            var s := Sorted(p.order, Age(p));
            |s| > 0 && s[|s| - 1] == key
  {
    var p := Put(c, key, value, now);
    var before := Sorted(c.order, Age(p));
    SortedIsPermutation(c.order, Age(p));
    assert p.order[..|c.order|] == c.order && p.order[|c.order|] == key;
    assert Sorted(p.order, Age(p)) == InsertSorted(before, key, Age(p));
    if |before| > 0 {
      SortedMember(c.order, Age(p), before[|before| - 1]);
    }
  }

  lemma KeySurvives(p: Cache, max: int, key: string)
    requires WellFormed(p) && 5 <= max && |p.values| > max
    requires var s := Sorted(p.order, Age(p)); |s| > 0 && s[|s| - 1] == key
    ensures key in p.values && key !in Evicted(p, max)
  {
    hide Sorted;
    SortedOrder(p);
    var s, e := Sorted(p.order, Age(p)), Evicted(p, max);
    assert s[|s| - 1] in s;
    forall i | 0 <= i < |e|
      ensures e[i] != key
    {
      assert e[i] == s[i];
    }
  }

  /** Exactly when a set keeps the size limit: when the maximum is at least five, or nothing had to go. */
  lemma BoundKeptIffMaximumAtLeastFive(c: Cache, key: string, value: Obj, now: real, max: int)
    requires WellFormed(c) && |c.values| <= max
    ensures |Set(c, key, value, now, max).values| <= max <==>
            5 <= max || |Put(c, key, value, now).values| <= max
  {
    hide Sorted, Without, Evicted, WellFormed;
    var p := Put(c, key, value, now);
    PutWellFormed(c, key, value, now);
    EvictionCount(p, max);
    SizeAfterPut(c, key, value, now);
  }

  /** With a maximum below five nothing is ever evicted, so the cache grows without limit. */
  lemma SmallMaximumNeverEvicts(c: Cache, key: string, value: Obj, now: real, max: int)
    requires WellFormed(c) && 0 <= max < 5
    ensures Set(c, key, value, now, max) == Put(c, key, value, now)
  {
    hide Sorted, WellFormed;
    var p := Put(c, key, value, now);
    assert Evicted(p, max) == [];
    NothingDeleted(p.order);
    assert p.values - {} == p.values && p.stamps - {} == p.stamps;
    assert Keys([]) == {};
  }

  // ---------- What the operations do to the dictionaries ----------

  /** A pattern is in a key when the key has something, possibly nothing, before and after it. */
  lemma OccursIff(pattern: string, key: string)
    ensures Occurs(pattern, key) <==> exists before, after :: key == before + pattern + after
  {
    if Occurs(pattern, key) {
      var i: nat :| i <= |key| - |pattern| && OccursAt(pattern, key, i);
      assert key == key[..i] + pattern + key[i + |pattern|..];
    }
    if before, after :| key == before + pattern + after {
      assert OccursAt(pattern, key, |before|);
    }
  }

  /**
    A lookup in the cache answers exactly when there is an entry younger than the time to live.  An
    older one leaves both dictionaries and their order; everything else stays as it was.
  */
  lemma GetEffect(c: Cache, key: string, now: real, ttl: real)
    requires WellFormed(c)
    ensures var (c', answer) := Get(c, key, now, ttl);
            && (answer.Some? <==> key in c.values && now - c.stamps[key] < ttl)
            && (answer.Some? ==> answer.value == c.values[key])
            && (answer.Some? || key !in c.values ==> c' == c)
            && (answer == None ==> key !in c'.values && key !in c'.stamps && key !in c'.order)
            && (forall k :: k != key ==>
                  && (k in c'.values <==> k in c.values) && (k in c.values ==> c'.values[k] == c.values[k])
                  && (k in c'.stamps <==> k in c.stamps) && (k in c.stamps ==> c'.stamps[k] == c.stamps[k]))
  {
    WithoutMembers(c.order, {key});
  }

  /** The time of an entry after `key` was set at `now`. */
  function SetTime(c: Cache, key: string, now: real, k: string): real {
    if k != key && k in c.stamps then c.stamps[k] else now
  }

  /**
    A set adds or replaces its entry.  If there are then more entries than the maximum, a fifth of the
    maximum goes, never a newer one before an older one, and what stays is unchanged.
  */
  lemma SetEffect(c: Cache, key: string, value: Obj, now: real, max: int)
    requires WellFormed(c) && 0 <= max
    ensures var c' := Set(c, key, value, now, max);
            var all := c.values.Keys + {key};
            && c'.values.Keys == c'.stamps.Keys && c'.values.Keys <= all
            && |c'.values| == |all| - (if |all| > max then max / 5 else 0)
            && (forall k :: k in c'.values ==>
                  && c'.values[k] == (if k == key then value else c.values[k])
                  && c'.stamps[k] == SetTime(c, key, now, k))
            && (forall gone, kept :: gone in all && gone !in c'.values && kept in c'.values ==>
                  SetTime(c, key, now, gone) <= SetTime(c, key, now, kept))
  {
    hide Sorted, Without, Evicted, WellFormed, Put, SetTime;
    var p := Put(c, key, value, now);
    PutWellFormed(c, key, value, now);
    PutEffect(c, key, value, now);
    KeysOf(p);
    EvictionCount(p, max);
    FifthOf(max);
    forall gone, kept | gone in p.values && gone in Evicted(p, max) && kept in p.values && kept !in Evicted(p, max)
      ensures SetTime(c, key, now, gone) <= SetTime(c, key, now, kept)
    {
      EvictedAreOldest(p, max, gone, kept);
    }
  }

  lemma PutEffect(c: Cache, key: string, value: Obj, now: real)
    requires WellFormed(c)
    ensures var p := Put(c, key, value, now);
            && p.values.Keys == c.values.Keys + {key}
            && (forall k :: k in p.values ==> p.values[k] == if k == key then value else c.values[k])
            && (forall k :: k in p.stamps ==> p.stamps[k] == SetTime(c, key, now, k))
  {
  }

  /** `a` comes before `b`. */
  ghost predicate Precedes(s: seq<string>, a: string, b: string) {
    exists i, j :: 0 <= i < j < |s| && s[i] == a && s[j] == b
  }

  lemma {:induction false} WithoutKeepsOrder(s: seq<string>, keys: set<string>, a: string, b: string)
    ensures Precedes(Without(s, keys), a, b) <==> Precedes(s, a, b) && a !in keys && b !in keys
  {
    if |s| != 0 {
      hide Precedes;
      var head, last := s[..|s| - 1], s[|s| - 1];
      WithoutKeepsOrder(head, keys, a, b);
      WithoutIn(head, keys, a);
      PrecedesIn(head, a, b);
      assert s == head + [last];
      PrecedesSnoc(head, last, a, b);
      PrecedesSnoc(Without(head, keys), last, a, b);
      assert Without(head, keys) + [] == Without(head, keys);
    }
  }

  lemma {:induction false} WithoutIn(s: seq<string>, keys: set<string>, k: string)
    ensures k in Without(s, keys) <==> k in s && k !in keys
  {
    if |s| != 0 {
      WithoutIn(s[..|s| - 1], keys, k);
      assert s == s[..|s| - 1] + [s[|s| - 1]];
    }
  }

  lemma PrecedesIn(s: seq<string>, a: string, b: string)
    ensures Precedes(s, a, b) ==> a in s && b in s
  {
  }

  lemma PrecedesSnoc(s: seq<string>, last: string, a: string, b: string)
    ensures Precedes(s + [last], a, b) <==> Precedes(s, a, b) || (a in s && b == last)
  {
    var t := s + [last];
    if Precedes(s, a, b) {
      var i, j :| 0 <= i < j < |s| && s[i] == a && s[j] == b;
      assert t[i] == a && t[j] == b;
    }
    if a in s && b == last {
      var i :| 0 <= i < |s| && s[i] == a;
      assert t[i] == a && t[|s|] == b;
    }
  }

  /** Setting and evicting leave the insertion order of the entries that stay; a new key comes last. */
  lemma SetKeepsOrder(c: Cache, key: string, value: Obj, now: real, max: int, a: string, b: string)
    requires WellFormed(c)
    ensures var c' := Set(c, key, value, now, max);
            Precedes(c'.order, a, b) <==>
            && a in c'.values && b in c'.values
            && (Precedes(c.order, a, b) || (b == key && key !in c.values && a in c.values))
  {
    hide Sorted, Without, Evicted, WellFormed, Precedes;
    var p := Put(c, key, value, now);
    PutWellFormed(c, key, value, now);
    OrderHasKeys(c, a, b);
    OrderHasKeys(p, a, b);
    PrecedesSnoc(c.order, key, a, b);
    WithoutKeepsOrder(p.order, Keys(Evicted(p, max)), a, b);
  }

  lemma OrderHasKeys(c: Cache, a: string, b: string)
    requires WellFormed(c)
    ensures c.values.Keys == c.stamps.Keys && forall k :: k in c.order <==> k in c.values
    ensures Precedes(c.order, a, b) ==> a in c.values && b in c.values
  {
  }

  /** Of entries set at the same time, those inserted first go first. */
  lemma TiesGoInOrder(c: Cache, key: string, value: Obj, now: real, max: int, gone: string, kept: string)
    requires WellFormed(c) && gone in c.values && kept in c.values && gone != key && kept != key
    requires gone !in Set(c, key, value, now, max).values && kept in Set(c, key, value, now, max).values
    requires c.stamps[gone] == c.stamps[kept]
    ensures Precedes(c.order, gone, kept)
  {
    hide Sorted, WellFormed, Precedes;
    var p := Put(c, key, value, now);
    PutWellFormed(c, key, value, now);
    EvictedFirst(p, max, gone, kept);
    OrderHasKeys(c, gone, kept);
    PrecedesSnoc(c.order, key, gone, kept);
  }

  lemma EvictedFirst(p: Cache, max: int, gone: string, kept: string)
    requires WellFormed(p) && gone in Evicted(p, max) && kept in p.values && kept !in Evicted(p, max)
    requires gone in p.stamps && kept in p.stamps && p.stamps[gone] == p.stamps[kept]
    ensures Precedes(p.order, gone, kept)
  {
    hide Sorted, WithKey;
    SortedOrder(p);
    var s, e := Sorted(p.order, Age(p)), Evicted(p, max);
    assert kept in s;
    var i :| 0 <= i < |e| && e[i] == gone;
    var j :| 0 <= j < |s| && s[j] == kept;
    assert e <= s;
    assert Precedes(s, gone, kept);
    SortedIsStable(p.order, Age(p), p.stamps[gone]);
    WithKeyKeepsOrder(s, Age(p), p.stamps[gone], gone, kept);
    WithKeyKeepsOrder(p.order, Age(p), p.stamps[gone], gone, kept);
  }

  lemma {:induction false} WithKeyKeepsOrder(s: seq<string>, age: string -> real, time: real, a: string, b: string)
    requires age(a) == time && age(b) == time
    ensures Precedes(WithKey(s, age, time), a, b) <==> Precedes(s, a, b)
    ensures a in WithKey(s, age, time) <==> a in s
  {
    if |s| != 0 {
      var head, last := s[..|s| - 1], s[|s| - 1];
      hide Precedes;
      WithKeyKeepsOrder(head, age, time, a, b);
      assert s == head + [last];
      PrecedesIn(head, a, b);
      assert WithKey(head, age, time) + [] == WithKey(head, age, time);
      PrecedesSnoc(head, last, a, b);
      PrecedesSnoc(WithKey(head, age, time), last, a, b);
    }
  }

  /**
    What a `get_*_object` lookup leaves: a hit changes nothing; a miss removes the entry, and only an
    object the store gives is entered, with its value and the time.
  */
  lemma LookupEffect(c: Cache, kind: Kind, id: string, store: Store, fails: bool, now: real, ttl: real, max: int)
    requires WellFormed(c) && 0 <= max && WithinBound(c, max) && NothingNewer(c, now)
    ensures var key := KeyOf(kind, id);
            var (c', answer) := Lookup(c, kind, id, store, fails, now, ttl, max);
            var hit := key in c.values && now - c.stamps[key] < ttl;
            && (hit ==> c' == c && answer == Some(c.values[key]))
            && (!hit && (fails || (kind, id) !in store) ==> answer == None && key !in c'.values && key !in c'.stamps)
            && (!hit && !fails && (kind, id) in store ==>
                  && answer == Some(store[(kind, id)])
                  && key in c'.values && c'.values[key] == store[(kind, id)] && c'.stamps[key] == now)
            && OnlyOldEntries(c', c, key)
  {
    hide WellFormed, Set, Get, NothingNewer;
    var key := KeyOf(kind, id);
    GetEffect(c, key, now, ttl);
    var c1 := Get(c, key, now, ttl).0;
    AfterGet(c, key, now, ttl, max);
    KeysOf(c);
    KeysOf(c1);
    if (kind, id) in store {
      SetKeepsBoundAndKey(c1, key, store[(kind, id)], now, max);
      KeysOf(Set(c1, key, store[(kind, id)], now, max));
    }
  }

  lemma AfterGet(c: Cache, key: string, now: real, ttl: real, max: int)
    requires WellFormed(c) && WithinBound(c, max) && NothingNewer(c, now)
    ensures var c1 := Get(c, key, now, ttl).0;
            WellFormed(c1) && WithinBound(c1, max) && NothingNewer(c1, now)
  {
    hide WellFormed, Without;
    DeleteWellFormed(c, {key});
    assert (c.values - {key}).Keys == c.values.Keys - {key};
  }

  /** Such a cache: with a maximum of one, the second entry is added and the first one stays. */
  lemma LimitExceeded()
    ensures var one := Set(Empty, "vm_obj_1", [], 0.0, 1);
            var two := Set(one, "vm_obj_2", [], 1.0, 1);
            |one.values| == 1 && |two.values| == 2
  {
    var first := Put(Empty, "vm_obj_1", [], 0.0);
    assert WellFormed(Empty);
    SmallMaximumNeverEvicts(Empty, "vm_obj_1", [], 0.0, 1);
    PutWellFormed(Empty, "vm_obj_1", [], 0.0);
    SmallMaximumNeverEvicts(first, "vm_obj_2", [], 1.0, 1);
    SizeAfterPut(Empty, "vm_obj_1", [], 0.0);
    SizeAfterPut(first, "vm_obj_2", [], 1.0);
    assert "vm_obj_1"[7] != "vm_obj_2"[7];
  }

  /**
    A lookup does not save an entry from eviction: when the cache is full, the next new key evicts the
    entry set first even if it was looked up just before, and keeps the others below a maximum of ten.
  */
  lemma LookedUpIsEvicted(c: Cache, oldest: string, key: string, value: Obj, now: real, ttl: real, max: int)
    requires WellFormed(c) && 5 <= max && |c.values| == max
    requires oldest in c.values && key !in c.values && c.stamps[oldest] < now
    requires forall k :: k in c.stamps && k != oldest ==> c.stamps[oldest] < c.stamps[k]
    requires Get(c, oldest, now, ttl).1.Some?
    ensures var c' := Set(Get(c, oldest, now, ttl).0, key, value, now, max);
            && oldest !in c'.values
            && (max < 10 ==> forall k :: k in c.values && k != oldest ==> k in c'.values)
  {
    hide Sorted, Without, Evicted, WellFormed, Put, EvictCount;
    var p := Put(c, key, value, now);
    PutWellFormed(c, key, value, now);
    PutEffect(c, key, value, now);
    KeysOf(p);
    SizeAfterPut(c, key, value, now);
    FirstEvicted(p, oldest, max);
  }

  lemma FirstEvicted(p: Cache, oldest: string, max: int)
    requires WellFormed(p) && 5 <= max < |p.values| && oldest in p.stamps
    requires forall k :: k in p.stamps && k != oldest ==> p.stamps[oldest] < p.stamps[k]
    ensures oldest in Evicted(p, max)
    ensures max < 10 ==> Evicted(p, max) == [oldest]
  {
    hide Sorted, EvictCount, Prefix;
    SortedOrder(p);
    var s := Sorted(p.order, Age(p));
    FifthOf(max);
    PrefixIsPrefix(s, EvictCount(max));
    var i :| 0 <= i < |s| && s[i] == oldest;
    assert s[0] in s;
    assert p.stamps[s[0]] <= p.stamps[s[i]];
    assert Evicted(p, max)[0] == oldest;
  }

  /** Keys of growing length. */
  function NthKey(n: nat): string { KeyOf(Vm, seq(n, _ => 'x')) }

  /** The cache after setting `n` keys one second apart. */
  function Filled(n: nat): Cache { if n == 0 then Empty else Set(Filled(n - 1), NthKey(n), [], n as real, 5) }

  ghost predicate HoldsFirst(c: Cache, n: nat) {
    && (forall k :: k in c.stamps ==> 7 < |k| <= 7 + n && c.stamps[k] == (|k| - 7) as real)
    && (forall k :: k in c.stamps ==> k == NthKey(|k| - 7))
    && (forall i :: 0 < i <= n ==> NthKey(i) in c.stamps)
  }

  lemma KeyLength(n: nat)
    ensures |NthKey(n)| == 7 + n
  {
  }

  lemma OneMoreHeld(c: Cache, n: nat)
    requires HoldsFirst(c, n)
    ensures NthKey(n + 1) !in c.stamps && HoldsFirst(Put(c, NthKey(n + 1), [], (n + 1) as real), n + 1)
  {
    hide NthKey;
    KeyLength(n + 1);
  }

  lemma {:induction false} FilledHolds(n: nat)
    requires n <= 5
    ensures WellFormed(Filled(n)) && |Filled(n).values| == n && HoldsFirst(Filled(n), n)
  {
    if n != 0 {
      hide WellFormed, HoldsFirst, NthKey, Set, Put;
      FilledHolds(n - 1);
      SetOneMore(Filled(n - 1), n - 1);
    }
  }

  lemma SetOneMore(c: Cache, n: nat)
    requires WellFormed(c) && |c.values| == n < 5 && HoldsFirst(c, n)
    ensures var c' := Set(c, NthKey(n + 1), [], (n + 1) as real, 5);
            WellFormed(c') && |c'.values| == n + 1 && HoldsFirst(c', n + 1)
  {
    hide WellFormed, HoldsFirst, NthKey, Put, Delete, Evicted;
    KeysOf(c);
    OneMoreHeld(c, n);
    PutWellFormed(c, NthKey(n + 1), [], (n + 1) as real);
    SizeAfterPut(c, NthKey(n + 1), [], (n + 1) as real);
  }

  lemma KeysOf(c: Cache)
    requires WellFormed(c)
    ensures c.values.Keys == c.stamps.Keys
  {
  }

  /** Such a run: of five entries the first is looked up, and the sixth evicts it while the unused second stays. */
  lemma NotLeastRecentlyUsed()
    ensures var looked := Get(Filled(5), NthKey(1), 6.0, 3600.0);
            var c := Set(looked.0, NthKey(6), [], 6.0, 5);
            looked.1.Some? && NthKey(1) !in c.values && NthKey(2) in c.values
  {
    hide WellFormed, Filled, Set, NthKey;
    FilledHolds(5);
    KeysOf(Filled(5));
    KeyLength(1);
    KeyLength(2);
    KeyLength(6);
    LookedUpIsEvicted(Filled(5), NthKey(1), NthKey(6), [], 6.0, 3600.0, 5);
  }

  lemma {:induction false} NothingDeleted(s: seq<string>)
    ensures Without(s, {}) == s
  {
    if |s| != 0 {
      NothingDeleted(s[..|s| - 1]);
      assert s == s[..|s| - 1] + [s[|s| - 1]];
    }
  }
}
