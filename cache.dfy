/** The in-process TTL cache (`CacheManager`): a key/value table with per-key
    TTL bookkeeping, a running size counter, hit counting, a one-entry LRU
    eviction when a store would pass capacity, and pattern invalidation.

    The source keeps three `Map`s (`cache`, `ttls`, `timers`); a JavaScript
    `Map` iterates in insertion order, which `evictLRU` depends on, so the
    model keeps that order as the sequence `order` beside the three maps.
    Time is the explicit argument `now`; a pending expiry timer is recorded
    as the instant it fires, and its firing is the event `Expire`.

    Each operation is specified by a function from the old state (a
    `CacheState`) to the new one; the lemmas below state what those
    functions promise, and the class's methods perform the source's steps
    and are proved to agree with them. */
module Cache {
  import opened Common
  import opened Sorting

  type Key = string

  /** `this.maxSize`: 50 MiB. */
  const MaxSize: int := 50 * 1024 * 1024

  /** The default `ttlMs` of `set`. */
  const DefaultTtlMs: int := 30000

  /** How many keys `getStats` reports in `topHits`. */
  const TopHitsLimit: nat := 10

  /** The longest delay Node.js timers accept; a delay outside `1..` this is run as 1 ms. */
  const MaxTimerDelay: int := 0x7FFF_FFFF

  datatype Entry<V> = Entry(value: V, timestamp: int, hitCount: nat, lastAccess: Option<int>)

  /** The fields of a `CacheManager` that its methods change. */
  datatype CacheState<V> = CacheState(
    order: seq<Key>,
    cache: map<Key, Entry<V>>,
    ttls: map<Key, int>,
    timers: map<Key, int>,
    currentSize: int)

  datatype KeyHits = KeyHits(key: Key, hits: nat)

  datatype CacheStats = CacheStats(
    size: nat,
    memoryUsage: int,
    maxSize: int,
    utilization: real,
    topHits: seq<KeyHits>)

  /** `entry.lastAccess || entry.timestamp`: a missing or zero access time
      falls back to the insertion time. */
  function AccessTime<V>(e: Entry<V>): int {
    if e.lastAccess.Some? && e.lastAccess.value != 0 then e.lastAccess.value else e.timestamp
  }

  /** The delay after which a Node.js `setTimeout(f, ms)` runs `f`. */
  function TimerDelay(ms: int): (d: int)
    ensures 1 <= d <= MaxTimerDelay
    ensures 1 <= ms <= MaxTimerDelay ==> d == ms
  {
    if 1 <= ms <= MaxTimerDelay then ms else 1
  }

  /** The iteration order of a `Map` after deleting every key in `gone`. */
  function Without(keys: seq<Key>, gone: set<Key>): (r: seq<Key>)
    ensures |r| <= |keys|
    ensures forall k :: k in r ==> k in keys
  {
    if keys == [] then []
    else (if keys[0] in gone then [] else [keys[0]]) + Without(keys[1..], gone)
  }

  /** Deleting keeps exactly the keys not deleted. */
  lemma {:induction false} WithoutMembers(keys: seq<Key>, gone: set<Key>)
    ensures forall k :: k in Without(keys, gone) <==> k in keys && k !in gone
  {
    if keys != [] {
      WithoutMembers(keys[1..], gone);
      assert keys == [keys[0]] + keys[1..];
    }
  }

  lemma {:induction false} WithoutDistinct(keys: seq<Key>, gone: set<Key>)
    requires Distinct(keys)
    ensures Distinct(Without(keys, gone))
  {
    if keys != [] {
      WithoutDistinct(keys[1..], gone);
      WithoutMembers(keys[1..], gone);
    }
  }

  lemma {:induction false} WithoutNothing(keys: seq<Key>, gone: set<Key>)
    requires forall k :: k in keys ==> k !in gone
    ensures Without(keys, gone) == keys
  {
    if keys != [] {
      WithoutNothing(keys[1..], gone);
    }
  }

  lemma {:induction false} WithoutTwice(keys: seq<Key>, a: set<Key>, b: set<Key>)
    ensures Without(Without(keys, a), b) == Without(keys, a + b)
  {
    if keys != [] {
      WithoutTwice(keys[1..], a, b);
      var wa := Without(keys, a);
      if keys[0] !in a {
        assert wa == [keys[0]] + Without(keys[1..], a);
        assert wa[0] == keys[0] && wa[1..] == Without(keys[1..], a);
      } else {
        assert wa == Without(keys[1..], a);
      }
    }
  }

  lemma {:induction false} DistinctCard(keys: seq<Key>)
    requires Distinct(keys)
    ensures |set k | k in keys| == |keys|
  {
    if keys != [] {
      DistinctCard(keys[1..]);
      assert (set k | k in keys) == (set k | k in keys[1..]) + {keys[0]};
    }
  }

  lemma DistinctTail(keys: seq<Key>)
    requires Distinct(keys) && keys != []
    ensures keys[0] !in keys[1..]
  {
  }

  /* ---------------------------------------------------------------- */
  /* The invariant and the size bookkeeping                            */

  /** Every key of `order` has an entry. */
  ghost predicate OrderInCache<V>(s: CacheState<V>) {
    forall k :: k in s.order ==> k in s.cache
  }

  /** What every method keeps: `order` lists each key once; the three maps
      have the same keys; every stored value serializes; and each pending
      timer fires `TimerDelay(ttl)` after its entry was stored. */
  ghost predicate Inv<V>(s: CacheState<V>, serializes: V -> bool) {
    KeysAgree(s) && EntriesValid(s, serializes)
  }

  /** `order` lists each key once, and all three maps have the same keys. */
  ghost predicate KeysAgree<V>(s: CacheState<V>) {
    && Distinct(s.order)
    && (forall k :: k in s.order <==> k in s.cache)
    && s.ttls.Keys == s.cache.Keys
    && s.timers.Keys == s.cache.Keys
  }

  /** Every stored value serializes and its timer fires `TimerDelay(ttl)`
      after it was stored. */
  ghost predicate EntriesValid<V>(s: CacheState<V>, serializes: V -> bool) {
    forall k :: k in s.cache ==>
      && serializes(s.cache[k].value)
      && k in s.timers && k in s.ttls
      && s.timers[k] == s.cache[k].timestamp + TimerDelay(s.ttls[k])
  }

  /** Sum of the serialized sizes of the values stored under `keys`. */
  function SizeSum<V>(keys: seq<Key>, m: map<Key, Entry<V>>, sizeOf: V -> nat): int
    requires forall k :: k in keys ==> k in m
  {
    if keys == [] then 0 else sizeOf(m[keys[0]].value) + SizeSum(keys[1..], m, sizeOf)
  }

  /** How far `currentSize` is from the total size of the live entries. */
  ghost function Drift<V>(s: CacheState<V>, sizeOf: V -> nat): int
    requires OrderInCache(s)
  {
    s.currentSize - SizeSum(s.order, s.cache, sizeOf)
  }

  lemma {:induction false} SizeSumFrame<V>(keys: seq<Key>, m1: map<Key, Entry<V>>, m2: map<Key, Entry<V>>, sizeOf: V -> nat)
    requires forall k :: k in keys ==> k in m1 && k in m2 && sizeOf(m1[k].value) == sizeOf(m2[k].value)
    ensures SizeSum(keys, m1, sizeOf) == SizeSum(keys, m2, sizeOf)
  {
    if keys != [] {
      SizeSumFrame(keys[1..], m1, m2, sizeOf);
    }
  }

  lemma {:induction false} SizeSumAppend<V>(keys: seq<Key>, k: Key, m: map<Key, Entry<V>>, sizeOf: V -> nat)
    requires forall x :: x in keys ==> x in m
    requires k in m
    ensures SizeSum(keys + [k], m, sizeOf) == SizeSum(keys, m, sizeOf) + sizeOf(m[k].value)
  {
    if keys != [] {
      assert (keys + [k])[1..] == keys[1..] + [k];
      SizeSumAppend(keys[1..], k, m, sizeOf);
    }
  }

  lemma {:induction false} SizeSumWithout<V>(keys: seq<Key>, k: Key, m: map<Key, Entry<V>>, sizeOf: V -> nat)
    requires Distinct(keys) && k in keys
    requires forall x :: x in keys ==> x in m
    ensures SizeSum(Without(keys, {k}), m, sizeOf) == SizeSum(keys, m, sizeOf) - sizeOf(m[k].value)
  {
    if keys[0] == k {
      DistinctTail(keys);
      WithoutNothing(keys[1..], {k});
      assert Without(keys, {k}) == Without(keys[1..], {k});
    } else {
      SizeSumWithout(keys[1..], k, m, sizeOf);
      var w := Without(keys, {k});
      assert w == [keys[0]] + Without(keys[1..], {k});
      assert w[0] == keys[0] && w[1..] == Without(keys[1..], {k});
    }
  }

  lemma {:induction false} SizeSumUpdate<V>(keys: seq<Key>, k: Key, e: Entry<V>, m: map<Key, Entry<V>>, sizeOf: V -> nat)
    requires Distinct(keys) && k in keys
    requires forall x :: x in keys ==> x in m
    ensures SizeSum(keys, m[k := e], sizeOf) == SizeSum(keys, m, sizeOf) - sizeOf(m[k].value) + sizeOf(e.value)
  {
    if keys[0] == k {
      DistinctTail(keys);
      SizeSumFrame(keys[1..], m[k := e], m, sizeOf);
    } else {
      SizeSumUpdate(keys[1..], k, e, m, sizeOf);
    }
  }

  /* ---------------------------------------------------------------- */
  /* The operations, as functions of the state                         */

  /** `get`. */
  function GetOp<V>(s: CacheState<V>, key: Key, now: int): (CacheState<V>, Option<V>) {
    if key in s.cache then
      var e := s.cache[key];
      (s.(cache := s.cache[key := e.(hitCount := e.hitCount + 1, lastAccess := Some(now))]), Some(e.value))
    else
      (s, None)
  }

  /** `delete`. */
  function DeleteOp<V>(s: CacheState<V>, key: Key, sizeOf: V -> nat): (CacheState<V>, bool) {
    if key in s.cache then
      (CacheState(Without(s.order, {key}), s.cache - {key}, s.ttls - {key}, s.timers - {key},
                  s.currentSize - sizeOf(s.cache[key].value)),
       true)
    else
      (s, false)
  }

  /** The index `evictLRU` settles on when it scans `keys`: the scan replaces
      its candidate only by a key with a strictly smaller access time. */
  function OldestIndex<V>(keys: seq<Key>, cache: map<Key, Entry<V>>): (r: Option<nat>)
    requires forall k :: k in keys ==> k in cache
    ensures r.None? <==> keys == []
    ensures r.Some? ==> r.value < |keys|
  {
    if keys == [] then None
    else
      var prev := OldestIndex(keys[..|keys| - 1], cache);
      var last := |keys| - 1;
      if prev.None? || AccessTime(cache[keys[last]]) < AccessTime(cache[keys[prev.value]])
      then Some(last)
      else prev
  }

  /** The key `evictLRU` deletes: the oldest one, unless it is the empty
      string, which `if (lruKey)` treats as "no key". */
  function Victim<V>(s: CacheState<V>): (r: Option<Key>)
    requires OrderInCache(s)
    ensures r.Some? ==> r.value in s.cache && r.value != ""
  {
    match OldestIndex(s.order, s.cache)
    case None => None
    case Some(i) => if s.order[i] != "" then Some(s.order[i]) else None
  }

  /** `evictLRU`. */
  function EvictOp<V>(s: CacheState<V>, sizeOf: V -> nat): CacheState<V>
    requires OrderInCache(s)
  {
    match Victim(s)
    case None => s
    case Some(k) => DeleteOp(s, k, sizeOf).0
  }

  /** The state `set` stores into: evicted once when `currentSize + size`
      would pass `maxSize`. */
  function MakeRoom<V>(s: CacheState<V>, size: nat, sizeOf: V -> nat): CacheState<V>
    requires OrderInCache(s)
  {
    if s.currentSize + size > MaxSize then EvictOp(s, sizeOf) else s
  }

  /** What `set` does once room is made: a fresh entry (appended to the
      iteration order only when the key is new), its TTL, its timer, and
      the size added to `currentSize`. */
  function StoreEntry<V>(r: CacheState<V>, key: Key, value: V, ttlMs: int, now: int, size: nat): CacheState<V> {
    CacheState(
      if key in r.cache then r.order else r.order + [key],
      r.cache[key := Entry(value, now, 0, None)],
      r.ttls[key := ttlMs],
      r.timers[key := now + TimerDelay(ttlMs)],
      r.currentSize + size)
  }

  /** `set`; it fails, changing nothing, when the value does not serialize. */
  function SetOp<V>(s: CacheState<V>, key: Key, value: V, ttlMs: int, now: int,
                    sizeOf: V -> nat, serializes: V -> bool): (CacheState<V>, bool)
    requires OrderInCache(s)
  {
    if !serializes(value) then (s, false)
    else (StoreEntry(MakeRoom(s, sizeOf(value), sizeOf), key, value, ttlMs, now, sizeOf(value)), true)
  }

  /** The loop of `invalidatePattern` after it has visited `keys`: the state
      and the count. */
  function InvalidateKeys<V>(s: CacheState<V>, keys: seq<Key>, matches: Key -> bool,
                             sizeOf: V -> nat): (CacheState<V>, nat)
    decreases |keys|
  {
    if keys == [] then (s, 0)
    else
      var prev := InvalidateKeys(s, keys[..|keys| - 1], matches, sizeOf);
      var k := keys[|keys| - 1];
      if matches(k) then (DeleteOp(prev.0, k, sizeOf).0, prev.1 + 1) else prev
  }

  /** `clear`. */
  function ClearOp<V>(): CacheState<V> {
    CacheState([], map[], map[], map[], 0)
  }

  /** The `[key, hitCount]` pairs in iteration order. */
  function EntriesOf<V>(keys: seq<Key>, cache: map<Key, Entry<V>>): (es: seq<KeyHits>)
    requires forall k :: k in keys ==> k in cache
    ensures |es| == |keys|
    ensures forall i :: 0 <= i < |es| ==> es[i] == KeyHits(keys[i], cache[keys[i]].hitCount)
  {
    if keys == [] then [] else [KeyHits(keys[0], cache[keys[0]].hitCount)] + EntriesOf(keys[1..], cache)
  }

  /** Sort key putting higher hit counts first. */
  function HitRank(h: KeyHits): int {
    -(h.hits as int)
  }

  /** `getStats`: `topHits` is the first ten entries after a stable sort by
      hit count, highest first. */
  function StatsOf<V>(s: CacheState<V>): CacheStats
    requires OrderInCache(s)
  {
    CacheStats(
      |s.cache|,
      s.currentSize,
      MaxSize,
      (s.currentSize as real / MaxSize as real) * 100.0,
      Take(SortBy(EntriesOf(s.order, s.cache), HitRank), TopHitsLimit))
  }

  /* ---------------------------------------------------------------- */
  /* What the operations promise                                       */

  /** `get` keeps the invariant. */
  lemma GetKeepsInv<V>(s: CacheState<V>, key: Key, now: int, serializes: V -> bool)
    requires Inv(s, serializes)
    ensures Inv(GetOp(s, key, now).0, serializes)
  {
  }

  /** `get` on an absent key returns null and changes nothing; on a present
      key it returns the value and changes only that entry's hit count (one
      more) and access time. */
  lemma GetSpec<V>(s: CacheState<V>, key: Key, now: int, serializes: V -> bool, sizeOf: V -> nat)
    requires Inv(s, serializes)
    ensures var (t, r) := GetOp(s, key, now);
      && (key !in s.cache ==> r == None && t == s)
      && (key in s.cache ==>
            && r == Some(s.cache[key].value)
            && t.cache.Keys == s.cache.Keys
            && t.cache[key].hitCount == s.cache[key].hitCount + 1
            && t.cache[key].lastAccess == Some(now)
            && t.cache[key].value == s.cache[key].value
            && t.cache[key].timestamp == s.cache[key].timestamp
            && (forall k :: k in s.cache && k != key ==> t.cache[k] == s.cache[k])
            && t.order == s.order && t.ttls == s.ttls && t.timers == s.timers
            && t.currentSize == s.currentSize)
      && OrderInCache(t)
      && Drift(t, sizeOf) == Drift(s, sizeOf)
  {
    var (t, r) := GetOp(s, key, now);
    SizeSumFrame(s.order, t.cache, s.cache, sizeOf);
  }

  /** `delete` keeps the invariant. */
  lemma DeleteKeepsInv<V>(s: CacheState<V>, key: Key, serializes: V -> bool, sizeOf: V -> nat)
    requires Inv(s, serializes)
    ensures Inv(DeleteOp(s, key, sizeOf).0, serializes)
  {
    if key in s.cache {
      WithoutDistinct(s.order, {key});
      WithoutMembers(s.order, {key});
    }
  }

  /** `delete` reports whether the key was present; afterwards the key is
      gone from all three maps, `currentSize` has dropped by that value's
      size, and every other key is untouched. */
  lemma DeleteSpec<V>(s: CacheState<V>, key: Key, serializes: V -> bool, sizeOf: V -> nat)
    requires Inv(s, serializes)
    ensures var (t, removed) := DeleteOp(s, key, sizeOf);
      && removed == (key in s.cache)
      && key !in t.cache && key !in t.ttls && key !in t.timers && key !in t.order
      && t.currentSize == s.currentSize - (if removed then sizeOf(s.cache[key].value) else 0)
      && (forall k :: k != key ==> (k in t.cache <==> k in s.cache))
      && (forall k :: k in t.cache ==> t.cache[k] == s.cache[k] && t.ttls[k] == s.ttls[k] && t.timers[k] == s.timers[k])
  {
    WithoutMembers(s.order, {key});
  }

  /** `delete` keeps `currentSize` exactly as far from the live total as it was. */
  lemma DeleteDrift<V>(s: CacheState<V>, key: Key, serializes: V -> bool, sizeOf: V -> nat)
    requires Inv(s, serializes)
    ensures OrderInCache(DeleteOp(s, key, sizeOf).0)
    ensures Drift(DeleteOp(s, key, sizeOf).0, sizeOf) == Drift(s, sizeOf)
  {
    var t := DeleteOp(s, key, sizeOf).0;
    DeleteKeepsInv(s, key, serializes, sizeOf);
    if key in s.cache {
      SizeSumWithout(s.order, key, s.cache, sizeOf);
      SizeSumFrame(t.order, s.cache, t.cache, sizeOf);
    }
  }

  /** The scan picks a key of least access time, and the first such key in
      iteration order. */
  lemma {:induction false} OldestIndexIsOldest<V>(keys: seq<Key>, cache: map<Key, Entry<V>>)
    requires forall k :: k in keys ==> k in cache
    ensures var r := OldestIndex(keys, cache);
      r.Some? ==>
        && (forall j :: 0 <= j < |keys| ==> AccessTime(cache[keys[r.value]]) <= AccessTime(cache[keys[j]]))
        && (forall j :: 0 <= j < r.value ==> AccessTime(cache[keys[r.value]]) < AccessTime(cache[keys[j]]))
  {
    if keys != [] {
      var init := keys[..|keys| - 1];
      OldestIndexIsOldest(init, cache);
      assert forall j :: 0 <= j < |init| ==> init[j] == keys[j];
    }
  }

  /** `evictLRU` keeps the invariant and the drift. */
  lemma EvictKeepsInv<V>(s: CacheState<V>, serializes: V -> bool, sizeOf: V -> nat)
    requires Inv(s, serializes)
    ensures Inv(EvictOp(s, sizeOf), serializes)
    ensures Drift(EvictOp(s, sizeOf), sizeOf) == Drift(s, sizeOf)
  {
    if Victim(s).Some? {
      DeleteKeepsInv(s, Victim(s).value, serializes, sizeOf);
      DeleteDrift(s, Victim(s).value, serializes, sizeOf);
    }
  }

  /** `evictLRU` removes nothing from an empty cache and otherwise at most
      one entry, leaving the others as they were. */
  lemma EvictSpec<V>(s: CacheState<V>, serializes: V -> bool, sizeOf: V -> nat)
    requires Inv(s, serializes)
    ensures var t := EvictOp(s, sizeOf);
      && (s.cache == map[] ==> t == s)
      && t.cache.Keys <= s.cache.Keys
      && |s.cache.Keys - t.cache.Keys| <= 1
      && (forall k :: k in t.cache ==> t.cache[k] == s.cache[k])
  {
    var t := EvictOp(s, sizeOf);
    if Victim(s).Some? {
      var v := Victim(s).value;
      assert t.cache == s.cache - {v};
      assert t.cache.Keys == s.cache.Keys - {v};
      SubsetCard(s.cache.Keys - t.cache.Keys, {v});
    } else {
      assert t == s;
    }
  }

  /** The entry `evictLRU` removes is not under the empty key, has the least
      access time, and comes first in iteration order among such entries. */
  lemma EvictRemovesOldest<V>(s: CacheState<V>, serializes: V -> bool, sizeOf: V -> nat, k: Key)
    requires Inv(s, serializes)
    requires k in s.cache && k !in EvictOp(s, sizeOf).cache
    ensures k != ""
    ensures forall j :: 0 <= j < |s.order| ==> AccessTime(s.cache[k]) <= AccessTime(s.cache[s.order[j]])
    ensures exists p :: 0 <= p < |s.order| && s.order[p] == k &&
              forall j :: 0 <= j < p ==> AccessTime(s.cache[k]) < AccessTime(s.cache[s.order[j]])
  {
    OldestIndexIsOldest(s.order, s.cache);
    var p := OldestIndex(s.order, s.cache).value;
    assert s.order[p] == k;
  }

  /** The eviction `set` may run keeps the invariant and the drift. */
  lemma MakeRoomKeepsInv<V>(s: CacheState<V>, size: nat, serializes: V -> bool, sizeOf: V -> nat)
    requires Inv(s, serializes)
    ensures Inv(MakeRoom(s, size, sizeOf), serializes)
    ensures Drift(MakeRoom(s, size, sizeOf), sizeOf) == Drift(s, sizeOf)
  {
    EvictKeepsInv(s, serializes, sizeOf);
  }

  lemma AppendDistinct(keys: seq<Key>, k: Key)
    requires Distinct(keys) && k !in keys
    ensures Distinct(keys + [k])
  {
    forall i, j | 0 <= i < j < |keys + [k]| ensures (keys + [k])[i] != (keys + [k])[j] {
      if j == |keys| {
        assert keys[i] in keys;
      }
    }
  }

  /** Storing an entry whose value serializes keeps the invariant. */
  lemma StoreEntryKeepsInv<V>(r: CacheState<V>, key: Key, value: V, ttlMs: int, now: int, size: nat,
                              serializes: V -> bool)
    requires Inv(r, serializes) && serializes(value)
    ensures Inv(StoreEntry(r, key, value, ttlMs, now, size), serializes)
  {
    StoreEntryKeysAgree(r, key, value, ttlMs, now, size);
    StoreEntryEntriesValid(r, key, value, ttlMs, now, size, serializes);
  }

  lemma StoreEntryKeysAgree<V>(r: CacheState<V>, key: Key, value: V, ttlMs: int, now: int, size: nat)
    requires KeysAgree(r)
    ensures KeysAgree(StoreEntry(r, key, value, ttlMs, now, size))
  {
    if key !in r.cache {
      AppendDistinct(r.order, key);
    }
  }

  lemma StoreEntryEntriesValid<V>(r: CacheState<V>, key: Key, value: V, ttlMs: int, now: int, size: nat,
                                  serializes: V -> bool)
    requires EntriesValid(r, serializes) && serializes(value)
    ensures EntriesValid(StoreEntry(r, key, value, ttlMs, now, size), serializes)
  {
  }

  /** `set` keeps the invariant. */
  lemma SetKeepsInv<V>(s: CacheState<V>, key: Key, value: V, ttlMs: int, now: int,
                       serializes: V -> bool, sizeOf: V -> nat)
    requires Inv(s, serializes)
    ensures Inv(SetOp(s, key, value, ttlMs, now, sizeOf, serializes).0, serializes)
  {
    if serializes(value) {
      MakeRoomKeepsInv(s, sizeOf(value), serializes, sizeOf);
      StoreEntryKeepsInv(MakeRoom(s, sizeOf(value), sizeOf), key, value, ttlMs, now, sizeOf(value), serializes);
    }
  }

  lemma SubsetCard<T>(a: set<T>, b: set<T>)
    requires a <= b
    ensures |a| <= |b|
  {
    assert b == a + (b - a);
  }

  /** The room `set` makes: nothing is evicted unless `currentSize + size`
      passes `maxSize`, and then at most one entry goes and the rest stay. */
  lemma MakeRoomFrame<V>(s: CacheState<V>, size: nat, serializes: V -> bool, sizeOf: V -> nat)
    requires Inv(s, serializes)
    ensures var r := MakeRoom(s, size, sizeOf);
      && (s.currentSize + size <= MaxSize ==> r == s)
      && r.cache.Keys <= s.cache.Keys
      && |s.cache.Keys - r.cache.Keys| <= 1
      && (forall k :: k in r.cache ==> r.cache[k] == s.cache[k])
  {
    if s.currentSize + size > MaxSize {
      EvictSpec(s, serializes, sizeOf);
    }
  }

  /** Storing an entry touches no other key's entry, TTL or timer, adds the
      key and adds `size` to `currentSize`. */
  lemma StoreEntryFrame<V>(r: CacheState<V>, key: Key, value: V, ttlMs: int, now: int, size: nat)
    ensures var t := StoreEntry(r, key, value, ttlMs, now, size);
      && t.cache.Keys == r.cache.Keys + {key}
      && t.currentSize == r.currentSize + size
      && (forall k :: k in r.cache && k != key ==> t.cache[k] == r.cache[k])
      && (forall k :: k in r.ttls && k != key ==> t.ttls[k] == r.ttls[k])
      && (forall k :: k in r.timers && k != key ==> t.timers[k] == r.timers[k])
  {
  }

  /** A successful `set` returns true, and afterwards the key holds the new
      value in a fresh entry with no hits and a timer `ttlMs` ahead; a
      value that does not serialize changes nothing. At most one other
      entry is evicted, every other entry that survives is unchanged, and
      nothing is evicted when the new total stays within `maxSize`: then
      the size grows by the value's size and every other key keeps its
      entry, TTL and timer. */
  lemma SetSpec<V>(s: CacheState<V>, key: Key, value: V, ttlMs: int, now: int,
                   serializes: V -> bool, sizeOf: V -> nat)
    requires Inv(s, serializes)
    ensures var (t, ok) := SetOp(s, key, value, ttlMs, now, sizeOf, serializes);
      && ok == serializes(value)
      && (!ok ==> t == s)
      && (ok ==>
            && key in t.cache && key in t.order
            && t.cache[key] == Entry(value, now, 0, None)
            && t.ttls[key] == ttlMs
            && t.timers[key] == now + TimerDelay(ttlMs))
      && (ok ==>
            && |s.cache.Keys - t.cache.Keys| <= 1
            && (forall k :: k in t.cache && k != key ==> k in s.cache && t.cache[k] == s.cache[k]))
      && (ok && s.currentSize + sizeOf(value) <= MaxSize ==>
            && t.currentSize == s.currentSize + sizeOf(value)
            && t.cache.Keys == s.cache.Keys + {key}
            && (forall k :: k in s.cache && k != key ==>
                  t.cache[k] == s.cache[k] && t.ttls[k] == s.ttls[k] && t.timers[k] == s.timers[k]))
  {
    if serializes(value) {
      MakeRoomKeepsInv(s, sizeOf(value), serializes, sizeOf);
      MakeRoomFrame(s, sizeOf(value), serializes, sizeOf);
      var r := MakeRoom(s, sizeOf(value), sizeOf);
      StoreEntryFrame(r, key, value, ttlMs, now, sizeOf(value));
      var t := StoreEntry(r, key, value, ttlMs, now, sizeOf(value));
      SubsetCard(s.cache.Keys - t.cache.Keys, s.cache.Keys - r.cache.Keys);
    }
  }

  /** `currentSize` stays in step with the live entries under `set` of a
      key that is not (or no longer, after eviction) present, but a `set`
      that overwrites a present key adds the new size without taking off
      the old one, so the drift grows by the old value's size. */
  lemma SetDrift<V>(s: CacheState<V>, key: Key, value: V, ttlMs: int, now: int,
                    serializes: V -> bool, sizeOf: V -> nat)
    requires Inv(s, serializes) && serializes(value)
    ensures var r := MakeRoom(s, sizeOf(value), sizeOf);
      var t := SetOp(s, key, value, ttlMs, now, sizeOf, serializes).0;
      OrderInCache(r) && OrderInCache(t) &&
      Drift(t, sizeOf) == Drift(s, sizeOf) + (if key in r.cache then sizeOf(r.cache[key].value) else 0)
  {
    var r := MakeRoom(s, sizeOf(value), sizeOf);
    MakeRoomKeepsInv(s, sizeOf(value), serializes, sizeOf);
    SetKeepsInv(s, key, value, ttlMs, now, serializes, sizeOf);
    var e := Entry(value, now, 0, None);
    if key in r.cache {
      SizeSumUpdate(r.order, key, e, r.cache, sizeOf);
    } else {
      SizeSumFrame(r.order, r.cache[key := e], r.cache, sizeOf);
      SizeSumAppend(r.order, key, r.cache[key := e], sizeOf);
    }
  }

  /** Eviction runs only when the new total would pass `maxSize`, and even
      then removes at most one entry: a store of a value larger than the
      whole capacity into an empty cache leaves `currentSize` above
      `maxSize`. */
  lemma SetCanOverflow<V>(s: CacheState<V>, key: Key, value: V, ttlMs: int, now: int,
                          serializes: V -> bool, sizeOf: V -> nat)
    requires Inv(s, serializes) && serializes(value)
    requires s.cache == map[] && s.currentSize == 0 && sizeOf(value) > MaxSize
    ensures SetOp(s, key, value, ttlMs, now, sizeOf, serializes).0.currentSize > MaxSize
  {
    EvictSpec(s, serializes, sizeOf);
  }

  /** A `set` followed by `get` of the same key returns the value stored and
      counts the first hit. */
  lemma SetThenGet<V>(s: CacheState<V>, key: Key, value: V, ttlMs: int, now: int, later: int,
                      serializes: V -> bool, sizeOf: V -> nat)
    requires Inv(s, serializes) && serializes(value)
    ensures var t := SetOp(s, key, value, ttlMs, now, sizeOf, serializes).0;
      var (u, r) := GetOp(t, key, later);
      r == Some(value) && u.cache[key].hitCount == 1
  {
    SetSpec(s, key, value, ttlMs, now, serializes, sizeOf);
  }

  /** The loop of `invalidatePattern` keeps the invariant and the drift. */
  lemma {:induction false} InvalidateKeysKeepsInv<V>(s: CacheState<V>, keys: seq<Key>, matches: Key -> bool,
                                                     serializes: V -> bool, sizeOf: V -> nat)
    requires Inv(s, serializes)
    ensures Inv(InvalidateKeys(s, keys, matches, sizeOf).0, serializes)
    ensures Drift(InvalidateKeys(s, keys, matches, sizeOf).0, sizeOf) == Drift(s, sizeOf)
    decreases |keys|
  {
    if keys != [] {
      var init := keys[..|keys| - 1];
      InvalidateKeysKeepsInv(s, init, matches, serializes, sizeOf);
      var prev := InvalidateKeys(s, init, matches, sizeOf).0;
      DeleteKeepsInv(prev, keys[|keys| - 1], serializes, sizeOf);
      DeleteDrift(prev, keys[|keys| - 1], serializes, sizeOf);
    }
  }

  lemma SubtractTwice<K, W>(m: map<K, W>, a: set<K>, b: set<K>)
    ensures (m - a) - b == m - (a + b)
  {
  }

  /** The keys among `keys` that `matches` accepts. */
  function Matching(keys: seq<Key>, matches: Key -> bool): set<Key>
    decreases |keys|
  {
    if keys == [] then {}
    else Matching(keys[..|keys| - 1], matches) + (if matches(keys[|keys| - 1]) then {keys[|keys| - 1]} else {})
  }

  lemma {:induction false} MatchingMembers(keys: seq<Key>, matches: Key -> bool)
    ensures forall x :: x in Matching(keys, matches) <==> x in keys && matches(x)
    decreases |keys|
  {
    if keys != [] {
      var init := keys[..|keys| - 1];
      MatchingMembers(init, matches);
      assert keys == init + [keys[|keys| - 1]];
    }
  }

  lemma DistinctPrefix(keys: seq<Key>, n: nat)
    requires Distinct(keys) && n <= |keys|
    ensures Distinct(keys[..n])
  {
  }

  /** The loop of `invalidatePattern` counts every matching key it visits. */
  lemma {:induction false} InvalidateKeysCount<V>(s: CacheState<V>, keys: seq<Key>, matches: Key -> bool, sizeOf: V -> nat)
    requires Distinct(keys)
    ensures InvalidateKeys(s, keys, matches, sizeOf).1 == |Matching(keys, matches)|
    decreases |keys|
  {
    if keys != [] {
      var init := keys[..|keys| - 1];
      DistinctPrefix(keys, |keys| - 1);
      InvalidateKeysCount(s, init, matches, sizeOf);
      MatchingMembers(init, matches);
      assert keys[|keys| - 1] !in init;
    }
  }

  /** The loop of `invalidatePattern`, having visited distinct stored
      `keys`, has removed exactly the matching ones from all three maps. */
  lemma {:induction false} InvalidateKeysMaps<V>(s: CacheState<V>, keys: seq<Key>, matches: Key -> bool, sizeOf: V -> nat)
    requires Distinct(keys) && forall k :: k in keys ==> k in s.cache
    ensures var t := InvalidateKeys(s, keys, matches, sizeOf).0;
      var gone := Matching(keys, matches);
      t.cache == s.cache - gone && t.ttls == s.ttls - gone && t.timers == s.timers - gone
    decreases |keys|
  {
    if keys != [] {
      var init := keys[..|keys| - 1];
      var k := keys[|keys| - 1];
      DistinctPrefix(keys, |keys| - 1);
      InvalidateKeysMaps(s, init, matches, sizeOf);
      if matches(k) {
        var goneBefore := Matching(init, matches);
        MatchingMembers(init, matches);
        assert k !in init;
        SubtractTwice(s.cache, goneBefore, {k});
        SubtractTwice(s.ttls, goneBefore, {k});
        SubtractTwice(s.timers, goneBefore, {k});
      }
    }
  }

  /** ... and from the iteration order. */
  lemma {:induction false} InvalidateKeysOrder<V>(s: CacheState<V>, keys: seq<Key>, matches: Key -> bool, sizeOf: V -> nat)
    requires Distinct(keys) && forall k :: k in keys ==> k in s.cache
    ensures InvalidateKeys(s, keys, matches, sizeOf).0.order == Without(s.order, Matching(keys, matches))
    decreases |keys|
  {
    if keys == [] {
      WithoutNothing(s.order, {});
    } else {
      var init := keys[..|keys| - 1];
      var k := keys[|keys| - 1];
      DistinctPrefix(keys, |keys| - 1);
      InvalidateKeysOrder(s, init, matches, sizeOf);
      InvalidateKeysMaps(s, init, matches, sizeOf);
      if matches(k) {
        MatchingMembers(init, matches);
        assert k !in init && k in keys;
        assert k in InvalidateKeys(s, init, matches, sizeOf).0.cache;
        WithoutTwice(s.order, Matching(init, matches), {k});
      } else {
        assert Matching(keys, matches) == Matching(init, matches);
      }
    }
  }

  /** `invalidatePattern` returns exactly the number of stored keys that
      match. */
  lemma InvalidateCount<V>(s: CacheState<V>, matches: Key -> bool, serializes: V -> bool, sizeOf: V -> nat)
    requires Inv(s, serializes)
    ensures InvalidateKeys(s, s.order, matches, sizeOf).1 == |set k | k in s.cache && matches(k)|
  {
    InvalidateKeysCount(s, s.order, matches, sizeOf);
    MatchingMembers(s.order, matches);
    assert Matching(s.order, matches) == set k | k in s.cache && matches(k);
  }

  /** After `invalidatePattern` no key matches, and every key that does not
      match is still there, untouched. */
  lemma InvalidateSpec<V>(s: CacheState<V>, matches: Key -> bool, serializes: V -> bool, sizeOf: V -> nat)
    requires Inv(s, serializes)
    ensures var t := InvalidateKeys(s, s.order, matches, sizeOf).0;
      && (forall k :: k in t.cache ==> !matches(k))
      && (forall k :: k in s.cache && !matches(k) ==>
            && k in t.cache && k in t.ttls && k in t.timers
            && t.cache[k] == s.cache[k] && t.ttls[k] == s.ttls[k] && t.timers[k] == s.timers[k])
  {
    InvalidateKeysMaps(s, s.order, matches, sizeOf);
    MatchingMembers(s.order, matches);
  }

  /** `clear` empties all three maps and zeroes `currentSize`, which is then
      in step with the (empty) live total again. */
  lemma ClearSpec<V>(serializes: V -> bool, sizeOf: V -> nat)
    ensures Inv(ClearOp<V>(), serializes)
    ensures Drift(ClearOp<V>(), sizeOf) == 0
  {
  }

  /** `getStats` reports the number of entries, `currentSize`, and
      `min(10, size)` hit counts. */
  lemma StatsCounts<V>(s: CacheState<V>, serializes: V -> bool)
    requires Inv(s, serializes)
    ensures var st := StatsOf(s);
      && st.size == |s.order| && st.memoryUsage == s.currentSize && st.maxSize == MaxSize
      && |st.topHits| == Min(TopHitsLimit, |s.order|)
  {
    DistinctCard(s.order);
    assert s.cache.Keys == set k | k in s.order;
  }

  /** The hit counts in `topHits` come highest first. */
  lemma StatsSorted<V>(s: CacheState<V>)
    requires OrderInCache(s)
    ensures var top := StatsOf(s).topHits;
      forall i, j :: 0 <= i < j < |top| ==> top[i].hits >= top[j].hits
  {
    var sorted := SortBy(EntriesOf(s.order, s.cache), HitRank);
    var top := StatsOf(s).topHits;
    forall i, j | 0 <= i < j < |top| ensures top[i].hits >= top[j].hits {
      assert top[i] == sorted[i] && top[j] == sorted[j];
    }
  }

  /** Each pair in `topHits` is a stored key with its true hit count. */
  lemma StatsTopMembers<V>(s: CacheState<V>, h: KeyHits)
    requires OrderInCache(s)
    requires h in StatsOf(s).topHits
    ensures h.key in s.cache && s.cache[h.key].hitCount == h.hits
  {
    var es := EntriesOf(s.order, s.cache);
    SortByMembers(es, HitRank, h);
  }

  /** A key left out of `topHits` has no more hits than any key listed. */
  lemma TopHitsAreTop<V>(s: CacheState<V>, serializes: V -> bool, k: Key, h: KeyHits)
    requires Inv(s, serializes)
    requires k in s.cache
    requires h in StatsOf(s).topHits
    requires forall x :: x in StatsOf(s).topHits ==> x.key != k
    ensures s.cache[k].hitCount <= h.hits
  {
    var es := EntriesOf(s.order, s.cache);
    var y := KeyHits(k, s.cache[k].hitCount);
    var j :| 0 <= j < |s.order| && s.order[j] == k;
    assert es[j] == y;
    TakeSortedIsTop(es, HitRank, TopHitsLimit, h, y);
  }

  /* ---------------------------------------------------------------- */
  /* The class                                                         */

  class CacheManager<V> {
    /** Iteration order of the source's `cache` map (insertion order). */
    var order: seq<Key>
    var cache: map<Key, Entry<V>>
    var ttls: map<Key, int>
    /** Pending expiry timers, each recorded as the instant it fires. */
    var timers: map<Key, int>
    var currentSize: int
    const maxSize: int := MaxSize
    /** `JSON.stringify(value).length`, for values that `serializes` accepts. */
    const sizeOf: V -> nat
    /** False when `JSON.stringify(value)` throws or yields no string. */
    const serializes: V -> bool

    function State(): CacheState<V>
      reads this
    {
      CacheState(order, cache, ttls, timers, currentSize)
    }

    ghost predicate Valid()
      reads this
    {
      Inv(State(), serializes)
    }

    constructor (sizeOf: V -> nat, serializes: V -> bool)
      ensures Valid()
      ensures State() == ClearOp()
      ensures this.sizeOf == sizeOf && this.serializes == serializes
    {
      order := [];
      cache := map[];
      ttls := map[];
      timers := map[];
      currentSize := 0;
      this.sizeOf := sizeOf;
      this.serializes := serializes;
    }

    /** `has`: membership, without touching any field. */
    method Has(key: Key) returns (b: bool)
      requires Valid()
      ensures b <==> key in order
    {
      b := key in cache;
    }

    method Get(key: Key, now: int) returns (r: Option<V>)
      requires Valid()
      modifies this
      ensures Valid()
      ensures (State(), r) == GetOp(old(State()), key, now)
    {
      if key in cache {
        var entry := cache[key];
        entry := entry.(hitCount := entry.hitCount + 1);
        entry := entry.(lastAccess := Some(now));
        cache := cache[key := entry];
        r := Some(entry.value);
      } else {
        r := None;
      }
      assert State() == GetOp(old(State()), key, now).0;
      GetKeepsInv(old(State()), key, now, serializes);
    }

    /** The steps of `delete`, which need no invariant to run. */
    method DeleteEntry(key: Key) returns (removed: bool)
      modifies this
      ensures (State(), removed) == DeleteOp(old(State()), key, sizeOf)
    {
      if key in cache {
        var size := sizeOf(cache[key].value);
        currentSize := currentSize - size;
        if key in timers {
          timers := timers - {key};
        } else {
          assert timers == timers - {key};
        }
        cache := cache - {key};
        order := Without(order, {key});
        ttls := ttls - {key};
        removed := true;
      } else {
        removed := false;
      }
    }

    method Delete(key: Key) returns (removed: bool)
      requires Valid()
      modifies this
      ensures Valid()
      ensures (State(), removed) == DeleteOp(old(State()), key, sizeOf)
    {
      removed := DeleteEntry(key);
      DeleteKeepsInv(old(State()), key, serializes, sizeOf);
    }

    /** The firing of `key`'s expiry timer at `now`: only a pending timer
        that is due fires, and it runs `delete(key)`. */
    method Expire(key: Key, now: int) returns (fired: bool)
      requires Valid()
      modifies this
      ensures Valid()
      ensures fired == (key in old(timers) && old(timers)[key] <= now)
      ensures State() == if fired then DeleteOp(old(State()), key, sizeOf).0 else old(State())
    {
      fired := key in timers && timers[key] <= now;
      if fired {
        var _ := DeleteEntry(key);
        DeleteKeepsInv(old(State()), key, serializes, sizeOf);
      }
    }

    /** The scan of `evictLRU`: the first key of least access time in
        iteration order. */
    method FindOldest() returns (lruKey: Option<Key>)
      requires OrderInCache(State())
      ensures lruKey.None? <==> order == []
      ensures lruKey.Some? ==> lruKey.value in cache
      ensures lruKey.Some? ==>
        (forall j :: 0 <= j < |order| ==> AccessTime(cache[lruKey.value]) <= AccessTime(cache[order[j]]))
      ensures lruKey == (match OldestIndex(order, cache) case None => None case Some(p) => Some(order[p]))
    {
      lruKey := None;
      var lruTime := 0;
      var i := 0;
      while i < |order|
        invariant 0 <= i <= |order|
        invariant var oi := OldestIndex(order[..i], cache);
          && (lruKey.None? <==> oi.None?)
          && (oi.Some? ==> lruKey == Some(order[oi.value]) && lruTime == AccessTime(cache[order[oi.value]]))
      {
        assert order[..i + 1][..i] == order[..i];
        var accessTime := AccessTime(cache[order[i]]);
        if lruKey.None? || accessTime < lruTime {
          lruTime := accessTime;
          lruKey := Some(order[i]);
        }
        i := i + 1;
      }
      assert order[..i] == order;
      OldestIndexIsOldest(order, cache);
    }

    /** The steps of `evictLRU`: scan, then delete the key found unless it
        is the empty string. */
    method EvictEntry()
      requires OrderInCache(State())
      modifies this
      ensures State() == EvictOp(old(State()), sizeOf)
    {
      var lruKey := FindOldest();
      if lruKey.Some? && lruKey.value != "" {
        var _ := DeleteEntry(lruKey.value);
      }
    }

    method EvictLRU()
      requires Valid()
      modifies this
      ensures Valid()
      ensures State() == EvictOp(old(State()), sizeOf)
    {
      EvictEntry();
      EvictKeepsInv(old(State()), serializes, sizeOf);
    }

    /** The steps of `set`. */
    method SetEntry(key: Key, value: V, ttlMs: int, now: int) returns (ok: bool)
      requires OrderInCache(State())
      modifies this
      ensures (State(), ok) == SetOp(old(State()), key, value, ttlMs, now, sizeOf, serializes)
    {
      if !serializes(value) {
        return false;
      }
      var size := sizeOf(value);
      if currentSize + size > maxSize {
        EvictEntry();
      }
      ghost var room := State();
      assert room == MakeRoom(old(State()), size, sizeOf);
      // A `Map` keeps an existing key in its place; a new key goes last.
      var isNew := key !in cache;
      cache := cache[key := Entry(value, now, 0, None)];
      if isNew {
        order := order + [key];
      }
      ttls := ttls[key := ttlMs];
      currentSize := currentSize + size;
      timers := timers[key := now + TimerDelay(ttlMs)];
      ok := true;
      assert cache == StoreEntry(room, key, value, ttlMs, now, size).cache;
      assert ttls == StoreEntry(room, key, value, ttlMs, now, size).ttls;
      assert timers == StoreEntry(room, key, value, ttlMs, now, size).timers;
    }

    /** `set(key, value, ttlMs)`; a left-out `ttlMs` is 30 seconds. */
    method Set(key: Key, value: V, ttlMs: Option<int>, now: int) returns (ok: bool)
      requires Valid()
      modifies this
      ensures Valid()
      ensures (State(), ok) == SetOp(old(State()), key, value, ArgOr(ttlMs, DefaultTtlMs), now, sizeOf, serializes)
    {
      var ttl := ArgOr(ttlMs, DefaultTtlMs);
      ok := SetEntry(key, value, ttl, now);
      SetKeepsInv(old(State()), key, value, ttl, now, serializes, sizeOf);
    }

    method InvalidatePattern(matches: Key -> bool) returns (count: nat)
      requires Valid()
      modifies this
      ensures Valid()
      ensures (State(), count) == InvalidateKeys(old(State()), old(order), matches, sizeOf)
    {
      var keys := order;
      count := 0;
      var i := 0;
      while i < |keys|
        invariant 0 <= i <= |keys|
        invariant (State(), count) == InvalidateKeys(old(State()), keys[..i], matches, sizeOf)
      {
        var key := keys[i];
        assert keys[..i + 1][..i] == keys[..i];
        if matches(key) {
          var _ := DeleteEntry(key);
          count := count + 1;
        }
        i := i + 1;
      }
      assert keys[..i] == keys;
      InvalidateKeysKeepsInv(old(State()), keys, matches, serializes, sizeOf);
    }

    method Clear()
      requires Valid()
      modifies this
      ensures Valid()
      ensures State() == ClearOp()
    {
      timers := map[];
      cache := map[];
      ttls := map[];
      order := [];
      currentSize := 0;
    }

    function GetStats(): CacheStats
      reads this
      requires Valid()
    {
      StatsOf(State())
    }
  }
}
