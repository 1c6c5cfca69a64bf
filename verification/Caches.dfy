/** The multi-strategy cache as a state machine: an ordered dictionary of entries, a memory
    counter and statistics.  Time is an argument of every operation that reads the clock. */
module Caches {
  import opened Options
  import opened RealArithmetic
  import opened Sequences

  /** A dictionary key. */
  datatype Key = Key(name: string)

  datatype Strategy = LRU | LFU | TTL | Adaptive

  datatype Config = Config(maxSize: int, maxMemory: int, strategy: Strategy, defaultTtl: real)

  /** A stored value may be Python's `None`. */
  datatype Entry<+V> = Entry(value: Option<V>, createdAt: real, lastAccessed: real, accessCount: nat,
                             ttl: real, size: int) {
    predicate Expired(now: real) {
      now - createdAt > ttl
    }

    function Touched(now: real): Entry<V> {
      this.(lastAccessed := now, accessCount := accessCount + 1)
    }
  }

  datatype State<+V> = State(order: seq<Key>, entries: map<Key, Entry<V>>, memory: int,
                             hits: nat, misses: nat, evictions: nat) {
    ghost predicate Valid() {
      && (forall k :: k in order <==> k in entries)
      && |order| == |entries|
      && memory == SizeSum(order, entries)
    }
  }

  function Empty<V>(): State<V> {
    State([], map[], 0, 0, 0, 0)
  }

  function SizeOf<V>(entries: map<Key, Entry<V>>, k: Key): int {
    if k in entries then entries[k].size else 0
  }

  /** The total size of the stored entries. */
  function SizeSum<V>(order: seq<Key>, entries: map<Key, Entry<V>>): int {
    if order == [] then 0
    else SizeSum(order[..|order| - 1], entries) + SizeOf(entries, order[|order| - 1])
  }

  lemma {:induction false} SizeSumAgrees<V>(order: seq<Key>, a: map<Key, Entry<V>>, b: map<Key, Entry<V>>)
    requires forall k :: k in order ==> SizeOf(a, k) == SizeOf(b, k)
    ensures SizeSum(order, a) == SizeSum(order, b)
  {
    if order != [] {
      assert order[|order| - 1] in order;
      SizeSumAgrees(order[..|order| - 1], a, b);
    }
  }

  lemma {:induction false} SizeSumWithout<V>(order: seq<Key>, entries: map<Key, Entry<V>>, k: Key)
    requires Distinct(order)
    ensures SizeSum(Without(order, k), entries)
            == SizeSum(order, entries) - if k in order then SizeOf(entries, k) else 0
  {
    if order != [] {
      var front, last := order[..|order| - 1], order[|order| - 1];
      SizeSumWithout(front, entries, k);
      assert order == front + [last];
    }
  }

  // ---------- Operations ----------

  function RemoveKey<V>(s: State<V>, k: Key): State<V> {
    if k !in s.entries then s
    else s.(order := Without(s.order, k), entries := s.entries - {k}, memory := s.memory - s.entries[k].size)
  }

  function Cost<V>(strategy: Strategy, e: Entry<V>): real {
    if strategy == TTL then e.createdAt + e.ttl else e.accessCount as real
  }

  /** The position of Python's `min` over the keys: the first, in dictionary order, of least cost. */
  function CheapestIndex<V>(strategy: Strategy, order: seq<Key>, entries: map<Key, Entry<V>>): (i: nat)
    requires order != [] && forall k :: k in order ==> k in entries
    ensures i < |order|
    ensures forall j :: 0 <= j < |order| ==> Cost(strategy, entries[order[i]]) <= Cost(strategy, entries[order[j]])
    ensures forall j :: 0 <= j < i ==> Cost(strategy, entries[order[i]]) < Cost(strategy, entries[order[j]])
  {
    var last := |order| - 1;
    if last == 0 then 0 else
    var best := CheapestIndex(strategy, order[..last], entries);
    if Cost(strategy, entries[order[last]]) < Cost(strategy, entries[order[best]]) then last else best
  }

  function Cheapest<V>(strategy: Strategy, order: seq<Key>, entries: map<Key, Entry<V>>): (k: Key)
    requires order != [] && forall k :: k in order ==> k in entries
    ensures k in order
    ensures forall j :: j in order ==> Cost(strategy, entries[k]) <= Cost(strategy, entries[j])
  {
    order[CheapestIndex(strategy, order, entries)]
  }

  function HitRate<V>(s: State<V>): real {
    if s.hits + s.misses == 0 then 0.0 else s.hits as real / (s.hits + s.misses) as real
  }

  function Victim<V>(cfg: Config, s: State<V>): Key
    requires s.order != [] && forall k :: k in s.order ==> k in s.entries
  {
    match cfg.strategy
    case LRU => s.order[0]
    case LFU => Cheapest(LFU, s.order, s.entries)
    case TTL => Cheapest(TTL, s.order, s.entries)
    case Adaptive => if HitRate(s) > 0.7 then s.order[0] else Cheapest(LFU, s.order, s.entries)
  }

  function EvictOne<V>(cfg: Config, s: State<V>): State<V>
    requires forall k :: k in s.order ==> k in s.entries
  {
    if s.order == [] then s else
    var removed := RemoveKey(s, Victim(cfg, s));
    removed.(evictions := s.evictions + 1)
  }

  /** The order lists each key once. */
  lemma {:induction false} OrderIsDistinct<V>(s: State<V>)
    requires s.Valid()
    ensures Distinct(s.order)
    ensures forall k :: k in s.order <==> k in s.entries
  {
    assert Elements(s.order) == s.entries.Keys;
    CardinalityDistinct(s.order);
  }

  lemma {:induction false} RemoveKeyValid<V>(s: State<V>, k: Key)
    requires s.Valid()
    ensures RemoveKey(s, k).Valid()
    ensures k !in RemoveKey(s, k).entries
    ensures k in s.entries ==> |RemoveKey(s, k).order| == |s.order| - 1
    ensures k !in s.entries ==> RemoveKey(s, k) == s
  {
    OrderIsDistinct(s);
    if k in s.entries {
      var order, entries := Without(s.order, k), s.entries - {k};
      FilterDistinct(s.order, Other(k));
      assert SizeSum(order, entries) == s.memory - s.entries[k].size by {
        SizeSumWithout(s.order, s.entries, k);
        SizeSumAgrees(order, s.entries, entries);
      }
      assert |order| == |entries| by {
        assert Elements(order) == entries.Keys == s.entries.Keys - {k};
        DistinctCardinality(order);
      }
    }
  }

  lemma {:induction false} EvictOneValid<V>(cfg: Config, s: State<V>)
    requires s.Valid()
    ensures EvictOne(cfg, s).Valid()
    ensures s.order != [] ==> |EvictOne(cfg, s).order| == |s.order| - 1
    ensures EvictOne(cfg, s).evictions >= s.evictions
    ensures EvictOne(cfg, s).evictions - s.evictions == |s.order| - |EvictOne(cfg, s).order|
    ensures EvictOne(cfg, s).entries.Keys <= s.entries.Keys
    ensures forall k :: k in EvictOne(cfg, s).entries ==> EvictOne(cfg, s).entries[k] == s.entries[k]
  {
    if s.order != [] {
      RemoveKeyValid(s, Victim(cfg, s));
      assert Victim(cfg, s) in s.order;
    }
  }

  // ---------- Which entry goes first ----------

  /** `j` comes before `k` in the dictionary. */
  ghost predicate Earlier(order: seq<Key>, j: Key, k: Key) {
    exists a, b :: 0 <= a < b < |order| && order[a] == j && order[b] == k
  }

  /** Fewer hits, or as many and earlier in the dictionary. */
  ghost predicate LessUsed<V>(s: State<V>, j: Key, k: Key)
    requires j in s.entries && k in s.entries
  {
    var a, b := s.entries[j].accessCount, s.entries[k].accessCount;
    a < b || (a == b && Earlier(s.order, j, k))
  }

  /** Earlier expiry, or the same and earlier in the dictionary. */
  ghost predicate ExpiresSooner<V>(s: State<V>, j: Key, k: Key)
    requires j in s.entries && k in s.entries
  {
    var a, b := s.entries[j].createdAt + s.entries[j].ttl, s.entries[k].createdAt + s.entries[k].ttl;
    a < b || (a == b && Earlier(s.order, j, k))
  }

  /** More than seven lookups in ten have hit. */
  predicate HitsOften<V>(s: State<V>) {
    10 * s.hits > 7 * (s.hits + s.misses)
  }

  /** Under the strategy of the cache, `j` is to go before `k`. */
  ghost predicate GoesFirst<V>(cfg: Config, s: State<V>, j: Key, k: Key)
    requires j in s.entries && k in s.entries
  {
    match cfg.strategy
    case LRU => Earlier(s.order, j, k)
    case LFU => LessUsed(s, j, k)
    case TTL => ExpiresSooner(s, j, k)
    case Adaptive => if HitsOften(s) then Earlier(s.order, j, k) else LessUsed(s, j, k)
  }

  lemma {:induction false} HitRateMeans<V>(s: State<V>)
    ensures HitRate(s) > 0.7 <==> HitsOften(s)
  {
    if s.hits + s.misses > 0 {
      QuotientAbove(s.hits as real, (s.hits + s.misses) as real, 0.7);
    }
  }

  lemma {:induction false} FirstIsEarlier(order: seq<Key>, k: Key)
    requires k in order && k != order[0]
    ensures Earlier(order, order[0], k)
  {
    var b :| 0 <= b < |order| && order[b] == k;
    assert order[0] == order[0] && order[b] == k;
  }

  lemma {:induction false} CheapestGoesFirst<V>(strategy: Strategy, s: State<V>, k: Key)
    requires s.Valid() && s.order != [] && (strategy == LFU || strategy == TTL)
    requires k in s.entries && k != Cheapest(strategy, s.order, s.entries)
    ensures var c := Cheapest(strategy, s.order, s.entries);
            c in s.entries && if strategy == TTL then ExpiresSooner(s, c, k) else LessUsed(s, c, k)
  {
    var a := CheapestIndex(strategy, s.order, s.entries);
    assert k in s.order && s.order[a] in s.order;
    var b :| 0 <= b < |s.order| && s.order[b] == k;
    if a < b {
      assert Earlier(s.order, s.order[a], s.order[b]);
    }
  }

  lemma {:induction false} VictimGoesFirst<V>(cfg: Config, s: State<V>, k: Key)
    requires s.Valid() && s.order != [] && k in s.entries && k != Victim(cfg, s)
    ensures Victim(cfg, s) in s.entries && GoesFirst(cfg, s, Victim(cfg, s), k)
  {
    HitRateMeans(s);
    assert s.order[0] in s.order && k in s.order;
    match cfg.strategy
    case LRU => FirstIsEarlier(s.order, k);
    case LFU => CheapestGoesFirst(LFU, s, k);
    case TTL => CheapestGoesFirst(TTL, s, k);
    case Adaptive =>
      if HitsOften(s) {
        FirstIsEarlier(s.order, k);
      } else {
        CheapestGoesFirst(LFU, s, k);
      }
  }

  /** Of the entries stored, exactly one is evicted, and it is the one that goes before all others. */
  lemma {:induction false} EvictOneTakesTheFirst<V>(cfg: Config, s: State<V>) returns (gone: Key)
    requires s.Valid() && s.order != []
    ensures gone in s.entries && EvictOne(cfg, s).entries == s.entries - {gone}
    ensures forall k :: k in s.entries && k != gone ==> GoesFirst(cfg, s, gone, k)
  {
    gone := Victim(cfg, s);
    assert gone in s.order;
    forall k | k in s.entries && k != gone
      ensures GoesFirst(cfg, s, gone, k)
    {
      VictimGoesFirst(cfg, s, k);
    }
  }

  // ---------- The eviction loops ----------

  /** The size loop: evict until there is room for one more entry. */
  function EvictToSize<V>(cfg: Config, s: State<V>): (t: State<V>)
    requires s.Valid() && cfg.maxSize >= 1
    ensures t.Valid() && |t.order| < cfg.maxSize
    decreases |s.order|
  {
    if |s.order| < cfg.maxSize then s else
    EvictOneValid(cfg, s);
    EvictToSize(cfg, EvictOne(cfg, s))
  }

  /** The size loop after `n` rounds, guard aside. */
  function EvictTimes<V>(cfg: Config, s: State<V>, n: nat): (t: State<V>)
    requires s.Valid()
    ensures t.Valid()
    ensures |t.order| == if n <= |s.order| then |s.order| - n else 0
  {
    if n == 0 then s else
    var before := EvictTimes(cfg, s, n - 1);
    EvictOneValid(cfg, before);
    EvictOne(cfg, before)
  }

  /** The size loop ends, from any state, if and only if the cache may hold an entry at all: with a
      `maxSize` below one its guard stays true of the empty cache. */
  lemma {:induction false} SizeLoopEndsExactlyWhen<V>(cfg: Config, s: State<V>)
    requires s.Valid()
    ensures (exists n :: |EvictTimes(cfg, s, n).order| < cfg.maxSize) <==> cfg.maxSize >= 1
  {
    assert |EvictTimes(cfg, s, |s.order|).order| == 0;
  }

  /** The memory loop: evict until the incoming entry fits or nothing is left. */
  function EvictToFit<V>(cfg: Config, s: State<V>, incoming: int): State<V>
    requires s.Valid()
    decreases |s.order|
  {
    if s.memory + incoming <= cfg.maxMemory || s.order == [] then s else
    EvictOneValid(cfg, s);
    EvictToFit(cfg, EvictOne(cfg, s), incoming)
  }

  lemma {:induction false} EvictToSizeValid<V>(cfg: Config, s: State<V>)
    requires s.Valid() && cfg.maxSize >= 1
    ensures var t := EvictToSize(cfg, s);
            && t.Valid() && |t.order| < cfg.maxSize && t.evictions >= s.evictions
            && t.entries.Keys <= s.entries.Keys && (forall k :: k in t.entries ==> t.entries[k] == s.entries[k])
            && (t.evictions == s.evictions ==> t == s)
            && t.evictions - s.evictions == |s.order| - |t.order|
            && t.hits == s.hits && t.misses == s.misses
    decreases |s.order|
  {
    if |s.order| >= cfg.maxSize {
      EvictOneValid(cfg, s);
      EvictToSizeValid(cfg, EvictOne(cfg, s));
    }
  }

  lemma {:induction false} EvictToFitValid<V>(cfg: Config, s: State<V>, incoming: int)
    requires s.Valid()
    ensures var t := EvictToFit(cfg, s, incoming);
            && t.Valid() && |t.order| <= |s.order| && t.evictions >= s.evictions
            && t.entries.Keys <= s.entries.Keys && (forall k :: k in t.entries ==> t.entries[k] == s.entries[k])
            && (t.evictions == s.evictions ==> t == s)
            && t.evictions - s.evictions == |s.order| - |t.order|
            && t.hits == s.hits && t.misses == s.misses
            && (t.memory + incoming <= cfg.maxMemory || t.order == [])
    decreases |s.order|
  {
    if s.memory + incoming > cfg.maxMemory && s.order != [] {
      EvictOneValid(cfg, s);
      EvictToFitValid(cfg, EvictOne(cfg, s), incoming);
    }
  }

  predicate IsHit<V>(s: State<V>, k: Key, now: real) {
    k in s.entries && !s.entries[k].Expired(now)
  }

  function Get<V>(cfg: Config, s: State<V>, k: Key, now: real): (State<V>, Option<V>) {
    if k !in s.entries then (s.(misses := s.misses + 1), None)
    else if s.entries[k].Expired(now) then
      var t := RemoveKey(s, k);
      (t.(misses := t.misses + 1), None)
    else
      var order := if cfg.strategy == LRU then Without(s.order, k) + [k] else s.order;
      (s.(order := order, entries := s.entries[k := s.entries[k].Touched(now)], hits := s.hits + 1), s.entries[k].value)
  }

  /** `ttl or default_ttl`: a missing and a zero ttl both mean the default. */
  function EffectiveTtl(cfg: Config, ttl: Option<real>): real {
    if ttl.Some? && ttl.value != 0.0 then ttl.value else cfg.defaultTtl
  }

  function Insert<V>(s: State<V>, k: Key, e: Entry<V>): State<V> {
    s.(order := s.order + [k], entries := s.entries[k := e], memory := s.memory + e.size)
  }

  function MakeRoom<V>(cfg: Config, s: State<V>, k: Key, size: int): State<V>
    requires s.Valid() && cfg.maxSize >= 1
  {
    RemoveKeyValid(s, k);
    EvictToFit(cfg, EvictToSize(cfg, RemoveKey(s, k)), size)
  }

  function Set<V>(cfg: Config, s: State<V>, k: Key, v: Option<V>, ttl: Option<real>, size: int, now: real): State<V>
    requires s.Valid() && cfg.maxSize >= 1
  {
    Insert(MakeRoom(cfg, s, k, size), k, Entry(v, now, now, 0, EffectiveTtl(cfg, ttl), size))
  }

  function Cleared<V>(s: State<V>): State<V> {
    s.(order := [], entries := map[], memory := 0)
  }

  function FreshAt<V>(entries: map<Key, Entry<V>>, now: real): Key -> bool {
    k => k in entries && !entries[k].Expired(now)
  }

  /** Exactly the unexpired entries remain, in their order. */
  function Cleanup<V>(s: State<V>, now: real): State<V>
    requires s.Valid()
  {
    var order := Filter(s.order, FreshAt(s.entries, now));
    var entries := map k | k in s.entries && !s.entries[k].Expired(now) :: s.entries[k];
    s.(order := order, entries := entries, memory := SizeSum(order, entries))
  }

  // ---------- Every operation keeps the bookkeeping consistent ----------

  lemma {:induction false} InsertValid<V>(s: State<V>, k: Key, e: Entry<V>)
    requires s.Valid() && k !in s.entries
    ensures Insert(s, k, e).Valid()
  {
    assert SizeSum(s.order + [k], s.entries[k := e]) == s.memory + e.size by {
      assert k !in s.order;
      SizeSumAgrees(s.order, s.entries, s.entries[k := e]);
      assert (s.order + [k])[..|s.order|] == s.order;
    }
  }

  /** An LRU hit moves the touched entry to the end, as if it were taken out and put back. */
  lemma {:induction false} LruHitReinserts<V>(cfg: Config, s: State<V>, k: Key, now: real)
    requires s.Valid() && cfg.strategy == LRU && IsHit(s, k, now)
    ensures Get(cfg, s, k, now).0 == Insert(RemoveKey(s, k), k, s.entries[k].Touched(now)).(hits := s.hits + 1)
  {
    var t, u := Get(cfg, s, k, now).0, Insert(RemoveKey(s, k), k, s.entries[k].Touched(now));
    assert t.entries == u.entries;
  }

  lemma {:induction false} GetValid<V>(cfg: Config, s: State<V>, k: Key, now: real)
    requires s.Valid()
    ensures Get(cfg, s, k, now).0.Valid()
  {
    RemoveKeyValid(s, k);
    if IsHit(s, k, now) {
      if cfg.strategy == LRU {
        LruHitReinserts(cfg, s, k, now);
        InsertValid(RemoveKey(s, k), k, s.entries[k].Touched(now));
      } else {
        SizeSumAgrees(s.order, s.entries, Get(cfg, s, k, now).0.entries);
      }
    }
  }

  lemma {:induction false} MakeRoomValid<V>(cfg: Config, s: State<V>, k: Key, size: int)
    requires s.Valid() && cfg.maxSize >= 1
    ensures var t := MakeRoom(cfg, s, k, size);
            && t.Valid() && k !in t.entries && |t.order| < cfg.maxSize && t.evictions >= s.evictions
            && (forall j :: j in t.entries ==> j in s.entries && t.entries[j] == s.entries[j])
            && (t.evictions == s.evictions ==> t == RemoveKey(s, k))
            && t.evictions - s.evictions == |RemoveKey(s, k).order| - |t.order|
            && t.hits == s.hits && t.misses == s.misses
            && (t.memory + size <= cfg.maxMemory || t.order == [])
  {
    var r := RemoveKey(s, k);
    RemoveKeyValid(s, k);
    EvictToSizeValid(cfg, r);
    EvictToFitValid(cfg, EvictToSize(cfg, r), size);
  }

  /** After a set the new entry is last, the count is within `maxSize`, and memory is within
      its limit unless the new entry is alone. */
  lemma {:induction false} SetValid<V>(cfg: Config, s: State<V>, k: Key, v: Option<V>, ttl: Option<real>, size: int,
                                       now: real)
    requires s.Valid() && cfg.maxSize >= 1
    ensures var t := Set(cfg, s, k, v, ttl, size, now);
            && t.Valid()
            && |t.order| <= cfg.maxSize
            && t.order[|t.order| - 1] == k
            && (t.memory <= cfg.maxMemory || t.order == [k])
  {
    MakeRoomValid(cfg, s, k, size);
    InsertValid(MakeRoom(cfg, s, k, size), k, Entry(v, now, now, 0, EffectiveTtl(cfg, ttl), size));
  }

  lemma {:induction false} CleanupValid<V>(s: State<V>, now: real)
    requires s.Valid()
    ensures Cleanup(s, now).Valid()
    ensures |Cleanup(s, now).order| <= |s.order|
  {
    var t := Cleanup(s, now);
    OrderIsDistinct(s);
    FilterDistinct(s.order, FreshAt(s.entries, now));
    assert |t.order| == |t.entries| by {
      assert Elements(t.order) == t.entries.Keys;
      DistinctCardinality(t.order);
    }
  }

  // ---------- Cleaning up key by key ----------

  function ExpiredAt<V>(entries: map<Key, Entry<V>>, now: real): Key -> bool {
    k => k in entries && entries[k].Expired(now)
  }

  function RemoveKeys<V>(s: State<V>, keys: seq<Key>): State<V> {
    if keys == [] then s else RemoveKey(RemoveKeys(s, keys[..|keys| - 1]), keys[|keys| - 1])
  }

  function NotIn(gone: seq<Key>): Key -> bool {
    k => k !in gone
  }

  lemma {:induction false} RemoveKeyFilters<V>(s: State<V>, order: seq<Key>, gone: seq<Key>, k: Key)
    requires s.Valid() && s.order == Filter(order, NotIn(gone))
    ensures RemoveKey(s, k).order == Filter(order, NotIn(gone + [k]))
  {
    FilterTwice(order, NotIn(gone), Other(k), NotIn(gone + [k]));
    if k !in s.entries {
      WithoutAbsent(s.order, k);
    }
  }

  lemma {:induction false} RemoveKeysMeans<V>(s: State<V>, keys: seq<Key>)
    requires s.Valid()
    ensures var t := RemoveKeys(s, keys);
            && t.Valid()
            && t.order == Filter(s.order, NotIn(keys))
            && (forall k :: k in t.entries <==> k in s.entries && k !in keys)
            && (forall k :: k in t.entries ==> t.entries[k] == s.entries[k])
            && t.hits == s.hits && t.misses == s.misses && t.evictions == s.evictions
  {
    if keys == [] {
      FilterAll(s.order, NotIn(keys));
    } else {
      var front, k := keys[..|keys| - 1], keys[|keys| - 1];
      assert keys == front + [k];
      RemoveKeysMeans(s, front);
      RemoveKeyValid(RemoveKeys(s, front), k);
      RemoveKeyFilters(RemoveKeys(s, front), s.order, front, k);
    }
  }

  lemma {:induction false} ExpiredKeys<V>(s: State<V>, now: real)
    ensures forall k :: k in Filter(s.order, ExpiredAt(s.entries, now))
                   <==> k in s.order && k in s.entries && s.entries[k].Expired(now)
  {
    forall k
      ensures k in Filter(s.order, ExpiredAt(s.entries, now)) <==> k in s.order && ExpiredAt(s.entries, now)(k)
    {
      FilterMembers(s.order, ExpiredAt(s.entries, now), k);
    }
  }

  /** Removing the expired keys one by one leaves exactly the unexpired entries. */
  lemma {:induction false} CleanupByRemovals<V>(s: State<V>, now: real)
    requires s.Valid()
    ensures RemoveKeys(s, Filter(s.order, ExpiredAt(s.entries, now))) == Cleanup(s, now)
  {
    var expired := Filter(s.order, ExpiredAt(s.entries, now));
    var t, u := RemoveKeys(s, expired), Cleanup(s, now);
    ExpiredKeys(s, now);
    RemoveKeysMeans(s, expired);
    assert t.entries == u.entries;
    assert t.order == u.order by {
      FilterSame(s.order, NotIn(expired), FreshAt(s.entries, now));
    }
  }

  /** The cleanup drops as many entries as were expired. */
  lemma {:induction false} CleanupCount<V>(s: State<V>, now: real)
    requires s.Valid()
    ensures |Filter(s.order, ExpiredAt(s.entries, now))| == |s.order| - |Cleanup(s, now).order|
  {
    FilterSplits(s.order, ExpiredAt(s.entries, now), FreshAt(s.entries, now));
  }
}
