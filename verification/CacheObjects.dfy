/** The cache object with its in-place updates, and the memoising wrapper built on it. */
module CacheObjects {
  import opened Options
  import opened Sequences
  import C = Caches

  /** Without room for one entry (`maxSize` < 1) the size loop of `Set` never ends. */
  class OptimizedCache<V> {
    const cfg: C.Config
    var order: seq<C.Key>
    var entries: map<C.Key, C.Entry<V>>
    var currentMemory: int
    var hits: nat
    var misses: nat
    var evictions: nat

    function View(): C.State<V>
      reads this
    {
      C.State(order, entries, currentMemory, hits, misses, evictions)
    }

    ghost predicate Valid()
      reads this
    {
      View().Valid()
    }

    constructor (cfg: C.Config)
      ensures Valid() && View() == C.Empty() && this.cfg == cfg
    {
      this.cfg := cfg;
      order, entries, currentMemory := [], map[], 0;
      hits, misses, evictions := 0, 0, 0;
    }

    method Get(k: C.Key, now: real) returns (value: Option<V>)
      requires Valid()
      modifies this
      ensures Valid()
      ensures (View(), value) == C.Get(cfg, old(View()), k, now)
    {
      ghost var before := View();
      C.GetValid(cfg, before, k, now);
      if k !in entries {
        misses := misses + 1;
        return None;
      }
      if entries[k].Expired(now) {
        Remove(k);
        misses := misses + 1;
        return None;
      }
      entries := entries[k := entries[k].Touched(now)];
      if cfg.strategy == C.LRU {
        order := Without(order, k) + [k];
      }
      hits := hits + 1;
      value := entries[k].value;
      assert (View(), value) == C.Get(cfg, before, k, now);
    }

    method Set(k: C.Key, v: Option<V>, ttl: Option<real>, size: int, now: real)
      requires Valid() && cfg.maxSize >= 1
      modifies this
      ensures Valid()
      ensures View() == C.Set(cfg, old(View()), k, v, ttl, size, now)
      ensures k in entries
      ensures entries[k] == C.Entry(v, now, now, 0,
                                    if ttl.Some? && ttl.value != 0.0 then ttl.value else cfg.defaultTtl, size)
    {
      ghost var before := View();
      C.SetValid(cfg, before, k, v, ttl, size, now);
      if k in entries {
        Remove(k);
      } else {
        C.RemoveKeyValid(before, k);
      }
      EvictIfNeeded(size);
      assert View() == C.MakeRoom(cfg, before, k, size);
      Store(k, C.Entry(v, now, now, 0, C.EffectiveTtl(cfg, ttl), size));
    }

    method Store(k: C.Key, e: C.Entry<V>)
      modifies this
      ensures View() == C.Insert(old(View()), k, e)
    {
      order := order + [k];
      entries := entries[k := e];
      currentMemory := currentMemory + e.size;
    }

    method Remove(k: C.Key)
      requires Valid()
      modifies this
      ensures Valid()
      ensures View() == C.RemoveKey(old(View()), k)
    {
      C.RemoveKeyValid(View(), k);
      if k in entries {
        currentMemory := currentMemory - entries[k].size;
        order, entries := Without(order, k), entries - {k};
      }
    }

    method EvictIfNeeded(incoming: int)
      requires Valid() && cfg.maxSize >= 1
      modifies this
      ensures Valid()
      ensures View() == C.EvictToFit(cfg, C.EvictToSize(cfg, old(View())), incoming)
    {
      ghost var roomy := C.EvictToSize(cfg, View());
      while |order| >= cfg.maxSize
        invariant Valid()
        invariant C.EvictToSize(cfg, View()) == roomy
        decreases |order|
      {
        C.EvictOneValid(cfg, View());
        EvictOne();
      }
      ghost var fitted := C.EvictToFit(cfg, View(), incoming);
      while currentMemory + incoming > cfg.maxMemory && order != []
        invariant Valid()
        invariant C.EvictToFit(cfg, View(), incoming) == fitted
        decreases |order|
      {
        C.EvictOneValid(cfg, View());
        EvictOne();
      }
    }

    method EvictOne()
      requires Valid()
      modifies this
      ensures Valid()
      ensures View() == C.EvictOne(cfg, old(View()))
      ensures old(order) != [] ==>
                exists gone :: gone in old(entries) && entries == old(entries) - {gone}
                               && forall k :: k in entries ==> C.GoesFirst(cfg, old(View()), gone, k)
    {
      if order == [] {
        return;
      }
      ghost var gone := C.EvictOneTakesTheFirst(cfg, View());
      Remove(C.Victim(cfg, View()));
      evictions := evictions + 1;
    }

    method ClearAll()
      requires Valid()
      modifies this
      ensures Valid()
      ensures View() == C.Cleared(old(View()))
    {
      order, entries := [], map[];
      currentMemory := 0;
    }

    /** Removes the expired entries one by one and reports how many there were. */
    method CleanupExpired(now: real) returns (removed: nat)
      requires Valid()
      modifies this
      ensures Valid()
      ensures View() == C.Cleanup(old(View()), now)
      ensures removed == |old(order)| - |order|
    {
      var expired := Filter(order, C.ExpiredAt(entries, now));
      C.CleanupByRemovals(View(), now);
      C.CleanupCount(View(), now);
      RemoveAll(expired);
      removed := |expired|;
    }

    method RemoveAll(keys: seq<C.Key>)
      requires Valid()
      modifies this
      ensures Valid()
      ensures View() == C.RemoveKeys(old(View()), keys)
    {
      ghost var before := View();
      for i := 0 to |keys|
        invariant Valid()
        invariant View() == C.RemoveKeys(before, keys[..i])
      {
        assert keys[..i + 1][..i] == keys[..i];
        Remove(keys[i]);
      }
      assert keys[..|keys|] == keys;
    }
  }

  // ---------- The memoising decorator ----------

  /** The decorator's cache: LRU, 100 MB, the decorator's size and ttl. */
  function DecoratorConfig(maxSize: int, ttl: real): C.Config {
    C.Config(maxSize, 104857600, C.LRU, ttl)
  }

  /** One call of the wrapped function.  A cached `None` counts as absent. */
  function MemoCall<A, V>(cfg: C.Config, s: C.State<V>, key: A -> C.Key, f: A -> Option<V>, a: A, now: real)
    : (C.State<V>, Option<V>)
    requires s.Valid() && cfg.maxSize >= 1
  {
    var (looked, found) := C.Get(cfg, s, key(a), now);
    if found.Some? then (looked, found) else
    C.GetValid(cfg, s, key(a), now);
    (C.Set(cfg, looked, key(a), f(a), None, 0, now), f(a))
  }

  function MemoRun<A, V>(cfg: C.Config, key: A -> C.Key, f: A -> Option<V>, calls: seq<(A, real)>): (s: C.State<V>)
    requires cfg.maxSize >= 1
    ensures s.Valid()
  {
    if calls == [] then C.Empty() else
    var s := MemoRun(cfg, key, f, calls[..|calls| - 1]);
    var (a, now) := calls[|calls| - 1];
    MemoCallValid(cfg, s, key, f, a, now);
    MemoCall(cfg, s, key, f, a, now).0
  }

  lemma {:induction false} MemoCallValid<A, V>(cfg: C.Config, s: C.State<V>, key: A -> C.Key, f: A -> Option<V>, a: A,
                                               now: real)
    requires s.Valid() && cfg.maxSize >= 1
    ensures MemoCall(cfg, s, key, f, a, now).0.Valid()
  {
    C.GetValid(cfg, s, key(a), now);
    C.SetValid(cfg, C.Get(cfg, s, key(a), now).0, key(a), f(a), None, 0, now);
  }

  /** Arguments with the same cache key have the same function value. */
  ghost predicate KeysSeparate<A(!new), V>(key: A -> C.Key, f: A -> Option<V>) {
    forall a, b :: key(a) == key(b) ==> f(a) == f(b)
  }

  /** What is cached under the key of `a` is the function's value at `a`. */
  ghost predicate Remembers<A(!new), V>(s: C.State<V>, key: A -> C.Key, f: A -> Option<V>) {
    forall a {:trigger key(a)} :: key(a) in s.entries ==> s.entries[key(a)].value == f(a)
  }

  lemma {:induction false} MemoCallRemembers<A(!new), V>(cfg: C.Config, s: C.State<V>, key: A -> C.Key,
                                                         f: A -> Option<V>, a: A, now: real)
    requires s.Valid() && cfg.maxSize >= 1
    requires KeysSeparate(key, f) && Remembers(s, key, f)
    ensures MemoCall(cfg, s, key, f, a, now).1 == f(a)
    ensures Remembers(MemoCall(cfg, s, key, f, a, now).0, key, f)
  {
    GetRemembers(cfg, s, key, f, key(a), now);
    C.GetValid(cfg, s, key(a), now);
    SetRemembers(cfg, C.Get(cfg, s, key(a), now).0, key, f, a, now);
  }

  lemma {:induction false} GetRemembers<A(!new), V>(cfg: C.Config, s: C.State<V>, key: A -> C.Key, f: A -> Option<V>,
                                                    k: C.Key, now: real)
    requires s.Valid() && Remembers(s, key, f)
    ensures Remembers(C.Get(cfg, s, k, now).0, key, f)
  {
  }

  lemma {:induction false} SetRemembers<A(!new), V>(cfg: C.Config, s: C.State<V>, key: A -> C.Key, f: A -> Option<V>,
                                                    a: A, now: real)
    requires s.Valid() && cfg.maxSize >= 1
    requires KeysSeparate(key, f) && Remembers(s, key, f)
    ensures Remembers(C.Set(cfg, s, key(a), f(a), None, 0, now), key, f)
  {
    C.MakeRoomValid(cfg, s, key(a), 0);
  }

  lemma {:induction false} MemoRunRemembers<A(!new), V>(cfg: C.Config, key: A -> C.Key, f: A -> Option<V>,
                                                        calls: seq<(A, real)>)
    requires cfg.maxSize >= 1 && KeysSeparate(key, f)
    ensures Remembers(MemoRun(cfg, key, f, calls), key, f)
  {
    if calls != [] {
      var (a, now) := calls[|calls| - 1];
      MemoRunRemembers(cfg, key, f, calls[..|calls| - 1]);
      MemoCallRemembers(cfg, MemoRun(cfg, key, f, calls[..|calls| - 1]), key, f, a, now);
    }
  }

  /** Every call, after every run of calls, returns the function's value. */
  ghost predicate Transparent<A(!new), V>(cfg: C.Config, key: A -> C.Key, f: A -> Option<V>)
    requires cfg.maxSize >= 1
  {
    forall calls: seq<(A, real)>, a: A, now: real ::
      MemoCall(cfg, MemoRun(cfg, key, f, calls), key, f, a, now).1 == f(a)
  }

  /** A cached `None` is no use: the function is computed again, although a hit was counted. */
  lemma {:induction false} CachedNoneIsComputedAgain<A, V>(cfg: C.Config, s: C.State<V>, key: A -> C.Key,
                                                           f: A -> Option<V>, a: A, now: real)
    requires s.Valid() && cfg.maxSize >= 1
    requires C.IsHit(s, key(a), now) && s.entries[key(a)].value == None
    ensures C.Get(cfg, s, key(a), now).0.hits == s.hits + 1
    ensures MemoCall(cfg, s, key, f, a, now).1 == f(a)
  {
  }

  /** The entry the first call leaves. */
  lemma {:induction false} FirstCallStores<A, V>(maxSize: int, ttl: real, key: A -> C.Key, f: A -> Option<V>, a: A)
    requires maxSize >= 1
    ensures var s := MemoRun(DecoratorConfig(maxSize, ttl), key, f, [(a, 0.0)]);
            key(a) in s.entries && s.entries[key(a)] == C.Entry(f(a), 0.0, 0.0, 0, ttl, 0)
  {
    var cfg := DecoratorConfig(maxSize, ttl);
    var empty: C.State<V> := C.Empty();
    var calls := [(a, 0.0)];
    assert calls[..0] == [];
    assert MemoRun(cfg, key, f, calls[..0]) == empty;
    assert MemoRun(cfg, key, f, calls) == MemoCall(cfg, empty, key, f, a, 0.0).0;
  }

  /** Two arguments that share a key: a second call within the ttl gets the first one's value, unless
      that is `None`; then it gets its own. */
  lemma {:induction false} CollisionIsVisible<A, V>(maxSize: int, ttl: real, key: A -> C.Key, f: A -> Option<V>, a: A,
                                                    b: A, now: real)
    requires maxSize >= 1 && now <= ttl
    requires key(a) == key(b)
    ensures var cfg := DecoratorConfig(maxSize, ttl);
            MemoCall(cfg, MemoRun(cfg, key, f, [(a, 0.0)]), key, f, b, now).1 == if f(a).Some? then f(a) else f(b)
  {
    FirstCallStores(maxSize, ttl, key, f, a);
  }

  /** The decorator equals the function it wraps exactly when keys separate its values.  (The
      keys are MD5 digests of the printed arguments unless the caller supplies a key function.) */
  lemma {:induction false} TransparentExactlyWhenKeysSeparate<A(!new), V>(maxSize: int, ttl: real, key: A -> C.Key,
      f: A -> Option<V>)
    requires maxSize >= 1
    ensures Transparent(DecoratorConfig(maxSize, ttl), key, f) <==> KeysSeparate(key, f)
  {
    var cfg := DecoratorConfig(maxSize, ttl);
    if KeysSeparate(key, f) {
      forall calls: seq<(A, real)>, a: A, now: real
        ensures MemoCall(cfg, MemoRun(cfg, key, f, calls), key, f, a, now).1 == f(a)
      {
        MemoRunRemembers(cfg, key, f, calls);
        MemoCallRemembers(cfg, MemoRun(cfg, key, f, calls), key, f, a, now);
      }
    } else {
      var a, b :| key(a) == key(b) && f(a) != f(b);
      CollisionIsVisible(maxSize, ttl, key, f, a, b, ttl);
      CollisionIsVisible(maxSize, ttl, key, f, b, a, ttl);
    }
  }

  /** The wrapper object returned by the decorator. */
  class Memoized<A(!new), V> {
    const cache: OptimizedCache<V>
    const key: A -> C.Key
    const f: A -> Option<V>

    ghost predicate Valid()
      reads this, cache
    {
      cache.Valid() && cache.cfg.maxSize >= 1 && Remembers(cache.View(), key, f)
    }

    constructor (f: A -> Option<V>, key: A -> C.Key, maxSize: int, ttl: real)
      requires maxSize >= 1
      ensures Valid() && fresh(cache) && this.f == f && this.key == key
      ensures cache.cfg == C.Config(maxSize, 100 * 1024 * 1024, C.LRU, ttl)
    {
      this.f, this.key := f, key;
      cache := new OptimizedCache(DecoratorConfig(maxSize, ttl));
    }

    method Call(a: A, now: real) returns (r: Option<V>)
      requires Valid()
      modifies cache
      ensures KeysSeparate(key, f) ==> Valid() && r == f(a)
      ensures (cache.View(), r) == MemoCall(cache.cfg, old(cache.View()), key, f, a, now)
    {
      if KeysSeparate(key, f) {
        MemoCallRemembers(cache.cfg, cache.View(), key, f, a, now);
      }
      r := cache.Get(key(a), now);
      if r.Some? {
        return;
      }
      r := f(a);
      cache.Set(key(a), r, None, 0, now);
    }

    method CacheClear()
      requires Valid()
      modifies cache
      ensures Valid() && cache.View() == C.Cleared(old(cache.View()))
    {
      cache.ClearAll();
    }
  }
}
