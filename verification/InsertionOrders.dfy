/** What the key order of the cache is under the strategies that do not move keys on a hit. */
module InsertionOrders {
  import opened Caches
  import opened CacheTraces
  import opened Options
  import opened Recency
  import opened Sequences

  /** The keys stored, in order, since the last clear. */
  function Sets<V>(ops: seq<Op<V>>): seq<Key> {
    if ops == [] then [] else
    var before := Sets(ops[..|ops| - 1]);
    match ops[|ops| - 1]
    case Store(k, _, _, _, _) => before + [k]
    case Clear => []
    case _ => before
  }

  function Holds<V>(entries: map<Key, Entry<V>>): Key -> bool {
    k => k in entries
  }

  /** `t` keeps some of the entries of `s`, in the same order. */
  ghost predicate Thinned<V>(s: State<V>, t: State<V>) {
    && t.entries.Keys <= s.entries.Keys
    && t.order == Filter(s.order, Holds(t.entries))
  }

  lemma {:induction false} ThinnedOrder<V>(keys: seq<Key>, s: State<V>, t: State<V>)
    requires s.order == Filter(keys, Holds(s.entries)) && Thinned(s, t)
    ensures t.order == Filter(keys, Holds(t.entries))
  {
    FilterTwice(keys, Holds(s.entries), Holds(t.entries), Holds(t.entries));
  }

  lemma {:induction false} RemoveKeyThins<V>(s: State<V>, k: Key)
    requires s.Valid()
    ensures Thinned(s, RemoveKey(s, k))
  {
    var t := RemoveKey(s, k);
    if k in s.entries {
      FilterSame(s.order, Other(k), Holds(t.entries));
    } else {
      FilterAll(s.order, Holds(t.entries));
    }
  }

  lemma {:induction false} EvictOneThins<V>(cfg: Config, s: State<V>)
    requires s.Valid()
    ensures Thinned(s, EvictOne(cfg, s))
  {
    if s.order != [] {
      RemoveKeyThins(s, Victim(cfg, s));
    }
  }

  lemma {:induction false} ThinningIsTransitive<V>(s: State<V>, t: State<V>, u: State<V>)
    requires Thinned(s, t) && Thinned(t, u)
    ensures Thinned(s, u)
  {
    ThinnedOrder(s.order, t, u);
  }

  lemma {:induction false} ThinningIsReflexive<V>(s: State<V>)
    requires s.Valid()
    ensures Thinned(s, s)
  {
    FilterAll(s.order, Holds(s.entries));
  }

  lemma {:induction false} EvictToSizeThins<V>(cfg: Config, s: State<V>)
    requires s.Valid() && cfg.maxSize >= 1
    ensures Thinned(s, EvictToSize(cfg, s))
    decreases |s.order|
  {
    ThinningIsReflexive(s);
    if |s.order| >= cfg.maxSize {
      EvictOneValid(cfg, s);
      EvictOneThins(cfg, s);
      EvictToSizeThins(cfg, EvictOne(cfg, s));
      ThinningIsTransitive(s, EvictOne(cfg, s), EvictToSize(cfg, s));
    }
  }

  lemma {:induction false} EvictToFitThins<V>(cfg: Config, s: State<V>, incoming: int)
    requires s.Valid()
    ensures Thinned(s, EvictToFit(cfg, s, incoming))
    decreases |s.order|
  {
    ThinningIsReflexive(s);
    if s.memory + incoming > cfg.maxMemory && s.order != [] {
      EvictOneValid(cfg, s);
      EvictOneThins(cfg, s);
      EvictToFitThins(cfg, EvictOne(cfg, s), incoming);
      ThinningIsTransitive(s, EvictOne(cfg, s), EvictToFit(cfg, s, incoming));
    }
  }

  lemma {:induction false} MakeRoomThins<V>(cfg: Config, s: State<V>, k: Key, size: int)
    requires s.Valid() && cfg.maxSize >= 1
    ensures Thinned(s, MakeRoom(cfg, s, k, size))
  {
    var r := RemoveKey(s, k);
    RemoveKeyValid(s, k);
    RemoveKeyThins(s, k);
    EvictToSizeThins(cfg, r);
    EvictToFitThins(cfg, EvictToSize(cfg, r), size);
    ThinningIsTransitive(s, r, EvictToSize(cfg, r));
    ThinningIsTransitive(s, EvictToSize(cfg, r), MakeRoom(cfg, s, k, size));
  }

  lemma {:induction false} CleanupThins<V>(s: State<V>, now: real)
    requires s.Valid()
    ensures Thinned(s, Cleanup(s, now))
  {
    FilterSame(s.order, FreshAt(s.entries, now), Holds(Cleanup(s, now).entries));
  }

  /** Where a key is stored, the order changes as the order of last sets does. */
  lemma {:induction false} InsertFollowsLastSets<V>(sets: seq<Key>, s: State<V>, k: Key, e: Entry<V>)
    requires k !in s.entries && s.order == Filter(LastUses(sets), Holds(s.entries))
    ensures Insert(s, k, e).order == Filter(LastUses(sets + [k]), Holds(Insert(s, k, e).entries))
  {
    var last, holds := LastUses(sets), Holds(Insert(s, k, e).entries);
    assert (sets + [k])[..|sets|] == sets;
    FilterTwice(last, Other(k), holds, Holds(s.entries));
    FilterConcat(Without(last, k), [k], holds);
    FilterSingle(k, holds);
  }

  /** Under every strategy but LRU, after every run, the stored keys are in the order of their last sets. */
  lemma {:induction false} OrderIsThatOfLastSets<V>(cfg: Config, ops: seq<Op<V>>)
    requires cfg.maxSize >= 1 && cfg.strategy != LRU
    ensures Run(cfg, ops).order == Filter(LastUses(Sets(ops)), Holds(Run(cfg, ops).entries))
  {
    if ops != [] {
      var front, op := ops[..|ops| - 1], ops[|ops| - 1];
      var s, t := Run(cfg, front), Run(cfg, ops);
      OrderIsThatOfLastSets(cfg, front);
      match op
      case Lookup(k, now) =>
        RemoveKeyThins(s, k);
        ThinnedOrder(LastUses(Sets(front)), s, RemoveKey(s, k));
        FilterSame(LastUses(Sets(front)), Holds(s.entries), Holds(if IsHit(s, k, now) then t.entries else s.entries));
      case Store(k, v, ttl, size, now) =>
        MakeRoomValid(cfg, s, k, size);
        MakeRoomThins(cfg, s, k, size);
        ThinnedOrder(LastUses(Sets(front)), s, MakeRoom(cfg, s, k, size));
        InsertFollowsLastSets(Sets(front), MakeRoom(cfg, s, k, size), k,
                              Entry(v, now, now, 0, EffectiveTtl(cfg, ttl), size));
      case Clear =>
      case Sweep(now) =>
        CleanupThins(s, now);
        ThinnedOrder(LastUses(Sets(front)), s, t);
    }
  }

  lemma {:induction false} EarlierInOrderSetBefore<V>(cfg: Config, ops: seq<Op<V>>, i: nat, j: nat)
    requires cfg.maxSize >= 1 && cfg.strategy != LRU
    requires i < j < |Run(cfg, ops).order|
    ensures LastBefore(Sets(ops), Run(cfg, ops).order[i], Run(cfg, ops).order[j])
  {
    OrderIsThatOfLastSets(cfg, ops);
    var i', j' := FilterPositions(LastUses(Sets(ops)), Holds(Run(cfg, ops).entries), i, j);
    LastUsesOrdered(Sets(ops), i', j');
  }

  lemma {:induction false} FirstIsSetFirst(order: seq<Key>, sets: seq<Key>, k: Key)
    requires forall i, j :: 0 <= i < j < |order| ==> LastBefore(sets, order[i], order[j])
    requires k in order
    ensures k != order[0] <==> exists j :: j in order && LastBefore(sets, j, k)
  {
    var i :| 0 <= i < |order| && order[i] == k;
    if i > 0 {
      assert order[0] in order && LastBefore(sets, order[0], order[i]);
    }
  }

  /** What the Adaptive strategy does at a high hit rate, on the trace: a stored key survives a newcomer
      that fills its place if and only if another stored key was last set before it.  When it was last
      hit makes no difference. */
  lemma {:induction false} AdaptiveEvictsTheOldestSet<V>(cfg: Config, ops: seq<Op<V>>, k: Key, newcomer: Key,
                                                         v: Option<V>, ttl: Option<real>, size: int, now: real)
    requires cfg.strategy == Adaptive && cfg.maxSize >= 1
    requires var s := Run(cfg, ops);
             && |s.order| == cfg.maxSize && HitRate(s) > 0.7 && newcomer !in s.entries && k in s.entries
             && s.order[0] in s.entries && s.memory - s.entries[s.order[0]].size + size <= cfg.maxMemory
    ensures k in Set(cfg, Run(cfg, ops), newcomer, v, ttl, size, now).entries
            <==> exists j :: j in Run(cfg, ops).order && LastBefore(Sets(ops), j, k)
  {
    var order := Run(cfg, ops).order;
    forall i, j | 0 <= i < j < |order|
      ensures LastBefore(Sets(ops), order[i], order[j])
    {
      EarlierInOrderSetBefore(cfg, ops, i, j);
    }
    FirstIsSetFirst(order, Sets(ops), k);
    AdaptiveEvictsExactlyTheFirst(cfg, Run(cfg, ops), k, newcomer, v, ttl, size, now);
  }
}
