/** What the cache evicts to make room: no more than it must, and in the order its strategy promises. */
module CacheEvictions {
  import opened Caches
  import opened CacheTraces
  import opened InsertionOrders
  import opened Options
  import opened Recency
  import opened Sequences

  // ---------- In the order of the strategy ----------

  /** `t` is what is left of `s` after some entries went. */
  ghost predicate Part<V>(s: State<V>, t: State<V>) {
    && Thinned(s, t) && t.hits == s.hits && t.misses == s.misses
    && forall k :: k in t.entries ==> t.entries[k] == s.entries[k]
  }

  /** And what went was to go before what stayed. */
  ghost predicate Evicted<V>(cfg: Config, s: State<V>, t: State<V>) {
    && Part(s, t)
    && forall gone, kept :: gone in s.entries && gone !in t.entries && kept in t.entries ==>
         GoesFirst(cfg, s, gone, kept)
  }

  lemma {:induction false} EarlierInPart<V>(s: State<V>, t: State<V>, j: Key, k: Key)
    requires Thinned(s, t) && Earlier(t.order, j, k)
    ensures Earlier(s.order, j, k)
  {
    var a, b :| 0 <= a < b < |t.order| && t.order[a] == j && t.order[b] == k;
    var a', b' := FilterPositions(s.order, Holds(t.entries), a, b);
  }

  lemma {:induction false} GoesFirstInPart<V>(cfg: Config, s: State<V>, t: State<V>, j: Key, k: Key)
    requires Part(s, t) && j in t.entries && k in t.entries && GoesFirst(cfg, t, j, k)
    ensures GoesFirst(cfg, s, j, k)
  {
    if Earlier(t.order, j, k) {
      EarlierInPart(s, t, j, k);
    }
  }

  lemma {:induction false} EvictedInTurn<V>(cfg: Config, s: State<V>, t: State<V>, u: State<V>)
    requires Evicted(cfg, s, t) && Evicted(cfg, t, u)
    ensures Evicted(cfg, s, u)
  {
    ThinningIsTransitive(s, t, u);
    forall gone, kept | gone in s.entries && gone !in u.entries && kept in u.entries
      ensures GoesFirst(cfg, s, gone, kept)
    {
      if gone in t.entries {
        GoesFirstInPart(cfg, s, t, gone, kept);
      }
    }
  }

  lemma {:induction false} EvictOneEvicts<V>(cfg: Config, s: State<V>)
    requires s.Valid()
    ensures Evicted(cfg, s, EvictOne(cfg, s))
  {
    EvictOneThins(cfg, s);
    if s.order != [] {
      var gone := EvictOneTakesTheFirst(cfg, s);
    }
  }

  lemma {:induction false} NothingEvicted<V>(cfg: Config, s: State<V>)
    requires s.Valid()
    ensures Evicted(cfg, s, s)
  {
    ThinningIsReflexive(s);
  }

  lemma {:induction false} OneMoreEvicted<V>(cfg: Config, s: State<V>, t: State<V>)
    requires s.Valid() && Evicted(cfg, EvictOne(cfg, s), t)
    ensures Evicted(cfg, s, t)
  {
    EvictOneEvicts(cfg, s);
    EvictedInTurn(cfg, s, EvictOne(cfg, s), t);
  }

  lemma {:induction false} EvictToSizeEvicts<V>(cfg: Config, s: State<V>)
    requires s.Valid() && cfg.maxSize >= 1
    ensures Evicted(cfg, s, EvictToSize(cfg, s))
    decreases |s.order|
  {
    if |s.order| < cfg.maxSize {
      NothingEvicted(cfg, s);
    } else {
      EvictOneValid(cfg, s);
      EvictToSizeEvicts(cfg, EvictOne(cfg, s));
      OneMoreEvicted(cfg, s, EvictToSize(cfg, s));
    }
  }

  lemma {:induction false} EvictToFitEvicts<V>(cfg: Config, s: State<V>, incoming: int)
    requires s.Valid()
    ensures Evicted(cfg, s, EvictToFit(cfg, s, incoming))
    decreases |s.order|
  {
    if s.memory + incoming <= cfg.maxMemory || s.order == [] {
      NothingEvicted(cfg, s);
    } else {
      EvictOneValid(cfg, s);
      EvictToFitEvicts(cfg, EvictOne(cfg, s), incoming);
      OneMoreEvicted(cfg, s, EvictToFit(cfg, s, incoming));
    }
  }

  lemma {:induction false} RoomIsMadeByEvictions<V>(cfg: Config, s: State<V>, k: Key, size: int)
    requires s.Valid() && cfg.maxSize >= 1
    ensures Evicted(cfg, RemoveKey(s, k), MakeRoom(cfg, s, k, size))
  {
    var r := RemoveKey(s, k);
    RemoveKeyValid(s, k);
    EvictToSizeEvicts(cfg, r);
    EvictToFitEvicts(cfg, EvictToSize(cfg, r), size);
    EvictedInTurn(cfg, r, EvictToSize(cfg, r), MakeRoom(cfg, s, k, size));
  }

  /** However many entries a set evicts, under the strategy each of them was to go before each that stays. */
  lemma {:induction false} SetEvictsTheFirst<V>(cfg: Config, s: State<V>, k: Key, v: Option<V>, ttl: Option<real>,
                                                size: int, now: real, gone: Key, kept: Key)
    requires s.Valid() && cfg.maxSize >= 1
    requires var t := Set(cfg, s, k, v, ttl, size, now);
             gone in s.entries && gone !in t.entries && kept in t.entries && kept != k
    ensures kept in s.entries && GoesFirst(cfg, s, gone, kept)
  {
    var r := RemoveKey(s, k);
    RoomIsMadeByEvictions(cfg, s, k, size);
    RemoveKeyThins(s, k);
    MakeRoomValid(cfg, s, k, size);
    GoesFirstInPart(cfg, s, r, gone, kept);
  }

  // ---------- No more than it must ----------

  /** There is room for one more entry, of size `incoming`, or nothing left to evict. */
  predicate Roomy<V>(cfg: Config, s: State<V>, incoming: int) {
    |s.order| < cfg.maxSize && (s.memory + incoming <= cfg.maxMemory || s.order == [])
  }

  /** The last eviction between `s` and `t` was from `u`. */
  ghost predicate LastFrom<V>(cfg: Config, s: State<V>, t: State<V>, u: State<V>) {
    u.Valid() && Evicted(cfg, s, u) && EvictOne(cfg, u) == t
  }

  lemma {:induction false} LastSizeEviction<V>(cfg: Config, s: State<V>) returns (u: State<V>)
    requires s.Valid() && cfg.maxSize >= 1 && |s.order| >= cfg.maxSize
    ensures LastFrom(cfg, s, EvictToSize(cfg, s), u) && |u.order| >= cfg.maxSize
    decreases |s.order|
  {
    EvictOneValid(cfg, s);
    if |EvictOne(cfg, s).order| < cfg.maxSize {
      u := s;
      NothingEvicted(cfg, s);
    } else {
      u := LastSizeEviction(cfg, EvictOne(cfg, s));
      OneMoreEvicted(cfg, s, u);
    }
  }

  lemma {:induction false} LastMemoryEviction<V>(cfg: Config, s: State<V>, incoming: int) returns (u: State<V>)
    requires s.Valid() && s.memory + incoming > cfg.maxMemory && s.order != []
    ensures LastFrom(cfg, s, EvictToFit(cfg, s, incoming), u)
    ensures u.memory + incoming > cfg.maxMemory && u.order != []
    decreases |s.order|
  {
    EvictOneValid(cfg, s);
    var t := EvictOne(cfg, s);
    if t.memory + incoming <= cfg.maxMemory || t.order == [] {
      u := s;
      NothingEvicted(cfg, s);
    } else {
      u := LastMemoryEviction(cfg, t, incoming);
      OneMoreEvicted(cfg, s, u);
    }
  }

  /** A set stops evicting as soon as there is room: when it evicted at all, before the last eviction there
      was none. */
  lemma {:induction false} LastEvictionWasNeeded<V>(cfg: Config, s: State<V>, k: Key, size: int) returns (u: State<V>)
    requires s.Valid() && cfg.maxSize >= 1 && !Roomy(cfg, RemoveKey(s, k), size)
    ensures Roomy(cfg, MakeRoom(cfg, s, k, size), size)
    ensures LastFrom(cfg, RemoveKey(s, k), MakeRoom(cfg, s, k, size), u) && !Roomy(cfg, u, size)
  {
    var r := RemoveKey(s, k);
    RemoveKeyValid(s, k);
    MakeRoomValid(cfg, s, k, size);
    var t := EvictToSize(cfg, r);
    if t.memory + size > cfg.maxMemory && t.order != [] {
      u := LastMemoryEviction(cfg, t, size);
      EvictToSizeEvicts(cfg, r);
      EvictedInTurn(cfg, r, t, u);
    } else {
      u := LastSizeEviction(cfg, r);
    }
  }

  /** With room to begin with it evicts nothing. */
  lemma {:induction false} RoomyEvictsNothing<V>(cfg: Config, s: State<V>, k: Key, size: int)
    requires s.Valid() && cfg.maxSize >= 1 && Roomy(cfg, RemoveKey(s, k), size)
    ensures MakeRoom(cfg, s, k, size) == RemoveKey(s, k)
  {
    RemoveKeyValid(s, k);
  }

  // ---------- By the trace ----------

  /** The keys stored or hit, in order, since the last clear. */
  function Touches<V>(cfg: Config, ops: seq<Op<V>>): seq<Key>
    requires cfg.maxSize >= 1
  {
    if ops == [] then [] else
    var before := Touches(cfg, ops[..|ops| - 1]);
    match ops[|ops| - 1]
    case Store(k, _, _, _, _) => before + [k]
    case Lookup(k, now) => if IsHit(Run(cfg, ops[..|ops| - 1]), k, now) then before + [k] else before
    case Clear => []
    case Sweep(_) => before
  }

  lemma {:induction false} HitFollowsLastTouches<V>(cfg: Config, touches: seq<Key>, s: State<V>, k: Key, now: real)
    requires s.Valid() && cfg.strategy == LRU && IsHit(s, k, now)
    requires s.order == Filter(LastUses(touches), Holds(s.entries))
    ensures var t := Get(cfg, s, k, now).0;
            t.order == Filter(LastUses(touches + [k]), Holds(t.entries))
  {
    var r, t := RemoveKey(s, k), Get(cfg, s, k, now).0;
    RemoveKeyValid(s, k);
    RemoveKeyThins(s, k);
    ThinnedOrder(LastUses(touches), s, r);
    InsertFollowsLastSets(touches, r, k, s.entries[k].Touched(now));
    LruHitReinserts(cfg, s, k, now);
    assert t.entries == Insert(r, k, s.entries[k].Touched(now)).entries;
  }

  /** Under LRU, after every run, the stored keys are in the order of their last sets and hits. */
  lemma {:induction false} LruOrderIsThatOfLastTouches<V>(cfg: Config, ops: seq<Op<V>>)
    requires cfg.maxSize >= 1 && cfg.strategy == LRU
    ensures Run(cfg, ops).order == Filter(LastUses(Touches(cfg, ops)), Holds(Run(cfg, ops).entries))
  {
    if ops != [] {
      var front, op := ops[..|ops| - 1], ops[|ops| - 1];
      var s, t, touches := Run(cfg, front), Run(cfg, ops), Touches(cfg, front);
      LruOrderIsThatOfLastTouches(cfg, front);
      match op
      case Lookup(k, now) =>
        if IsHit(s, k, now) {
          HitFollowsLastTouches(cfg, touches, s, k, now);
        } else {
          RemoveKeyThins(s, k);
          ThinnedOrder(LastUses(touches), s, RemoveKey(s, k));
        }
      case Store(k, v, ttl, size, now) =>
        MakeRoomValid(cfg, s, k, size);
        MakeRoomThins(cfg, s, k, size);
        ThinnedOrder(LastUses(touches), s, MakeRoom(cfg, s, k, size));
        InsertFollowsLastSets(touches, MakeRoom(cfg, s, k, size), k,
                              Entry(v, now, now, 0, EffectiveTtl(cfg, ttl), size));
      case Clear =>
      case Sweep(now) =>
        CleanupThins(s, now);
        ThinnedOrder(LastUses(touches), s, t);
    }
  }

  /** What moves a key to the end: under LRU sets and hits, otherwise sets alone. */
  function Moves<V>(cfg: Config, ops: seq<Op<V>>): seq<Key>
    requires cfg.maxSize >= 1
  {
    if cfg.strategy == LRU then Touches(cfg, ops) else Sets(ops)
  }

  lemma {:induction false} EarlierMovedBefore<V>(cfg: Config, ops: seq<Op<V>>, j: Key, k: Key)
    requires cfg.maxSize >= 1 && Earlier(Run(cfg, ops).order, j, k)
    ensures LastBefore(Moves(cfg, ops), j, k)
  {
    var s := Run(cfg, ops);
    if cfg.strategy == LRU {
      LruOrderIsThatOfLastTouches(cfg, ops);
    } else {
      OrderIsThatOfLastSets(cfg, ops);
    }
    var a, b :| 0 <= a < b < |s.order| && s.order[a] == j && s.order[b] == k;
    var a', b' := FilterPositions(LastUses(Moves(cfg, ops)), Holds(s.entries), a, b);
    LastUsesOrdered(Moves(cfg, ops), a', b');
  }

  /** Fewer hits since its last set, or as many and set before. */
  ghost predicate FewerHits<V>(cfg: Config, ops: seq<Op<V>>, j: Key, k: Key)
    requires cfg.maxSize >= 1
  {
    var a, b := HitsSinceSet(cfg, ops, j), HitsSinceSet(cfg, ops, k);
    a < b || (a == b && LastBefore(Sets(ops), j, k))
  }

  /** The ttl of its last set ends sooner, or at the same time and it was set before. */
  ghost predicate EndsSooner<V>(cfg: Config, ops: seq<Op<V>>, j: Key, k: Key) {
    && LatestSet(ops, j).Some? && LatestSet(ops, k).Some?
    && var a, b := LatestSet(ops, j).value, LatestSet(ops, k).value;
       var (endsA, endsB) := (a.at + Lifetime(cfg, a), b.at + Lifetime(cfg, b));
       endsA < endsB || (endsA == endsB && LastBefore(Sets(ops), j, k))
  }

  /** On the trace of operations, `j` is to go before `k`. */
  ghost predicate DueBefore<V>(cfg: Config, ops: seq<Op<V>>, j: Key, k: Key)
    requires cfg.maxSize >= 1
  {
    match cfg.strategy
    case LRU => LastBefore(Touches(cfg, ops), j, k)
    case LFU => FewerHits(cfg, ops, j, k)
    case TTL => EndsSooner(cfg, ops, j, k)
    case Adaptive =>
      if 10 * Hits(cfg, ops) > 7 * Lookups(ops) then LastBefore(Sets(ops), j, k) else FewerHits(cfg, ops, j, k)
  }

  lemma {:induction false} GoesFirstIsDue<V>(cfg: Config, ops: seq<Op<V>>, j: Key, k: Key)
    requires cfg.maxSize >= 1
    requires j in Run(cfg, ops).entries && k in Run(cfg, ops).entries && GoesFirst(cfg, Run(cfg, ops), j, k)
    ensures DueBefore(cfg, ops, j, k)
  {
    EntriesAreFaithful(cfg, ops, j);
    EntriesAreFaithful(cfg, ops, k);
    StatisticsCountLookups(cfg, ops);
    if Earlier(Run(cfg, ops).order, j, k) {
      EarlierMovedBefore(cfg, ops, j, k);
    }
  }

  /** After any run and for every strategy, whatever a set evicts was due before whatever it keeps: used last
      before it, hit less often, ending sooner; and where hits or ends tie, set last before it. */
  lemma {:induction false} EvictedWasDueBefore<V>(cfg: Config, ops: seq<Op<V>>, k: Key, v: Option<V>,
                                                  ttl: Option<real>, size: int, now: real, gone: Key, kept: Key)
    requires cfg.maxSize >= 1
    requires var s, t := Run(cfg, ops), Run(cfg, ops + [Store(k, v, ttl, size, now)]);
             gone in s.entries && gone !in t.entries && kept in t.entries && kept != k
    ensures DueBefore(cfg, ops, gone, kept)
  {
    assert (ops + [Store(k, v, ttl, size, now)])[..|ops|] == ops;
    SetEvictsTheFirst(cfg, Run(cfg, ops), k, v, ttl, size, now, gone, kept);
    GoesFirstIsDue(cfg, ops, gone, kept);
  }
}
