/** Whole runs of the cache, related to what can be read off the trace of operations alone. */
module CacheTraces {
  import opened Caches
  import opened Options
  import opened RealArithmetic
  import opened Sequences

  datatype Op<+V> =
    | Lookup(key: Key, now: real)
    | Store(key: Key, value: Option<V>, ttl: Option<real>, size: int, now: real)
    | Clear
    | Sweep(now: real)

  function Step<V>(cfg: Config, s: State<V>, op: Op<V>): State<V>
    requires s.Valid() && cfg.maxSize >= 1
  {
    match op
    case Lookup(k, now) => Get(cfg, s, k, now).0
    case Store(k, v, ttl, size, now) => Set(cfg, s, k, v, ttl, size, now)
    case Clear => Cleared(s)
    case Sweep(now) => Cleanup(s, now)
  }

  lemma {:induction false} StepValid<V>(cfg: Config, s: State<V>, op: Op<V>)
    requires s.Valid() && cfg.maxSize >= 1
    ensures Step(cfg, s, op).Valid()
  {
    match op
    case Lookup(k, now) => GetValid(cfg, s, k, now);
    case Store(k, v, ttl, size, now) => SetValid(cfg, s, k, v, ttl, size, now);
    case Clear =>
    case Sweep(now) => CleanupValid(s, now);
  }

  /** The state after a run from the empty cache. */
  function Run<V>(cfg: Config, ops: seq<Op<V>>): (s: State<V>)
    requires cfg.maxSize >= 1
    ensures s.Valid()
  {
    if ops == [] then Empty() else
    var s := Run(cfg, ops[..|ops| - 1]);
    StepValid(cfg, s, ops[|ops| - 1]);
    Step(cfg, s, ops[|ops| - 1])
  }

  // ---------- Capacity ----------

  ghost predicate SizesNonNegative<V>(ops: seq<Op<V>>) {
    forall i :: 0 <= i < |ops| && ops[i].Store? ==> ops[i].size >= 0
  }

  ghost predicate WithinCapacity<V>(cfg: Config, s: State<V>) {
    && |s.order| <= cfg.maxSize
    && (forall k :: k in s.entries ==> s.entries[k].size >= 0)
    && (s.memory <= cfg.maxMemory || |s.order| <= 1)
  }

  lemma {:induction false} FilteredSizeSum<V>(order: seq<Key>, a: map<Key, Entry<V>>, b: map<Key, Entry<V>>,
                                              keep: Key -> bool)
    requires forall k :: k in order ==> SizeOf(b, k) >= 0
    requires forall k :: k in order && keep(k) ==> SizeOf(a, k) == SizeOf(b, k)
    ensures SizeSum(Filter(order, keep), a) <= SizeSum(order, b)
  {
    if order != [] {
      assert order[|order| - 1] in order;
      FilteredSizeSum(order[..|order| - 1], a, b, keep);
    }
  }

  lemma {:induction false} GetWithinCapacity<V>(cfg: Config, s: State<V>, k: Key, now: real)
    requires s.Valid() && WithinCapacity(cfg, s)
    ensures WithinCapacity(cfg, Get(cfg, s, k, now).0)
  {
    RemoveKeyValid(s, k);
    if IsHit(s, k, now) && cfg.strategy == LRU {
      LruHitReinserts(cfg, s, k, now);
    }
  }

  lemma {:induction false} InsertWithinCapacity<V>(cfg: Config, s: State<V>, k: Key, e: Entry<V>)
    requires k !in s.entries && |s.order| < cfg.maxSize && (s.memory + e.size <= cfg.maxMemory || s.order == [])
    requires e.size >= 0 && forall j :: j in s.entries ==> s.entries[j].size >= 0
    ensures WithinCapacity(cfg, Insert(s, k, e))
  {
  }

  lemma {:induction false} SetWithinCapacity<V>(cfg: Config, s: State<V>, k: Key, v: Option<V>, ttl: Option<real>,
                                                size: nat, now: real)
    requires s.Valid() && cfg.maxSize >= 1 && WithinCapacity(cfg, s)
    ensures WithinCapacity(cfg, Set(cfg, s, k, v, ttl, size, now))
  {
    MakeRoomValid(cfg, s, k, size);
    InsertWithinCapacity(cfg, MakeRoom(cfg, s, k, size), k, Entry(v, now, now, 0, EffectiveTtl(cfg, ttl), size));
  }

  lemma {:induction false} SweepWithinCapacity<V>(cfg: Config, s: State<V>, now: real)
    requires s.Valid() && WithinCapacity(cfg, s)
    ensures WithinCapacity(cfg, Cleanup(s, now))
  {
    CleanupValid(s, now);
    FilteredSizeSum(s.order, Cleanup(s, now).entries, s.entries, FreshAt(s.entries, now));
  }

  /** Over every run with non-negative sizes the entry count is within `maxSize`, and memory
      within its limit unless a single entry is left. */
  lemma {:induction false} RunWithinCapacity<V>(cfg: Config, ops: seq<Op<V>>)
    requires cfg.maxSize >= 1 && SizesNonNegative(ops)
    ensures WithinCapacity(cfg, Run(cfg, ops))
  {
    if ops != [] {
      var s := Run(cfg, ops[..|ops| - 1]);
      RunWithinCapacity(cfg, ops[..|ops| - 1]);
      match ops[|ops| - 1]
      case Lookup(k, now) => GetWithinCapacity(cfg, s, k, now);
      case Store(k, v, ttl, size, now) => SetWithinCapacity(cfg, s, k, v, ttl, size, now);
      case Clear =>
      case Sweep(now) => SweepWithinCapacity(cfg, s, now);
    }
  }

  // ---------- A hit returns the latest set ----------

  /** What a store was given. */
  datatype Record<+V> = Record(value: Option<V>, at: real, ttl: Option<real>, size: int)

  /** The last store of `k` that no clear follows. */
  function LatestSet<V>(ops: seq<Op<V>>, k: Key): Option<Record<V>> {
    if ops == [] then None else
    var before := LatestSet(ops[..|ops| - 1], k);
    match ops[|ops| - 1]
    case Store(j, v, ttl, size, now) => if j == k then Some(Record(v, now, ttl, size)) else before
    case Clear => None
    case _ => before
  }

  /** How long what was stored is good for: the ttl given, unless there was none or it was zero. */
  ghost function Lifetime<V>(cfg: Config, r: Record<V>): real {
    match r.ttl
    case None => cfg.defaultTtl
    case Some(ttl) => if ttl == 0.0 then cfg.defaultTtl else ttl
  }

  /** How often `k` has been hit since its last store. */
  function HitsSinceSet<V>(cfg: Config, ops: seq<Op<V>>, k: Key): nat
    requires cfg.maxSize >= 1
  {
    if ops == [] then 0 else
    var before := HitsSinceSet(cfg, ops[..|ops| - 1], k);
    match ops[|ops| - 1]
    case Store(j, _, _, _, _) => if j == k then 0 else before
    case Lookup(j, now) => if j == k && IsHit(Run(cfg, ops[..|ops| - 1]), k, now) then before + 1 else before
    case _ => before
  }

  ghost predicate Stored<V>(cfg: Config, r: Record<V>, e: Entry<V>) {
    e.value == r.value && e.createdAt == r.at && e.ttl == Lifetime(cfg, r) && e.size == r.size
  }

  /** When `k` was last stored or hit. */
  function LastUsed<V>(cfg: Config, ops: seq<Op<V>>, k: Key): real
    requires cfg.maxSize >= 1
  {
    if ops == [] then 0.0 else
    var before := LastUsed(cfg, ops[..|ops| - 1], k);
    match ops[|ops| - 1]
    case Store(j, _, _, _, now) => if j == k then now else before
    case Lookup(j, now) => if j == k && IsHit(Run(cfg, ops[..|ops| - 1]), k, now) then now else before
    case _ => before
  }

  /** A stored entry is what the trace says about its key. */
  ghost predicate Faithful<V>(cfg: Config, ops: seq<Op<V>>, k: Key, e: Entry<V>)
    requires cfg.maxSize >= 1
  {
    && LatestSet(ops, k).Some?
    && Stored(cfg, LatestSet(ops, k).value, e)
    && e.accessCount == HitsSinceSet(cfg, ops, k)
    && e.lastAccessed == LastUsed(cfg, ops, k)
  }

  /** A step other than a store of `k` leaves the entry of `k` alone, but for counting a hit. */
  lemma {:induction false} StepKeepsEntry<V>(cfg: Config, s: State<V>, op: Op<V>, k: Key)
    requires s.Valid() && cfg.maxSize >= 1
    requires k in Step(cfg, s, op).entries && !(op.Store? && op.key == k)
    ensures k in s.entries
    ensures Step(cfg, s, op).entries[k]
            == if op.Lookup? && op.key == k then s.entries[k].Touched(op.now) else s.entries[k]
    ensures op.Lookup? && op.key == k ==> IsHit(s, k, op.now)
  {
    match op
    case Lookup(j, now) => RemoveKeyValid(s, j);
    case Store(j, v, ttl, size, now) => MakeRoomValid(cfg, s, j, size);
    case Clear =>
    case Sweep(now) =>
  }

  /** For every strategy and run, each entry holds the value, time, ttl and size of the latest set of its
      key, counts the hits since, and knows when the last of them was. */
  lemma {:induction false} EntriesAreFaithful<V>(cfg: Config, ops: seq<Op<V>>, k: Key)
    requires cfg.maxSize >= 1
    requires k in Run(cfg, ops).entries
    ensures Faithful(cfg, ops, k, Run(cfg, ops).entries[k])
  {
    var front, op := ops[..|ops| - 1], ops[|ops| - 1];
    if op.Store? && op.key == k {
      MakeRoomValid(cfg, Run(cfg, front), k, op.size);
    } else {
      StepKeepsEntry(cfg, Run(cfg, front), op, k);
      EntriesAreFaithful(cfg, front, k);
    }
  }

  /** After any run, under any strategy, a hit returns the value of the latest set of the key,
      and that set is no older than its ttl. */
  lemma {:induction false} HitReturnsLatestSet<V>(cfg: Config, ops: seq<Op<V>>, k: Key, now: real)
    requires cfg.maxSize >= 1
    requires IsHit(Run(cfg, ops), k, now)
    ensures LatestSet(ops, k).Some?
    ensures Get(cfg, Run(cfg, ops), k, now).1 == LatestSet(ops, k).value.value
    ensures now - LatestSet(ops, k).value.at <= Lifetime(cfg, LatestSet(ops, k).value)
  {
    EntriesAreFaithful(cfg, ops, k);
  }

  /** What was stored just now is hit as long as its own ttl lasts, or the default where none was given or zero;
      and the lookup then returns the value stored. */
  lemma {:induction false} StoredIsHitExactlyWhile<V>(cfg: Config, s: State<V>, k: Key, v: Option<V>,
                                                      ttl: Option<real>, size: int, now: real, later: real)
    requires s.Valid() && cfg.maxSize >= 1
    ensures var hit :=
                if ttl.Some? && ttl.value != 0.0 then later - now <= ttl.value else later - now <= cfg.defaultTtl;
            var t := Set(cfg, s, k, v, ttl, size, now);
            && (IsHit(t, k, later) <==> hit)
            && Get(cfg, t, k, later).1 == if hit then v else None
  {
  }

  /** The sweep keeps exactly the entries whose ttl has not passed, as they are, and the statistics. */
  lemma {:induction false} SweepKeepsExactlyTheFresh<V>(s: State<V>, now: real, k: Key)
    requires s.Valid()
    ensures var t := Cleanup(s, now);
            && (k in t.entries <==> k in s.entries && now - s.entries[k].createdAt <= s.entries[k].ttl)
            && (k in t.entries ==> t.entries[k] == s.entries[k])
            && t.hits == s.hits && t.misses == s.misses && t.evictions == s.evictions
  {
  }

  // ---------- The statistics ----------

  /** How many lookups the trace has. */
  function Lookups<V>(ops: seq<Op<V>>): nat {
    if ops == [] then 0 else Lookups(ops[..|ops| - 1]) + if ops[|ops| - 1].Lookup? then 1 else 0
  }

  /** How many of them found their key, not expired. */
  function Hits<V>(cfg: Config, ops: seq<Op<V>>): nat
    requires cfg.maxSize >= 1
  {
    if ops == [] then 0 else
    var front, op := ops[..|ops| - 1], ops[|ops| - 1];
    Hits(cfg, front) + if op.Lookup? && IsHit(Run(cfg, front), op.key, op.now) then 1 else 0
  }

  lemma {:induction false} RoomKeepsStatistics<V>(cfg: Config, s: State<V>, op: Op<V>)
    requires s.Valid() && cfg.maxSize >= 1 && !op.Lookup?
    ensures Step(cfg, s, op).hits == s.hits && Step(cfg, s, op).misses == s.misses
  {
    if op.Store? {
      MakeRoomValid(cfg, s, op.key, op.size);
    }
  }

  /** After every run the statistics count the lookups of the trace. */
  lemma {:induction false} StatisticsCountLookups<V>(cfg: Config, ops: seq<Op<V>>)
    requires cfg.maxSize >= 1
    ensures Run(cfg, ops).hits == Hits(cfg, ops)
    ensures Run(cfg, ops).hits + Run(cfg, ops).misses == Lookups(ops)
  {
    if ops != [] {
      var front, op := ops[..|ops| - 1], ops[|ops| - 1];
      StatisticsCountLookups(cfg, front);
      if !op.Lookup? {
        RoomKeepsStatistics(cfg, Run(cfg, front), op);
      }
    }
  }

  // ---------- Without evictions the cache is a plain map with expiry ----------

  ghost predicate AllBy<V>(ops: seq<Op<V>>, latest: real) {
    forall i :: 0 <= i < |ops| && !ops[i].Clear? ==> ops[i].now <= latest
  }

  lemma {:induction false} EvictionsGrow<V>(cfg: Config, s: State<V>, op: Op<V>)
    requires s.Valid() && cfg.maxSize >= 1
    ensures Step(cfg, s, op).evictions >= s.evictions
  {
    if op.Store? {
      MakeRoomValid(cfg, s, op.key, op.size);
    }
  }

  /** A step without evictions loses an entry only because it has expired, or to a clear. */
  lemma {:induction false} StepLosesOnlyExpired<V>(cfg: Config, s: State<V>, op: Op<V>, k: Key)
    requires s.Valid() && cfg.maxSize >= 1
    requires k in s.entries && k !in Step(cfg, s, op).entries && !op.Clear?
    requires Step(cfg, s, op).evictions == s.evictions
    ensures s.entries[k].Expired(op.now)
  {
    match op
    case Lookup(j, now) =>
    case Store(j, v, ttl, size, now) => MakeRoomValid(cfg, s, j, size);
    case Sweep(now) =>
  }

  lemma {:induction false} OnlyExpiredEntriesAreLost<V>(cfg: Config, ops: seq<Op<V>>, k: Key, now: real)
    requires cfg.maxSize >= 1 && AllBy(ops, now)
    requires Run(cfg, ops).evictions == 0
    requires LatestSet(ops, k).Some? && k !in Run(cfg, ops).entries
    ensures now - LatestSet(ops, k).value.at > Lifetime(cfg, LatestSet(ops, k).value)
  {
    var front, op := ops[..|ops| - 1], ops[|ops| - 1];
    var s := Run(cfg, front);
    EvictionsGrow(cfg, s, op);
    if k in s.entries {
      EntriesAreFaithful(cfg, front, k);
      StepLosesOnlyExpired(cfg, s, op, k);
    } else {
      OnlyExpiredEntriesAreLost(cfg, front, k, now);
    }
  }

  /** As long as nothing has been evicted, a lookup hits exactly when the latest set of the
      key has not expired: the cache is the plain map of latest sets. */
  lemma {:induction false} PlainMapWithoutEvictions<V>(cfg: Config, ops: seq<Op<V>>, k: Key, now: real)
    requires cfg.maxSize >= 1 && AllBy(ops, now)
    requires Run(cfg, ops).evictions == 0
    ensures var latest := LatestSet(ops, k);
            var live := latest.Some? && now - latest.value.at <= Lifetime(cfg, latest.value);
            && (IsHit(Run(cfg, ops), k, now) <==> live)
            && Get(cfg, Run(cfg, ops), k, now).1 == if live then latest.value.value else None
  {
    if k in Run(cfg, ops).entries {
      EntriesAreFaithful(cfg, ops, k);
    } else if LatestSet(ops, k).Some? {
      OnlyExpiredEntriesAreLost(cfg, ops, k, now);
    }
  }

  // ---------- Victims, by the trace ----------

  /** The key an LFU cache evicts has been hit least often since its last set. */
  lemma {:induction false} LfuVictimHasFewestHits<V>(cfg: Config, ops: seq<Op<V>>, k: Key)
    requires cfg.maxSize >= 1 && cfg.strategy == LFU
    requires k in Run(cfg, ops).order
    ensures HitsSinceSet(cfg, ops, Victim(cfg, Run(cfg, ops))) <= HitsSinceSet(cfg, ops, k)
  {
    var s := Run(cfg, ops);
    assert k in s.order;
    EntriesAreFaithful(cfg, ops, k);
    EntriesAreFaithful(cfg, ops, Victim(cfg, s));
  }

  /** The key a TTL cache evicts expires first. */
  lemma {:induction false} TtlVictimExpiresFirst<V>(cfg: Config, ops: seq<Op<V>>, k: Key)
    requires cfg.maxSize >= 1 && cfg.strategy == TTL
    requires k in Run(cfg, ops).order
    ensures var victim := LatestSet(ops, Victim(cfg, Run(cfg, ops)));
            var other := LatestSet(ops, k);
            && victim.Some? && other.Some?
            && victim.value.at + Lifetime(cfg, victim.value) <= other.value.at + Lifetime(cfg, other.value)
  {
    var s := Run(cfg, ops);
    assert k in s.order;
    EntriesAreFaithful(cfg, ops, k);
    EntriesAreFaithful(cfg, ops, Victim(cfg, s));
  }

  /** What a full Adaptive cache with a high hit rate makes room by, for any entry that fits once its
      first one is gone: by that one, and by no other. */
  lemma {:induction false} AdaptiveEvictsExactlyTheFirst<V>(cfg: Config, s: State<V>, k: Key, newcomer: Key,
                                                            v: Option<V>, ttl: Option<real>, size: int, now: real)
    requires s.Valid() && cfg.strategy == Adaptive && cfg.maxSize >= 1 && |s.order| == cfg.maxSize
    requires HitRate(s) > 0.7 && s.order[0] in s.entries && newcomer !in s.entries
    requires s.memory - s.entries[s.order[0]].size + size <= cfg.maxMemory
    requires k in s.entries
    ensures k in Set(cfg, s, newcomer, v, ttl, size, now).entries <==> k != s.order[0]
  {
    EvictOneValid(cfg, s);
    RemoveKeyValid(s, s.order[0]);
    assert RemoveKey(s, newcomer) == s;
    var evicted := EvictOne(cfg, s);
    assert EvictToSize(cfg, s) == evicted;
    assert EvictToFit(cfg, evicted, size) == evicted;
  }

  /** The Adaptive strategy documents itself as LRU at a high hit rate, but only LRU moves a key
      on a hit.  So the key a full Adaptive cache has just served survives the next newcomer if and only
      if it is not the first in the order, where using it has left it. */
  lemma {:induction false} AdaptiveEvictsTheKeyJustUsed<V>(cfg: Config, s: State<V>, k: Key, newcomer: Key,
                                                           v: Option<V>, ttl: Option<real>, size: int, now: real)
    requires s.Valid() && cfg.strategy == Adaptive && cfg.maxSize >= 1 && |s.order| == cfg.maxSize
    requires HitRate(s) > 0.7 && s.order[0] in s.entries && newcomer !in s.entries
    requires s.memory - s.entries[s.order[0]].size + size <= cfg.maxMemory
    requires IsHit(s, k, now)
    ensures var used := Get(cfg, s, k, now).0;
            used.Valid() && (k in Set(cfg, used, newcomer, v, ttl, size, now).entries <==> k != s.order[0])
  {
    var used := Get(cfg, s, k, now).0;
    GetValid(cfg, s, k, now);
    assert HitRate(used) > 0.7 by {
      HitRateGrows(s.hits, s.misses);
    }
    AdaptiveEvictsExactlyTheFirst(cfg, used, k, newcomer, v, ttl, size, now);
  }

  lemma {:induction false} HitRateGrows(hits: nat, misses: nat)
    requires hits + misses > 0 && hits as real / (hits + misses) as real > 0.7
    ensures (hits + 1) as real / (hits + 1 + misses) as real > 0.7
  {
    QuotientAbove(hits as real, (hits + misses) as real, 0.7);
    QuotientAbove((hits + 1) as real, (hits + 1 + misses) as real, 0.7);
  }
}
