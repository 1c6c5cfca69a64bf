/** What least-recently-used means on the trace alone, and that the LRU cache computes it. */
module LruOrders {
  import opened Caches
  import opened CacheTraces
  import opened Options
  import opened Recency
  import opened Sequences

  // ---------- The reference ----------

  /** The `cap` most recently used keys. */
  function MostRecent<K(==)>(uses: seq<K>, cap: nat): seq<K> {
    Suffix(LastUses(uses), cap)
  }

  /** The uses in a trace: every store, and every lookup of a key that is still among the
      `cap` most recently used.  A clear forgets them all. */
  function Uses<V>(ops: seq<Op<V>>, cap: nat): seq<Key> {
    if ops == [] then [] else
    var before := Uses(ops[..|ops| - 1], cap);
    match ops[|ops| - 1]
    case Store(k, _, _, _, _) => before + [k]
    case Lookup(k, _) => if k in MostRecent(before, cap) then before + [k] else before
    case Clear => []
    case Sweep(_) => before
  }

  /** How the most recent keys change when one of them is used again, ... */
  lemma {:induction false} RecentAfterHit<K>(older: seq<K>, recent: seq<K>, cap: nat, i: nat)
    requires Distinct(older + recent) && (|recent| == cap || (older == [] && |recent| <= cap))
    requires i < |recent|
    ensures Suffix(Without(older + recent, recent[i]) + [recent[i]], cap) == Without(recent, recent[i]) + [recent[i]]
  {
    var d, k := older + recent, recent[i];
    assert d[|older| + i] == k;
    assert forall j :: 0 <= j < |recent| ==> recent[j] == d[|older| + j];
    WithoutAt(recent, i);
    WithoutAt(d, |older| + i);
    assert Without(d, k) + [k] == older + (Without(recent, k) + [k]);
    SuffixOfConcat(older, Without(recent, k) + [k], cap);
  }

  /** ... when a key is used that has dropped out, ... */
  lemma {:induction false} RecentAfterReturn<K>(older: seq<K>, recent: seq<K>, i: nat)
    requires Distinct(older + recent) && i < |older| && recent != []
    ensures Suffix(Without(older + recent, older[i]) + [older[i]], |recent|) == recent[1..] + [older[i]]
  {
    var d, k := older + recent, older[i];
    assert d[i] == k;
    WithoutAt(d, i);
    var rest := older[..i] + older[i + 1..] + [recent[0]];
    assert Without(d, k) + [k] == rest + (recent[1..] + [k]);
    SuffixOfConcat(rest, recent[1..] + [k], |recent|);
  }

  /** ... and when a key is used for the first time. */
  lemma {:induction false} RecentAfterFirstUse<K>(older: seq<K>, recent: seq<K>, cap: nat, k: K)
    requires k !in older + recent && cap >= 1
    requires |recent| == cap || (older == [] && |recent| <= cap)
    ensures Suffix(Without(older + recent, k) + [k], cap)
            == if |recent| == cap then recent[1..] + [k] else recent + [k]
  {
    WithoutAbsent(older + recent, k);
    if |recent| == cap {
      var rest := older + [recent[0]];
      assert older + recent + [k] == rest + (recent[1..] + [k]);
      SuffixOfConcat(rest, recent[1..] + [k], cap);
    }
  }

  lemma {:induction false} RecentAfterUse<K>(d: seq<K>, cap: nat, k: K)
    requires Distinct(d) && cap >= 1
    ensures var recent, recent' := Suffix(d, cap), Suffix(Without(d, k) + [k], cap);
            if k in recent then recent' == Without(recent, k) + [k]
            else if |recent| == cap then recent' == recent[1..] + [k]
            else recent' == recent + [k]
  {
    var recent := Suffix(d, cap);
    var older := d[..|d| - |recent|];
    assert d == older + recent;
    if i :| 0 <= i < |recent| && recent[i] == k {
      RecentAfterHit(older, recent, cap, i);
    } else if i :| 0 <= i < |older| && older[i] == k {
      RecentAfterReturn(older, recent, i);
    } else {
      RecentAfterFirstUse(older, recent, cap, k);
    }
  }

  // ---------- The cache computes it ----------

  /** Zero sizes, and no entry outlives the period [lo, hi] in which all operations fall. */
  ghost predicate Quiet<V>(cfg: Config, ops: seq<Op<V>>, lo: real, hi: real) {
    forall i :: 0 <= i < |ops| ==>
      match ops[i]
      case Lookup(_, now) => lo <= now <= hi
      case Store(_, _, ttl, size, now) => lo <= now <= hi && size == 0 && EffectiveTtl(cfg, ttl) >= hi - lo
      case Clear => true
      case Sweep(now) => lo <= now <= hi
  }

  ghost predicate Weightless<V>(s: State<V>, lo: real, hi: real) {
    && s.memory == 0
    && forall k :: k in s.entries ==>
         s.entries[k].size == 0 && s.entries[k].createdAt >= lo && s.entries[k].ttl >= hi - lo
  }

  lemma {:induction false} QuietLookup<V>(cfg: Config, s: State<V>, k: Key, now: real, lo: real, hi: real)
    requires s.Valid() && cfg.strategy == LRU && Weightless(s, lo, hi) && now <= hi
    ensures IsHit(s, k, now) <==> k in s.order
    ensures var t := Get(cfg, s, k, now).0;
            && Weightless(t, lo, hi)
            && t.order == if k in s.order then Without(s.order, k) + [k] else s.order
  {
  }

  lemma {:induction false} QuietEviction<V>(cfg: Config, s: State<V>, lo: real, hi: real)
    requires s.Valid() && cfg.strategy == LRU && Weightless(s, lo, hi)
    requires 1 <= cfg.maxSize && |s.order| <= cfg.maxSize && cfg.maxMemory >= 0
    ensures var t := EvictToFit(cfg, EvictToSize(cfg, s), 0);
            && Weightless(t, lo, hi)
            && t.order == if |s.order| == cfg.maxSize then s.order[1..] else s.order
  {
    if |s.order| == cfg.maxSize {
      EvictOneValid(cfg, s);
      QuietEvictOne(cfg, s, lo, hi);
      assert EvictToSize(cfg, s) == EvictOne(cfg, s);
    }
  }

  lemma {:induction false} QuietEvictOne<V>(cfg: Config, s: State<V>, lo: real, hi: real)
    requires s.Valid() && cfg.strategy == LRU && Weightless(s, lo, hi) && s.order != []
    ensures Weightless(EvictOne(cfg, s), lo, hi) && EvictOne(cfg, s).order == s.order[1..]
  {
    OrderIsDistinct(s);
    WithoutAt(s.order, 0);
    assert s.order[0] in s.order;
  }

  lemma {:induction false} QuietInsert<V>(s: State<V>, k: Key, e: Entry<V>, lo: real, hi: real)
    requires Weightless(s, lo, hi) && e.size == 0 && e.createdAt >= lo && e.ttl >= hi - lo
    ensures Weightless(Insert(s, k, e), lo, hi)
  {
  }

  lemma {:induction false} QuietStore<V>(cfg: Config, s: State<V>, k: Key, v: Option<V>, ttl: Option<real>, now: real,
                                         lo: real, hi: real)
    requires s.Valid() && cfg.strategy == LRU && Weightless(s, lo, hi)
    requires 1 <= cfg.maxSize && |s.order| <= cfg.maxSize && cfg.maxMemory >= 0
    requires lo <= now && EffectiveTtl(cfg, ttl) >= hi - lo
    ensures var t := Set(cfg, s, k, v, ttl, 0, now);
            && Weightless(t, lo, hi)
            && t.order == if k in s.order then Without(s.order, k) + [k]
                          else if |s.order| == cfg.maxSize then s.order[1..] + [k]
                          else s.order + [k]
  {
    RemoveKeyValid(s, k);
    QuietEviction(cfg, RemoveKey(s, k), lo, hi);
    QuietInsert(MakeRoom(cfg, s, k, 0), k, Entry(v, now, now, 0, EffectiveTtl(cfg, ttl), 0), lo, hi);
  }

  lemma {:induction false} QuietSweep<V>(s: State<V>, now: real, lo: real, hi: real)
    requires s.Valid() && Weightless(s, lo, hi) && now <= hi
    ensures Cleanup(s, now) == s
  {
    FilterAll(s.order, FreshAt(s.entries, now));
    assert Cleanup(s, now).entries == s.entries;
  }

  /** Under LRU, with zero sizes and no expiry, the cache's key order is the order of last use
      and its keys are exactly the `maxSize` most recently used ones of the trace. */
  lemma {:induction false} LruKeepsTheMostRecent<V>(cfg: Config, ops: seq<Op<V>>, lo: real, hi: real)
    requires cfg.strategy == LRU && cfg.maxSize >= 1 && cfg.maxMemory >= 0
    requires Quiet(cfg, ops, lo, hi)
    ensures Run(cfg, ops).order == MostRecent(Uses(ops, cfg.maxSize), cfg.maxSize)
    ensures Weightless(Run(cfg, ops), lo, hi)
  {
    if ops != [] {
      var front, op := ops[..|ops| - 1], ops[|ops| - 1];
      LruKeepsTheMostRecent(cfg, front, lo, hi);
      var s, uses := Run(cfg, front), Uses(front, cfg.maxSize);
      LastUsesMembers(uses);
      match op
      case Lookup(k, now) =>
        QuietLookup(cfg, s, k, now, lo, hi);
        RecentAfterUse(LastUses(uses), cfg.maxSize, k);
        assert (uses + [k])[..|uses|] == uses;
      case Store(k, v, ttl, size, now) =>
        QuietStore(cfg, s, k, v, ttl, now, lo, hi);
        RecentAfterUse(LastUses(uses), cfg.maxSize, k);
        assert (uses + [k])[..|uses|] == uses;
      case Clear =>
      case Sweep(now) =>
        QuietSweep(s, now, lo, hi);
    }
  }

  /** So a lookup hits exactly when its key is among the `maxSize` most recently used. */
  lemma {:induction false} LruHitsExactlyTheMostRecent<V>(cfg: Config, ops: seq<Op<V>>, k: Key, now: real, lo: real,
                                                          hi: real)
    requires cfg.strategy == LRU && cfg.maxSize >= 1 && cfg.maxMemory >= 0
    requires Quiet(cfg, ops, lo, hi) && lo <= now <= hi
    ensures IsHit(Run(cfg, ops), k, now) <==> k in MostRecent(Uses(ops, cfg.maxSize), cfg.maxSize)
  {
    LruKeepsTheMostRecent(cfg, ops, lo, hi);
    QuietLookup(cfg, Run(cfg, ops), k, now, lo, hi);
  }
}
