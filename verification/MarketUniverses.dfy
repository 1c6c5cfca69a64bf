/** The selection of markets to trade: pinned ones, then the most traded of each category within
    its cap, as long as the universe has room. */
module MarketUniverses {
  import opened Sequences

  datatype Market = Market(ticker: string, open: bool, volume: int, daysToExpiry: int)

  datatype Listing = Listing(category: string, markets: seq<Market>)

  /** The configured limits.  `categories` are the allowed ones in configuration order. */
  datatype Limits = Limits(pinned: seq<string>, excluded: set<string>, categories: seq<string>, caps: map<string, int>,
                           universe: int, minVolume: int, maxDays: int)

  predicate Eligible(l: Limits, m: Market) {
    && m.ticker != "" && m.ticker !in l.excluded && m.ticker !in l.pinned
    && m.open && m.volume >= l.minVolume && m.daysToExpiry <= l.maxDays
  }

  /** Tickers of the eligible markets, in order. */
  function EligibleTickers(l: Limits, ms: seq<Market>): seq<string> {
    if ms == [] then [] else
    var front, last := EligibleTickers(l, ms[..|ms| - 1]), ms[|ms| - 1];
    if Eligible(l, last) then front + [last.ticker] else front
  }

  /** The tickers collected for a category, in catalogue order. */
  function Bucket(l: Limits, listings: seq<Listing>, category: string): seq<string> {
    if listings == [] then [] else
    var front, last := Bucket(l, listings[..|listings| - 1], category), listings[|listings| - 1];
    if last.category == category then front + EligibleTickers(l, last.markets) else front
  }

  /** Volumes by ticker; a later listing of a ticker overwrites an earlier one. */
  function VolumesIn(l: Limits, ms: seq<Market>, before: map<string, int>): map<string, int> {
    if ms == [] then before else
    var front, last := VolumesIn(l, ms[..|ms| - 1], before), ms[|ms| - 1];
    if Eligible(l, last) then front[last.ticker := last.volume] else front
  }

  function Volumes(l: Limits, listings: seq<Listing>): map<string, int> {
    if listings == [] then map[] else
    var front, last := Volumes(l, listings[..|listings| - 1]), listings[|listings| - 1];
    if last.category in l.categories then VolumesIn(l, last.markets, front) else front
  }

  // ---------- Sorting by volume ----------

  function Volume(volumes: map<string, int>, ticker: string): int {
    if ticker in volumes then volumes[ticker] else 0
  }

  /** Insert behind every ticker of at least the same volume. */
  function Inserted(sorted: seq<string>, t: string, volumes: map<string, int>): seq<string> {
    if sorted == [] || Volume(volumes, sorted[|sorted| - 1]) >= Volume(volumes, t) then sorted + [t]
    else Inserted(sorted[..|sorted| - 1], t, volumes) + [sorted[|sorted| - 1]]
  }

  /** Python's stable `sorted` by volume, descending. */
  function ByVolume(ts: seq<string>, volumes: map<string, int>): seq<string> {
    if ts == [] then [] else Inserted(ByVolume(ts[..|ts| - 1], volumes), ts[|ts| - 1], volumes)
  }

  ghost predicate Descending(ts: seq<string>, volumes: map<string, int>) {
    forall i, j :: 0 <= i < j < |ts| ==> Volume(volumes, ts[i]) >= Volume(volumes, ts[j])
  }

  function HasVolume(volumes: map<string, int>, v: int): string -> bool {
    (t: string) => Volume(volumes, t) == v
  }

  lemma {:induction false} InsertedPermutes(sorted: seq<string>, t: string, volumes: map<string, int>)
    ensures multiset(Inserted(sorted, t, volumes)) == multiset(sorted + [t])
    ensures forall x :: x in Inserted(sorted, t, volumes) <==> x in sorted || x == t
  {
    if sorted != [] {
      InsertedPermutes(sorted[..|sorted| - 1], t, volumes);
      assert sorted == sorted[..|sorted| - 1] + [sorted[|sorted| - 1]];
    }
  }

  lemma {:induction false} InsertedDescends(sorted: seq<string>, t: string, volumes: map<string, int>)
    requires Descending(sorted, volumes)
    ensures Descending(Inserted(sorted, t, volumes), volumes)
  {
    if sorted != [] && Volume(volumes, sorted[|sorted| - 1]) < Volume(volumes, t) {
      var front, last := sorted[..|sorted| - 1], sorted[|sorted| - 1];
      InsertedDescends(front, t, volumes);
      InsertedPermutes(front, t, volumes);
      AppendDescends(Inserted(front, t, volumes), last, volumes);
    }
  }

  lemma {:induction false} AppendDescends(ts: seq<string>, last: string, volumes: map<string, int>)
    requires Descending(ts, volumes) && forall x :: x in ts ==> Volume(volumes, x) >= Volume(volumes, last)
    ensures Descending(ts + [last], volumes)
  {
  }

  lemma {:induction false} InsertedIsStable(sorted: seq<string>, t: string, volumes: map<string, int>, v: int)
    requires Descending(sorted, volumes)
    ensures Filter(Inserted(sorted, t, volumes), HasVolume(volumes, v)) == Filter(sorted + [t], HasVolume(volumes, v))
  {
    assert (sorted + [t])[..|sorted|] == sorted;
    if sorted != [] && Volume(volumes, sorted[|sorted| - 1]) < Volume(volumes, t) {
      var front, last := sorted[..|sorted| - 1], sorted[|sorted| - 1];
      InsertedIsStable(front, t, volumes, v);
      assert (front + [t])[..|front|] == front;
    }
  }

  /** The sort is a permutation, in descending volume, and stable: tickers of equal volume keep
      their order. */
  lemma {:induction false} ByVolumeSorts(ts: seq<string>, volumes: map<string, int>, v: int)
    ensures Descending(ByVolume(ts, volumes), volumes)
    ensures multiset(ByVolume(ts, volumes)) == multiset(ts)
    ensures Filter(ByVolume(ts, volumes), HasVolume(volumes, v)) == Filter(ts, HasVolume(volumes, v))
  {
    if ts != [] {
      var front, last := ts[..|ts| - 1], ts[|ts| - 1];
      var sorted := ByVolume(front, volumes);
      ByVolumeSorts(front, volumes, v);
      InsertedDescends(sorted, last, volumes);
      InsertedPermutes(sorted, last, volumes);
      InsertedIsStable(sorted, last, volumes, v);
      assert ts == front + [last];
      assert (sorted + [last])[..|sorted|] == sorted;
    }
  }

  // ---------- Selection ----------

  function Cap(l: Limits, category: string): nat {
    if category in l.caps && l.caps[category] > 0 then l.caps[category] else 0
  }

  function Sorted(l: Limits, listings: seq<Listing>, category: string): seq<string> {
    ByVolume(Bucket(l, listings, category), Volumes(l, listings))
  }

  /** The candidates of a category: the first `cap` by volume. */
  function Candidates(l: Limits, listings: seq<Listing>, category: string): seq<string> {
    var sorted := Sorted(l, listings, category);
    sorted[..Min(|sorted|, Cap(l, category))]
  }

  /** Add tickers in order until the universe is full. */
  function Taken<T(==)>(selected: set<T>, ts: seq<T>, limit: int): set<T> {
    if ts == [] then selected else
    var before := Taken(selected, ts[..|ts| - 1], limit);
    if |before| >= limit then before else before + {ts[|ts| - 1]}
  }

  /** The selection after the first `n` categories. */
  function Selected(l: Limits, listings: seq<Listing>, n: nat): set<string>
    requires n <= |l.categories|
  {
    if n == 0 then Elements(l.pinned)
    else Taken(Selected(l, listings, n - 1), Candidates(l, listings, l.categories[n - 1]), l.universe)
  }

  function Universe(l: Limits, listings: seq<Listing>): set<string> {
    Selected(l, listings, |l.categories|)
  }

  lemma {:induction false} TakenMeans<T>(selected: set<T>, ts: seq<T>, limit: int)
    ensures var t := Taken(selected, ts, limit);
            && selected <= t <= selected + Elements(ts)
            && |t| <= |selected| + |ts|
            && |t| <= Max(|selected|, limit)
  {
    if ts != [] {
      var front, last := ts[..|ts| - 1], ts[|ts| - 1];
      TakenMeans(selected, front, limit);
      assert ts == front + [last];
    }
  }

  /** Pinned markets are always selected, the universe exceeds its limit only by pinned markets,
      and a category adds at most its cap. */
  lemma {:induction false} SelectionWithinLimits(l: Limits, listings: seq<Listing>, n: nat)
    requires n <= |l.categories|
    ensures var s := Selected(l, listings, n);
            && Elements(l.pinned) <= s
            && |s| <= Max(|Elements(l.pinned)|, l.universe)
    ensures n > 0 ==> |Selected(l, listings, n)| <= |Selected(l, listings, n - 1)| + Cap(l, l.categories[n - 1])
  {
    if n > 0 {
      SelectionWithinLimits(l, listings, n - 1);
      TakenMeans(Selected(l, listings, n - 1), Candidates(l, listings, l.categories[n - 1]), l.universe);
    }
  }

  // ---------- With distinct tickers ----------

  lemma {:induction false} TakesAllThatFit<T>(selected: set<T>, ts: seq<T>, limit: int)
    requires Distinct(ts) && forall t :: t in ts ==> t !in selected
    requires ts == [] || |selected| + |ts| <= limit
    ensures Taken(selected, ts, limit) == selected + Elements(ts)
    ensures |Taken(selected, ts, limit)| == |selected| + |ts|
  {
    if ts == [] {
      assert Elements(ts) == {};
    } else {
      var front, last := ts[..|ts| - 1], ts[|ts| - 1];
      assert ts == front + [last];
      TakesAllThatFit(selected, front, limit);
      ElementsAppend(front, last);
      TakesOneMore(selected, front, last);
      assert Taken(selected, ts, limit) == Taken(selected, front, limit) + {last};
    }
  }

  lemma {:induction false} TakesOneMore<T>(selected: set<T>, front: seq<T>, last: T)
    requires Distinct(front + [last]) && last !in selected
    ensures last !in selected + Elements(front)
    ensures selected + Elements(front) + {last} == selected + (Elements(front) + {last})
  {
    assert (front + [last])[|front|] == last;
    assert forall i :: 0 <= i < |front| ==> (front + [last])[i] == front[i];
  }

  /** Once the universe is full, the rest of the candidates changes nothing. */
  lemma {:induction false} FullStaysFull<T>(selected: set<T>, ts: seq<T>, i: nat, limit: int)
    requires i <= |ts| && (i == |ts| || |Taken(selected, ts[..i], limit)| >= limit)
    ensures Taken(selected, ts, limit) == Taken(selected, ts[..i], limit)
    decreases |ts|
  {
    if i < |ts| {
      var front := ts[..|ts| - 1];
      assert front[..i] == ts[..i];
      FullStaysFull(selected, front, i, limit);
    } else {
      assert ts[..i] == ts;
    }
  }

  /** The loop takes a prefix of the list, as long as the room allows. */
  lemma {:induction false} TakenIsPrefix<T>(selected: set<T>, ts: seq<T>, limit: int)
    requires Distinct(ts) && forall t :: t in ts ==> t !in selected
    ensures var k := Max(0, Min(|ts|, limit - |selected|));
            && Taken(selected, ts, limit) == selected + Elements(ts[..k])
            && |Taken(selected, ts, limit)| == |selected| + k
  {
    var k := Max(0, Min(|ts|, limit - |selected|));
    assert forall t :: t in ts[..k] ==> t in ts;
    TakesAllThatFit(selected, ts[..k], limit);
    FullStaysFull(selected, ts, k, limit);
  }

  /** The tickers of all allowed buckets are distinct, across and within categories. */
  ghost predicate DistinctTickers(l: Limits, listings: seq<Listing>) {
    && Distinct(l.categories)
    && (forall c :: c in l.categories ==> Distinct(Bucket(l, listings, c)))
    && forall c, d, t {:trigger t in Bucket(l, listings, c), t in Bucket(l, listings, d)} ::
         c in l.categories && d in l.categories && t in Bucket(l, listings, c) && t in Bucket(l, listings, d) ==> c == d
  }

  lemma {:induction false} EligibleAreNotPinned(l: Limits, ms: seq<Market>, t: string)
    requires t in EligibleTickers(l, ms)
    ensures t !in l.pinned
  {
    if t in EligibleTickers(l, ms[..|ms| - 1]) {
      EligibleAreNotPinned(l, ms[..|ms| - 1], t);
    }
  }

  lemma {:induction false} BucketIsNotPinned(l: Limits, listings: seq<Listing>, category: string, t: string)
    requires t in Bucket(l, listings, category)
    ensures t !in l.pinned
  {
    var last := listings[|listings| - 1];
    if t in Bucket(l, listings[..|listings| - 1], category) {
      BucketIsNotPinned(l, listings[..|listings| - 1], category, t);
    } else {
      EligibleAreNotPinned(l, last.markets, t);
    }
  }

  lemma {:induction false} InsertedDistinct(sorted: seq<string>, t: string, volumes: map<string, int>)
    requires Distinct(sorted) && t !in sorted
    ensures Distinct(Inserted(sorted, t, volumes))
    ensures forall x :: x in Inserted(sorted, t, volumes) <==> x in sorted || x == t
  {
    if sorted != [] && Volume(volumes, sorted[|sorted| - 1]) < Volume(volumes, t) {
      var front, last := sorted[..|sorted| - 1], sorted[|sorted| - 1];
      assert sorted == front + [last];
      InsertedDistinct(front, t, volumes);
      DistinctAppend(Inserted(front, t, volumes), last);
    }
  }

  lemma {:induction false} ByVolumeDistinct(ts: seq<string>, volumes: map<string, int>)
    requires Distinct(ts)
    ensures Distinct(ByVolume(ts, volumes)) && |ByVolume(ts, volumes)| == |ts|
    ensures forall x :: x in ByVolume(ts, volumes) <==> x in ts
  {
    if ts != [] {
      var front, last := ts[..|ts| - 1], ts[|ts| - 1];
      assert ts == front + [last];
      ByVolumeDistinct(front, volumes);
      InsertedDistinct(ByVolume(front, volumes), last, volumes);
      DistinctCardinality(ByVolume(ts, volumes));
      DistinctCardinality(ts);
      assert Elements(ByVolume(ts, volumes)) == Elements(ts);
    }
  }

  /** Everything selected is pinned or from the bucket of a category already processed. */
  lemma {:induction false} SelectedOrigin(l: Limits, listings: seq<Listing>, n: nat, t: string)
    requires n <= |l.categories| && DistinctTickers(l, listings)
    requires t in Selected(l, listings, n)
    ensures t in l.pinned || exists c: nat :: c < n && t in Bucket(l, listings, l.categories[c])
  {
    if n > 0 {
      var category := l.categories[n - 1];
      var before, cs := Selected(l, listings, n - 1), Candidates(l, listings, category);
      TakenMeans(before, cs, l.universe);
      if t in before {
        SelectedOrigin(l, listings, n - 1, t);
      } else {
        ByVolumeDistinct(Bucket(l, listings, category), Volumes(l, listings));
        assert t in cs && t in Sorted(l, listings, category);
      }
    }
  }

  lemma {:induction false} OtherCategoryDoesNotDecide(l: Limits, listings: seq<Listing>, c: nat, d: nat, t: string)
    requires c < |l.categories| && d < |l.categories| && c != d && DistinctTickers(l, listings)
    requires t in Bucket(l, listings, l.categories[c])
    ensures t in Selected(l, listings, d + 1) <==> t in Selected(l, listings, d)
  {
    var category := l.categories[d];
    assert category != l.categories[c];
    assert t !in Bucket(l, listings, category);
    ByVolumeDistinct(Bucket(l, listings, category), Volumes(l, listings));
    assert t !in Sorted(l, listings, category);
    TakenMeans(Selected(l, listings, d), Candidates(l, listings, category), l.universe);
  }

  lemma {:induction false} NotSelectedEarlier(l: Limits, listings: seq<Listing>, c: nat, n: nat, t: string)
    requires n <= c < |l.categories| && DistinctTickers(l, listings)
    requires t in Bucket(l, listings, l.categories[c])
    ensures t !in Selected(l, listings, n)
  {
    BucketIsNotPinned(l, listings, l.categories[c], t);
    assert forall d: nat :: d < n ==> l.categories[d] != l.categories[c];
    if t in Selected(l, listings, n) {
      SelectedOrigin(l, listings, n, t);
    }
  }

  /** Category `d` does not decide on `t`. */
  ghost predicate Passes(l: Limits, listings: seq<Listing>, d: nat, t: string)
    requires d < |l.categories|
  {
    t in Selected(l, listings, d + 1) <==> t in Selected(l, listings, d)
  }

  lemma {:induction false} DecidedEarlier(l: Limits, listings: seq<Listing>, c: nat, n: nat, t: string)
    requires c < n <= |l.categories| && forall d: nat :: c < d < n ==> Passes(l, listings, d, t)
    ensures t in Selected(l, listings, n) <==> t in Selected(l, listings, c + 1)
  {
    if n > c + 1 {
      DecidedEarlier(l, listings, c, n - 1, t);
      assert Passes(l, listings, n - 1, t);
    }
  }

  /** Once its category has been processed, a ticker of category `c` is decided. */
  lemma {:induction false} DecidedInItsCategory(l: Limits, listings: seq<Listing>, c: nat, t: string)
    requires c < |l.categories| && DistinctTickers(l, listings)
    requires t in Bucket(l, listings, l.categories[c])
    ensures t in Universe(l, listings) <==> t in Selected(l, listings, c + 1)
  {
    forall d: nat | c < d < |l.categories|
      ensures Passes(l, listings, d, t)
    {
      OtherCategoryDoesNotDecide(l, listings, c, d, t);
    }
    DecidedEarlier(l, listings, c, |l.categories|, t);
  }

  lemma {:induction false} BucketDecided(l: Limits, listings: seq<Listing>, c: nat)
    requires c < |l.categories| && DistinctTickers(l, listings)
    ensures forall t :: t in Bucket(l, listings, l.categories[c]) ==> t !in Selected(l, listings, c)
    ensures forall t :: t in Bucket(l, listings, l.categories[c]) ==>
              (t in Universe(l, listings) <==> t in Selected(l, listings, c + 1))
  {
    forall t | t in Bucket(l, listings, l.categories[c])
      ensures t !in Selected(l, listings, c) && (t in Universe(l, listings) <==> t in Selected(l, listings, c + 1))
    {
      NotSelectedEarlier(l, listings, c, c, t);
      DecidedInItsCategory(l, listings, c, t);
    }
  }

  /** The loop over one category, on a list whose tickers are distinct and new. */
  lemma {:induction false} PrefixTaken<T>(before: set<T>, sorted: seq<T>, cap: nat, limit: int) returns (k: nat)
    requires Distinct(sorted) && forall t :: t in sorted ==> t !in before
    ensures k == Max(0, Min(Min(|sorted|, cap), limit - |before|)) && k <= |sorted|
    ensures var after := Taken(before, sorted[..Min(|sorted|, cap)], limit);
            && |after| == |before| + k
            && forall t :: t in sorted ==> (t in after <==> t in sorted[..k])
  {
    var cs := sorted[..Min(|sorted|, cap)];
    k := Max(0, Min(|cs|, limit - |before|));
    assert forall t :: t in cs ==> t in sorted;
    TakenIsPrefix(before, cs, limit);
    assert cs[..k] == sorted[..k];
    forall t | t in sorted
      ensures t in Taken(before, cs, limit) <==> t in sorted[..k]
    {
      assert t !in before;
    }
  }

  /** What the universe takes of a category: a prefix of its list by volume, whose length is the
      cap, the bucket or the room left, whichever is least. */
  lemma {:induction false} CategoryGetsAPrefix(l: Limits, listings: seq<Listing>, c: nat) returns (k: nat)
    requires c < |l.categories| && DistinctTickers(l, listings)
    ensures var category := l.categories[c];
            var sorted, room := Sorted(l, listings, category), l.universe - |Selected(l, listings, c)|;
            && k == Max(0, Min(Min(|Bucket(l, listings, category)|, Cap(l, category)), room))
            && k <= |sorted| == |Bucket(l, listings, category)|
            && (forall t :: t in sorted <==> t in Bucket(l, listings, category))
            && (forall t :: t in Bucket(l, listings, category) ==> (t in Universe(l, listings) <==> t in sorted[..k]))
            && |Selected(l, listings, c + 1)| == |Selected(l, listings, c)| + k
  {
    var category := l.categories[c];
    ByVolumeDistinct(Bucket(l, listings, category), Volumes(l, listings));
    BucketDecided(l, listings, c);
    k := PrefixTaken(Selected(l, listings, c), Sorted(l, listings, category), Cap(l, category), l.universe);
  }

  /** No market left out of the universe has more volume than one selected from its category. */
  lemma {:induction false} NoBetterMarketLeftOut(l: Limits, listings: seq<Listing>, c: nat, kept: string, left: string)
    requires c < |l.categories| && DistinctTickers(l, listings)
    requires kept in Bucket(l, listings, l.categories[c]) && kept in Universe(l, listings)
    requires left in Bucket(l, listings, l.categories[c]) && left !in Universe(l, listings)
    ensures Volume(Volumes(l, listings), kept) >= Volume(Volumes(l, listings), left)
  {
    var k := CategoryGetsAPrefix(l, listings, c);
    ByVolumeSorts(Bucket(l, listings, l.categories[c]), Volumes(l, listings), 0);
    PrefixIsHeavier(Sorted(l, listings, l.categories[c]), Volumes(l, listings), k, kept, left);
  }

  lemma {:induction false} PrefixIsHeavier(sorted: seq<string>, volumes: map<string, int>, k: nat, kept: string,
                                           left: string)
    requires Descending(sorted, volumes) && k <= |sorted|
    requires kept in sorted[..k] && left in sorted && left !in sorted[..k]
    ensures Volume(volumes, kept) >= Volume(volumes, left)
  {
    assert forall x :: 0 <= x < k ==> sorted[x] in sorted[..k];
    var i :| 0 <= i < k && sorted[i] == kept;
    var j :| 0 <= j < |sorted| && sorted[j] == left;
  }

  lemma {:induction false} SelectionGrows(l: Limits, listings: seq<Listing>, m: nat, n: nat)
    requires m <= n <= |l.categories|
    ensures |Selected(l, listings, m)| <= |Selected(l, listings, n)|
  {
    if m < n {
      SelectionGrows(l, listings, m, n - 1);
      TakenMeans(Selected(l, listings, n - 1), Candidates(l, listings, l.categories[n - 1]), l.universe);
      SubsetCardinality(Selected(l, listings, n - 1), Selected(l, listings, n));
    }
  }

  lemma {:induction false} RoomLeftMeansFullShare(l: Limits, listings: seq<Listing>, c: nat, k: nat)
    requires c < |l.categories| && |Universe(l, listings)| < l.universe
    requires k == Max(0, Min(Min(|Bucket(l, listings, l.categories[c])|, Cap(l, l.categories[c])),
                             l.universe - |Selected(l, listings, c)|))
    requires |Selected(l, listings, c + 1)| == |Selected(l, listings, c)| + k
    ensures k == Min(|Bucket(l, listings, l.categories[c])|, Cap(l, l.categories[c]))
  {
    SelectionGrows(l, listings, c + 1, |l.categories|);
  }

  /** When the universe has room left, every category got its full share: the whole bucket or as
      many as its cap, the most traded first. */
  lemma {:induction false} FullShareWhenRoomLeft(l: Limits, listings: seq<Listing>, c: nat)
    requires c < |l.categories| && DistinctTickers(l, listings)
    requires |Universe(l, listings)| < l.universe
    ensures forall t :: t in Bucket(l, listings, l.categories[c]) ==>
              (t in Universe(l, listings) <==> t in Candidates(l, listings, l.categories[c]))
    ensures |Candidates(l, listings, l.categories[c])|
            == Min(|Bucket(l, listings, l.categories[c])|, Cap(l, l.categories[c]))
  {
    var k := CategoryGetsAPrefix(l, listings, c);
    RoomLeftMeansFullShare(l, listings, c, k);
    assert Candidates(l, listings, l.categories[c]) == Sorted(l, listings, l.categories[c])[..k];
  }

  // ---------- The loops ----------

  /** Fill the buckets listing by listing and market by market. */
  method FillBuckets(l: Limits, listings: seq<Listing>)
    returns (buckets: map<string, seq<string>>, volumes: map<string, int>)
    ensures buckets.Keys == Elements(l.categories)
    ensures forall c :: c in l.categories ==> buckets[c] == Bucket(l, listings, c)
    ensures volumes == Volumes(l, listings)
  {
    buckets, volumes := map c | c in l.categories :: [], map[];
    for i := 0 to |listings|
      invariant buckets.Keys == Elements(l.categories)
      invariant forall c :: c in l.categories ==> buckets[c] == Bucket(l, listings[..i], c)
      invariant volumes == Volumes(l, listings[..i])
    {
      var category, markets := listings[i].category, listings[i].markets;
      assert listings[..i + 1][..i] == listings[..i];
      if category in l.categories {
        var tickers, updated := buckets[category], volumes;
        for j := 0 to |markets|
          invariant tickers == buckets[category] + EligibleTickers(l, markets[..j])
          invariant updated == VolumesIn(l, markets[..j], volumes)
        {
          assert markets[..j + 1][..j] == markets[..j];
          if Eligible(l, markets[j]) {
            tickers := tickers + [markets[j].ticker];
            updated := updated[markets[j].ticker := markets[j].volume];
          }
        }
        assert markets[..|markets|] == markets;
        buckets, volumes := buckets[category := tickers], updated;
      }
    }
    assert listings[..|listings|] == listings;
  }

  method SelectUniverse(l: Limits, listings: seq<Listing>) returns (selected: set<string>)
    ensures selected == Universe(l, listings)
  {
    selected := Elements(l.pinned);
    var buckets, volumes := FillBuckets(l, listings);
    for n := 0 to |l.categories|
      invariant selected == Selected(l, listings, n)
    {
      var category := l.categories[n];
      var cap := if category in l.caps then l.caps[category] else 0;
      if cap > 0 {
        selected := TakeUpTo(selected, ByVolume(buckets[category], volumes), cap, l.universe);
      }
    }
  }

  /** The inner loop: up to `cap` tickers, stopping when the universe is full. */
  method TakeUpTo<T(==)>(before: set<T>, sorted: seq<T>, cap: nat, limit: int) returns (selected: set<T>)
    ensures selected == Taken(before, sorted[..Min(|sorted|, cap)], limit)
  {
    selected := before;
    ghost var cs := sorted[..Min(|sorted|, cap)];
    var i := 0;
    while i < |sorted| && i < cap && |selected| < limit
      invariant 0 <= i <= |cs| && selected == Taken(before, cs[..i], limit)
    {
      assert cs[..i + 1][..i] == cs[..i];
      selected := selected + {sorted[i]};
      i := i + 1;
    }
    FullStaysFull(before, cs, i, limit);
  }
}
