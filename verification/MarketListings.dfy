/** What the selection of markets says about the listings it was made from. */
module MarketListings {
  import opened MarketUniverses
  import opened Sequences

  /** The market can be traded within the limits, and is not pinned anyway. */
  predicate Tradable(l: Limits, m: Market) {
    && |m.ticker| > 0
    && !(m.ticker in l.excluded || m.ticker in l.pinned)
    && m.open
    && l.minVolume <= m.volume
    && m.daysToExpiry <= l.maxDays
  }

  /** Market `j` of a sequence is a tradable one with ticker `t`. */
  ghost predicate Trades(l: Limits, ms: seq<Market>, j: int, t: string) {
    0 <= j < |ms| && ms[j].ticker == t && Tradable(l, ms[j])
  }

  ghost predicate InMarkets(l: Limits, ms: seq<Market>, t: string) {
    exists j :: Trades(l, ms, j, t)
  }

  /** Listing `i` is of category `c` and has a tradable market with ticker `t`. */
  ghost predicate ListedIn(l: Limits, listings: seq<Listing>, c: string, i: int, t: string) {
    0 <= i < |listings| && listings[i].category == c && InMarkets(l, listings[i].markets, t)
  }

  lemma {:induction false} MarketsSnoc(l: Limits, ms: seq<Market>, t: string)
    requires ms != []
    ensures InMarkets(l, ms, t) <==> InMarkets(l, ms[..|ms| - 1], t) || Trades(l, ms, |ms| - 1, t)
  {
    var front := ms[..|ms| - 1];
    if j :| Trades(l, ms, j, t) {
      assert j < |front| ==> Trades(l, front, j, t);
    }
    if j :| Trades(l, front, j, t) {
      assert Trades(l, ms, j, t);
    }
  }

  lemma {:induction false} TickersAreTradable(l: Limits, ms: seq<Market>, t: string)
    ensures t in EligibleTickers(l, ms) <==> InMarkets(l, ms, t)
  {
    if ms != [] {
      TickersAreTradable(l, ms[..|ms| - 1], t);
      MarketsSnoc(l, ms, t);
    }
  }

  /** The bucket of a category holds exactly the tickers of the tradable markets listed in it. */
  lemma {:induction false} BucketIsTradable(l: Limits, listings: seq<Listing>, c: string, t: string)
    ensures t in Bucket(l, listings, c) <==> exists i :: ListedIn(l, listings, c, i, t)
  {
    if listings != [] {
      var front, last := listings[..|listings| - 1], listings[|listings| - 1];
      BucketIsTradable(l, front, c, t);
      TickersAreTradable(l, last.markets, t);
      if i :| ListedIn(l, front, c, i, t) {
        assert ListedIn(l, listings, c, i, t);
      }
      if i :| ListedIn(l, listings, c, i, t) {
        assert i < |front| ==> ListedIn(l, front, c, i, t);
      }
      assert last.category == c && InMarkets(l, last.markets, t) ==> ListedIn(l, listings, c, |front|, t);
    }
  }

  lemma {:induction false} CandidatesAreListed(l: Limits, listings: seq<Listing>, category: string, t: string)
    requires t in Candidates(l, listings, category)
    ensures t in Bucket(l, listings, category)
  {
    assert t in Sorted(l, listings, category);
    SortedMembers(Bucket(l, listings, category), Volumes(l, listings), t);
  }

  lemma {:induction false} NewlySelected(l: Limits, listings: seq<Listing>, n: nat, t: string)
    requires n < |l.categories| && t in Selected(l, listings, n + 1) && t !in Selected(l, listings, n)
    ensures t in Bucket(l, listings, l.categories[n])
  {
    var candidates := Candidates(l, listings, l.categories[n]);
    TakenMeans(Selected(l, listings, n), candidates, l.universe);
    assert t in Elements(candidates);
    CandidatesAreListed(l, listings, l.categories[n], t);
  }

  lemma {:induction false} PinnedAreSelectedFirst(l: Limits, listings: seq<Listing>, t: string)
    ensures t in Selected(l, listings, 0) <==> t in l.pinned
  {
  }

  lemma {:induction false} SelectedComesFromSomewhere(l: Limits, listings: seq<Listing>, n: nat, t: string)
    returns (c: nat)
    requires n <= |l.categories| && t in Selected(l, listings, n) && t !in l.pinned
    ensures c < n && t in Bucket(l, listings, l.categories[c])
  {
    PinnedAreSelectedFirst(l, listings, t);
    if t in Selected(l, listings, n - 1) {
      c := SelectedComesFromSomewhere(l, listings, n - 1, t);
    } else {
      c := n - 1;
      NewlySelected(l, listings, c, t);
    }
  }

  lemma {:induction false} SortedMembers(ts: seq<string>, volumes: map<string, int>, t: string)
    ensures t in ByVolume(ts, volumes) <==> t in ts
  {
    ByVolumeSorts(ts, volumes, 0);
    assert t in multiset(ByVolume(ts, volumes)) <==> t in multiset(ts);
  }

  /** Every market selected is pinned, or tradable and listed in an allowed category. */
  lemma {:induction false} SelectedIsTradable(l: Limits, listings: seq<Listing>, t: string)
    requires t in Universe(l, listings) && t !in l.pinned
    ensures exists c, i :: c in l.categories && ListedIn(l, listings, c, i, t)
  {
    var c := SelectedComesFromSomewhere(l, listings, |l.categories|, t);
    BucketIsTradable(l, listings, l.categories[c], t);
    var i :| ListedIn(l, listings, l.categories[c], i, t);
    assert l.categories[c] in l.categories;
  }

  // ---------- Volumes ----------

  /** `v` is the volume of the last tradable market with ticker `t`. */
  ghost predicate LastVolumeIn(l: Limits, ms: seq<Market>, t: string, v: int) {
    exists j :: Trades(l, ms, j, t) && ms[j].volume == v && forall k :: j < k ==> !Trades(l, ms, k, t)
  }

  lemma {:induction false} LastVolumeSnoc(l: Limits, ms: seq<Market>, t: string, v: int)
    requires ms != []
    ensures var last := ms[|ms| - 1];
            LastVolumeIn(l, ms, t, v)
            <==> if Trades(l, ms, |ms| - 1, t) then last.volume == v else LastVolumeIn(l, ms[..|ms| - 1], t, v)
  {
    var front := ms[..|ms| - 1];
    assert forall k :: k < |front| ==> (Trades(l, ms, k, t) <==> Trades(l, front, k, t));
    assert forall k :: k > |front| ==> !Trades(l, ms, k, t);
    assert forall k :: k >= |front| ==> !Trades(l, front, k, t);
    if j :| Trades(l, front, j, t) && front[j].volume == v && forall k :: j < k ==> !Trades(l, front, k, t) {
      assert Trades(l, ms, j, t) && ms[j].volume == v;
    }
  }

  lemma {:induction false} VolumesInMean(l: Limits, ms: seq<Market>, before: map<string, int>, t: string)
    ensures var after := VolumesIn(l, ms, before);
            if InMarkets(l, ms, t) then t in after && LastVolumeIn(l, ms, t, after[t])
            else (t in after <==> t in before) && (t in after ==> after[t] == before[t])
  {
    if ms != [] {
      VolumesInMean(l, ms[..|ms| - 1], before, t);
      MarketsSnoc(l, ms, t);
      var after := VolumesIn(l, ms, before);
      if t in after {
        LastVolumeSnoc(l, ms, t, after[t]);
      }
    }
  }

  /** Listing `i` of an allowed category is the last of those with a tradable market called `t`, and `v` is the volume
      of the last such market in it. */
  ghost predicate LastVolumeAt(l: Limits, listings: seq<Listing>, i: int, t: string, v: int) {
    && 0 <= i < |listings| && listings[i].category in l.categories && LastVolumeIn(l, listings[i].markets, t, v)
    && forall k :: i < k < |listings| && listings[k].category in l.categories ==> !InMarkets(l, listings[k].markets, t)
  }

  /** The volume a ticker is sorted by is that of the last tradable market with that ticker. */
  lemma {:induction false} VolumeIsTheLastListed(l: Limits, listings: seq<Listing>, t: string)
    requires t in Volumes(l, listings)
    ensures exists i :: LastVolumeAt(l, listings, i, t, Volumes(l, listings)[t])
  {
    var front, last := listings[..|listings| - 1], listings[|listings| - 1];
    var before, v := Volumes(l, front), Volumes(l, listings)[t];
    VolumesInMean(l, last.markets, before, t);
    if last.category in l.categories && InMarkets(l, last.markets, t) {
      assert LastVolumeAt(l, listings, |front|, t, v);
    } else {
      VolumeIsTheLastListed(l, front, t);
      var i :| LastVolumeAt(l, front, i, t, before[t]);
      assert LastVolumeAt(l, listings, i, t, v);
    }
  }

  lemma {:induction false} BucketsHaveVolumes(l: Limits, listings: seq<Listing>, c: string, t: string)
    requires c in l.categories && t in Bucket(l, listings, c)
    ensures t in Volumes(l, listings)
  {
    var front, last := listings[..|listings| - 1], listings[|listings| - 1];
    VolumesInMean(l, last.markets, Volumes(l, front), t);
    TickersAreTradable(l, last.markets, t);
    if t in Bucket(l, front, c) {
      BucketsHaveVolumes(l, front, c, t);
    }
  }

  /** Of two tradable markets listed in a category, one selected and one not, the one selected has traded no less. */
  lemma {:induction false} NoBetterListingLeftOut(l: Limits, listings: seq<Listing>, c: nat, kept: string, left: string)
    returns (v: int, w: int)
    requires c < |l.categories| && DistinctTickers(l, listings)
    requires exists i :: ListedIn(l, listings, l.categories[c], i, kept)
    requires exists i :: ListedIn(l, listings, l.categories[c], i, left)
    requires kept in Universe(l, listings) && left !in Universe(l, listings)
    ensures exists i :: LastVolumeAt(l, listings, i, kept, v)
    ensures exists i :: LastVolumeAt(l, listings, i, left, w)
    ensures v >= w
  {
    var category := l.categories[c];
    BucketIsTradable(l, listings, category, kept);
    BucketIsTradable(l, listings, category, left);
    BucketsHaveVolumes(l, listings, category, kept);
    BucketsHaveVolumes(l, listings, category, left);
    VolumeIsTheLastListed(l, listings, kept);
    VolumeIsTheLastListed(l, listings, left);
    NoBetterMarketLeftOut(l, listings, c, kept, left);
    v, w := Volumes(l, listings)[kept], Volumes(l, listings)[left];
  }

  /** How many markets a category adds: its cap, none where it has no cap or one below zero, as far as it has tradable
      markets and the universe has room. */
  lemma {:induction false} CategoryAdds(l: Limits, listings: seq<Listing>, c: nat)
    requires c < |l.categories| && DistinctTickers(l, listings)
    ensures var category, before := l.categories[c], |Selected(l, listings, c)|;
            var cap, room := if category in l.caps then l.caps[category] else 0, l.universe - before;
            |Selected(l, listings, c + 1)| == before + Max(0, Min(Min(|Bucket(l, listings, category)|, cap), room))
  {
    var k := CategoryGetsAPrefix(l, listings, c);
  }
}
