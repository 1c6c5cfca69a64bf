/** Aggregation of agent contributions: consensus when agreement is high, a weighted vote
    otherwise, and neither without a quorum. */
module DecisionAggregation {
  import opened Options
  import opened QuorumRules
  import Tracking = QuorumTracking
  import opened RealArithmetic
  import opened Sequences

  datatype Contribution = Contribution(agent: string, recommendation: string, confidence: real, weight: real)

  datatype Method = QuorumFailed | Consensus | WeightedVoting

  datatype Priority = Critical | High | Medium

  datatype Decision = Decision(final: string, confidence: real, how: Method, priority: Priority)

  const CRITICAL_KINDS := {"emergency_stop", "risk_breach", "system_failure"}
  const HIGH_KINDS := {"large_trade", "portfolio_rebalance", "strategy_change"}

  /** Of the kind of decision, or of a confidence too low to go unnoticed. */
  function PriorityOf(kind: string, confidence: real): Priority {
    if kind in CRITICAL_KINDS then Critical
    else if kind in HIGH_KINDS then High
    else if confidence < 0.5 then High
    else Medium
  }

  // ---------- Sums over contributions ----------

  function SumOf(cs: seq<Contribution>, value: Contribution -> real): real {
    if cs == [] then 0.0 else SumOf(cs[..|cs| - 1], value) + value(cs[|cs| - 1])
  }

  function Votes(r: string): Contribution -> real {
    (c: Contribution) => if c.recommendation == r then 1.0 else 0.0
  }

  function Confidence(r: string): Contribution -> real {
    (c: Contribution) => if c.recommendation == r then c.confidence else 0.0
  }

  function WeightedVote(r: string): Contribution -> real {
    (c: Contribution) => if c.recommendation == r then c.weight * c.confidence else 0.0
  }

  function Recommendations(cs: seq<Contribution>): set<string> {
    set c | c in cs :: c.recommendation
  }

  lemma {:induction false} VotesMeans(cs: seq<Contribution>, r: string)
    ensures SumOf(cs, Votes(r)) >= 0.0
    ensures SumOf(cs, Votes(r)) > 0.0 <==> r in Recommendations(cs)
  {
    if cs != [] {
      var front, last := cs[..|cs| - 1], cs[|cs| - 1];
      VotesMeans(front, r);
      assert cs == front + [last];
      assert Recommendations(cs) == Recommendations(front) + {last.recommendation};
    }
  }

  /** Average confidence of the supporters of `r`. */
  function AverageConfidence(cs: seq<Contribution>, r: string): real
    requires r in Recommendations(cs)
  {
    VotesMeans(cs, r);
    SumOf(cs, Confidence(r)) / SumOf(cs, Votes(r))
  }

  // ---------- The decision ----------

  /** The position of Python's `max`: the first of greatest score in iteration order. */
  function FirstMax(order: seq<string>, score: string -> real): (i: nat)
    requires order != []
    ensures i < |order|
    ensures forall j :: 0 <= j < |order| ==> score(order[j]) <= score(order[i])
    ensures forall j :: 0 <= j < i ==> score(order[j]) < score(order[i])
  {
    var last := |order| - 1;
    if last == 0 then 0 else
    var best := FirstMax(order[..last], score);
    if score(order[last]) > score(order[best]) then last else best
  }

  /** `order` lists the distinct recommendations, as iterating over their set does, in some order. */
  ghost predicate Enumerates(order: seq<string>, cs: seq<Contribution>) {
    forall r :: r in order <==> r in Recommendations(cs)
  }

  function VoteCounts(cs: seq<Contribution>): string -> real {
    (r: string) => SumOf(cs, Votes(r))
  }

  function Weights(cs: seq<Contribution>): string -> real {
    (r: string) => SumOf(cs, WeightedVote(r))
  }

  lemma {:induction false} EnumerationNonEmpty(order: seq<string>, cs: seq<Contribution>)
    requires cs != [] && Enumerates(order, cs)
    ensures order != []
  {
    assert cs[0].recommendation in Recommendations(cs);
  }

  function MostCommon(cs: seq<Contribution>, order: seq<string>): (r: string)
    requires cs != [] && Enumerates(order, cs)
    ensures r in Recommendations(cs)
  {
    EnumerationNonEmpty(order, cs);
    order[FirstMax(order, VoteCounts(cs))]
  }

  predicate HighAgreement(cs: seq<Contribution>, order: seq<string>)
    requires Enumerates(order, cs)
  {
    cs != [] && SumOf(cs, Votes(MostCommon(cs, order))) / |cs| as real >= 0.7
  }

  /** The keys of the weight dictionary: recommendations in order of first appearance. */
  function FirstSeen(cs: seq<Contribution>): (order: seq<string>)
    ensures Enumerates(order, cs)
  {
    if cs == [] then [] else
    var front, last := cs[..|cs| - 1], cs[|cs| - 1];
    assert cs == front + [last];
    assert Recommendations(cs) == Recommendations(front) + {last.recommendation};
    var before := FirstSeen(front);
    if last.recommendation in before then before else before + [last.recommendation]
  }

  function WeightedWinner(cs: seq<Contribution>): (r: string)
    requires cs != []
    ensures r in Recommendations(cs)
  {
    EnumerationNonEmpty(FirstSeen(cs), cs);
    FirstSeen(cs)[FirstMax(FirstSeen(cs), Weights(cs))]
  }

  /** `order1` and `order2` are the iteration orders of the two sets built on the way. */
  function Aggregate(kind: string, quorum: int, cs: seq<Contribution>, order1: seq<string>,
                     order2: seq<string>): Decision
    requires quorum >= 1 && Enumerates(order1, cs) && Enumerates(order2, cs)
  {
    if |cs| < quorum then Decision("QUORUM_FAILED", 0.0, QuorumFailed, Critical)
    else if HighAgreement(cs, order1) then
      var r := MostCommon(cs, order2);
      Decision(r, AverageConfidence(cs, r), Consensus, PriorityOf(kind, AverageConfidence(cs, r)))
    else
      var r := WeightedWinner(cs);
      Decision(r, AverageConfidence(cs, r), WeightedVoting, PriorityOf(kind, AverageConfidence(cs, r)))
  }

  // ---------- Iteration order does not matter ----------

  lemma {:induction false} VotesOfTwo(cs: seq<Contribution>, r: string, s: string)
    requires r != s
    ensures SumOf(cs, Votes(r)) + SumOf(cs, Votes(s)) <= |cs| as real
  {
    if cs != [] {
      VotesOfTwo(cs[..|cs| - 1], r, s);
    }
  }

  lemma {:induction false} AgreementByCounting(cs: seq<Contribution>, order: seq<string>)
    requires cs != [] && Enumerates(order, cs)
    ensures HighAgreement(cs, order) <==> 10.0 * SumOf(cs, Votes(MostCommon(cs, order))) >= 7.0 * |cs| as real
  {
    SeventyPercent(SumOf(cs, Votes(MostCommon(cs, order))), |cs| as real);
  }

  lemma {:induction false} SeventyPercent(votes: real, n: real)
    requires n > 0.0
    ensures votes / n >= 0.7 <==> 10.0 * votes >= 7.0 * n
  {
    QuotientAtLeast(votes, n, 0.7);
  }

  /** Whether agreement is high, and with it the winner, is the same for every two iteration orders. */
  lemma {:induction false} AgreementIgnoresOrder(cs: seq<Contribution>, o: seq<string>, o': seq<string>)
    requires cs != [] && Enumerates(o, cs) && Enumerates(o', cs)
    ensures HighAgreement(cs, o) <==> HighAgreement(cs, o')
    ensures HighAgreement(cs, o) ==> MostCommon(cs, o) == MostCommon(cs, o')
  {
    var r, r' := MostCommon(cs, o), MostCommon(cs, o');
    AgreementByCounting(cs, o);
    AgreementByCounting(cs, o');
    assert r in o && r' in o && r in o' && r' in o';
    assert SumOf(cs, Votes(r)) == SumOf(cs, Votes(r')) by {
      assert VoteCounts(cs)(r) <= VoteCounts(cs)(r') && VoteCounts(cs)(r') <= VoteCounts(cs)(r);
    }
    if HighAgreement(cs, o) && r != r' {
      VotesOfTwo(cs, r, r');
      assert false;
    }
  }

  /** The decision does not depend on how the two sets happen to be iterated. */
  lemma {:induction false} AggregateIgnoresSetOrder(kind: string, quorum: int, cs: seq<Contribution>, o1: seq<string>,
                                                    o2: seq<string>, p1: seq<string>, p2: seq<string>)
    requires quorum >= 1
    requires Enumerates(o1, cs) && Enumerates(o2, cs) && Enumerates(p1, cs) && Enumerates(p2, cs)
    ensures Aggregate(kind, quorum, cs, o1, o2) == Aggregate(kind, quorum, cs, p1, p2)
  {
    if cs != [] {
      AgreementIgnoresOrder(cs, o1, p1);
      AgreementIgnoresOrder(cs, o1, o2);
      AgreementIgnoresOrder(cs, o1, p2);
    }
  }

  // ---------- Neither does the order of the contributions, under high agreement ----------

  lemma {:induction false} SumOfConcat(a: seq<Contribution>, b: seq<Contribution>, value: Contribution -> real)
    ensures SumOf(a + b, value) == SumOf(a, value) + SumOf(b, value)
  {
    if b == [] {
      assert a + b == a;
    } else {
      SumOfConcat(a, b[..|b| - 1], value);
      assert (a + b)[..|a + b| - 1] == a + b[..|b| - 1];
    }
  }

  lemma {:induction false} SumOfPermutation(a: seq<Contribution>, b: seq<Contribution>, value: Contribution -> real)
    requires multiset(a) == multiset(b)
    ensures SumOf(a, value) == SumOf(b, value)
  {
    if a == [] {
      assert |multiset(b)| == 0;
      assert b == [];
    } else {
      var front, last := a[..|a| - 1], a[|a| - 1];
      assert last in multiset(b);
      var i :| 0 <= i < |b| && b[i] == last;
      MultisetWithout(a, |a| - 1);
      MultisetWithout(b, i);
      assert front + a[|a|..] == front;
      SumOfPermutation(front, b[..i] + b[i + 1..], value);
      SumWithout(b, i, value);
    }
  }

  lemma {:induction false} MultisetWithout(a: seq<Contribution>, i: nat)
    requires i < |a|
    ensures multiset(a[..i] + a[i + 1..]) == multiset(a) - multiset{a[i]}
  {
    assert a == a[..i] + [a[i]] + a[i + 1..];
  }

  lemma {:induction false} SumWithout(a: seq<Contribution>, i: nat, value: Contribution -> real)
    requires i < |a|
    ensures SumOf(a, value) == SumOf(a[..i] + a[i + 1..], value) + value(a[i])
  {
    var left, right := a[..i], a[i + 1..];
    assert a == left + [a[i]] + right;
    SumOfConcat(left, right, value);
    SumOfConcat(left + [a[i]], right, value);
    assert (left + [a[i]])[..|left|] == left;
  }

  lemma {:induction false} RecommendationsOfPermutation(a: seq<Contribution>, b: seq<Contribution>)
    requires multiset(a) == multiset(b)
    ensures |a| == |b|
    ensures Recommendations(a) == Recommendations(b)
  {
    assert |multiset(a)| == |a| && |multiset(b)| == |b|;
    assert forall c :: c in a <==> c in multiset(a);
    assert forall c :: c in b <==> c in multiset(b);
  }

  lemma {:induction false} AverageOfPermutation(a: seq<Contribution>, b: seq<Contribution>, r: string)
    requires multiset(a) == multiset(b) && r in Recommendations(a)
    ensures r in Recommendations(b) && AverageConfidence(a, r) == AverageConfidence(b, r)
  {
    RecommendationsOfPermutation(a, b);
    SumOfPermutation(a, b, Votes(r));
    SumOfPermutation(a, b, Confidence(r));
  }

  /** Under high agreement, permuting the contributions changes nothing; nor does it change
      whether agreement is high or the quorum is met. */
  lemma {:induction false} ConsensusIgnoresContributionOrder(kind: string, quorum: int, a: seq<Contribution>,
      b: seq<Contribution>, order: seq<string>)
    requires quorum >= 1 && multiset(a) == multiset(b) && Enumerates(order, a)
    ensures Enumerates(order, b)
    ensures Aggregate(kind, quorum, a, order, order).how == Aggregate(kind, quorum, b, order, order).how
    ensures Aggregate(kind, quorum, a, order, order).how != WeightedVoting
            ==> Aggregate(kind, quorum, a, order, order) == Aggregate(kind, quorum, b, order, order)
  {
    RecommendationsOfPermutation(a, b);
    if a != [] {
      forall r
        ensures VoteCounts(a)(r) == VoteCounts(b)(r)
      {
        SumOfPermutation(a, b, Votes(r));
      }
      EnumerationNonEmpty(order, a);
      FirstMaxAgrees(order, VoteCounts(a), VoteCounts(b));
      AgreementByCounting(a, order);
      AgreementByCounting(b, order);
      AverageOfPermutation(a, b, MostCommon(a, order));
    }
  }

  lemma {:induction false} FirstMaxAgrees(order: seq<string>, f: string -> real, g: string -> real)
    requires order != [] && forall r :: r in order ==> f(r) == g(r)
    ensures FirstMax(order, f) == FirstMax(order, g)
  {
    if |order| > 1 {
      FirstMaxAgrees(order[..|order| - 1], f, g);
      assert order[FirstMax(order[..|order| - 1], f)] in order && order[|order| - 1] in order;
    }
  }

  /** A decision other than a quorum failure has at least the effective quorum behind it. */
  lemma {:induction false} DecisionNeedsQuorum(cfg: QuorumConfig, assets: seq<string>, timeframes: seq<string>,
                                               emergency: bool, kind: string, cs: seq<Contribution>, o1: seq<string>,
                                               o2: seq<string>)
    requires 1 <= cfg.minValid <= cfg.maxQuorum
    requires Enumerates(o1, cs) && Enumerates(o2, cs)
    ensures var q := EffectiveQuorum(cfg, assets, timeframes, emergency);
            && cfg.minValid <= q <= cfg.maxQuorum
            && (Aggregate(kind, q, cs, o1, o2).how == QuorumFailed <==> |cs| < q)
            && (Aggregate(kind, q, cs, o1, o2).how != QuorumFailed ==>
                  Aggregate(kind, q, cs, o1, o2).final in Recommendations(cs))
  {
    EmergencyIsBounded(cfg, assets, timeframes);
  }

  // ---------- The weighted vote and ties ----------

  /** Some recommendation outweighs every other. */
  ghost predicate UniqueHeaviest(cs: seq<Contribution>) {
    exists r :: Heaviest(cs, r)
  }

  ghost predicate Heaviest(cs: seq<Contribution>, r: string) {
    r in Recommendations(cs) && forall s :: s in Recommendations(cs) && s != r ==> Weights(cs)(s) < Weights(cs)(r)
  }

  ghost predicate WinnerIgnoresOrder(cs: seq<Contribution>)
    requires cs != []
  {
    forall p: seq<Contribution> ::
      |p| == |cs| && multiset(p) == multiset(cs) ==> WeightedWinner(p) == WeightedWinner(cs)
  }

  lemma {:induction false} WinnerIsHeaviest(cs: seq<Contribution>, r: string)
    requires cs != [] && r in Recommendations(cs)
    ensures Weights(cs)(r) <= Weights(cs)(WeightedWinner(cs))
  {
    assert r in FirstSeen(cs);
    EnumerationNonEmpty(FirstSeen(cs), cs);
  }

  lemma {:induction false} FirstSeenStarts(cs: seq<Contribution>)
    requires cs != []
    ensures FirstSeen(cs) != [] && FirstSeen(cs)[0] == cs[0].recommendation
  {
    if |cs| > 1 {
      FirstSeenStarts(cs[..|cs| - 1]);
    } else {
      assert FirstSeen(cs[..0]) == [];
    }
  }

  function Recommends(r: string): Contribution -> bool {
    (c: Contribution) => c.recommendation == r
  }

  function RecommendsOther(r: string): Contribution -> bool {
    (c: Contribution) => c.recommendation != r
  }

  /** Any recommendation of greatest weight wins when its supporters come first. */
  lemma {:induction false} SupportersFirst(cs: seq<Contribution>, r: string) returns (p: seq<Contribution>)
    requires cs != [] && r in Recommendations(cs)
    requires forall s :: s in Recommendations(cs) ==> Weights(cs)(s) <= Weights(cs)(r)
    ensures |p| == |cs| && multiset(p) == multiset(cs) && WeightedWinner(p) == r
  {
    var first := Filter(cs, Recommends(r));
    p := first + Filter(cs, RecommendsOther(r));
    FilterRearranges(cs, Recommends(r), RecommendsOther(r));
    RecommendationsOfPermutation(p, cs);
    var c :| c in cs && c.recommendation == r;
    FilterMembers(cs, Recommends(r), c);
    FilterMembers(cs, Recommends(r), first[0]);
    assert p[0] == first[0];
    FirstSeenStarts(p);
    forall s | s in Recommendations(cs)
      ensures Weights(p)(s) == Weights(cs)(s)
    {
      SumOfPermutation(p, cs, WeightedVote(s));
    }
    WinnerIsHeaviest(p, r);
    var order := FirstSeen(p);
    var w := FirstMax(order, Weights(p));
    assert order[w] == WeightedWinner(p);
    assert order[w] in Recommendations(p);
  }

  /** The weighted vote gives the same winner for every order of the contributions exactly when
      one recommendation outweighs all others: ties go to the one that appears first. */
  lemma {:induction false} WinnerIgnoresOrderExactlyWhen(cs: seq<Contribution>)
    requires cs != []
    ensures WinnerIgnoresOrder(cs) <==> UniqueHeaviest(cs)
  {
    var winner := WeightedWinner(cs);
    if r :| Heaviest(cs, r) {
      forall p: seq<Contribution> | |p| == |cs| && multiset(p) == multiset(cs)
        ensures WeightedWinner(p) == winner
      {
        HeaviestWins(cs, r, p);
        HeaviestWins(cs, r, cs);
      }
    } else {
      assert !Heaviest(cs, winner);
      var s :| s in Recommendations(cs) && s != winner && !(Weights(cs)(s) < Weights(cs)(winner));
      forall t | t in Recommendations(cs)
        ensures Weights(cs)(t) <= Weights(cs)(s)
      {
        WinnerIsHeaviest(cs, t);
      }
      var p := SupportersFirst(cs, s);
      assert WeightedWinner(p) != winner;
    }
  }

  lemma {:induction false} HeaviestWins(cs: seq<Contribution>, r: string, p: seq<Contribution>)
    requires cs != [] && Heaviest(cs, r) && multiset(p) == multiset(cs)
    ensures p != [] && WeightedWinner(p) == r
  {
    RecommendationsOfPermutation(p, cs);
    WinnerIsHeaviest(p, r);
    SumOfPermutation(p, cs, WeightedVote(r));
    SumOfPermutation(p, cs, WeightedVote(WeightedWinner(p)));
  }

  // ---------- The loop of the weighted vote, and the aggregator ----------

  lemma {:induction false} NoVotesNoSums(cs: seq<Contribution>, r: string)
    requires r !in Recommendations(cs)
    ensures SumOf(cs, WeightedVote(r)) == SumOf(cs, Confidence(r)) == SumOf(cs, Votes(r)) == 0.0
  {
    if cs != [] {
      assert cs == cs[..|cs| - 1] + [cs[|cs| - 1]];
      NoVotesNoSums(cs[..|cs| - 1], r);
    }
  }

  /** One recommendation's totals: weight, confidence and number of votes. */
  datatype Totals = Totals(weight: real, confidence: real, votes: real) {
    function Plus(c: Contribution): Totals {
      Totals(weight + c.weight * c.confidence, confidence + c.confidence, votes + 1.0)
    }
  }

  function TotalsOf(cs: seq<Contribution>, r: string): Totals {
    Totals(SumOf(cs, WeightedVote(r)), SumOf(cs, Confidence(r)), SumOf(cs, Votes(r)))
  }

  lemma {:induction false} TotalsGrow(cs: seq<Contribution>, c: Contribution, r: string)
    ensures TotalsOf(cs + [c], r) == if r == c.recommendation then TotalsOf(cs, r).Plus(c) else TotalsOf(cs, r)
  {
    assert (cs + [c])[..|cs|] == cs;
  }

  ghost predicate Tallied(cs: seq<Contribution>, totals: map<string, Totals>) {
    && (forall r :: r in totals <==> r in Recommendations(cs))
    && forall r :: r in totals ==> totals[r] == TotalsOf(cs, r)
  }

  lemma {:induction false} TalliedOneMore(cs: seq<Contribution>, c: Contribution, totals: map<string, Totals>)
    requires Tallied(cs, totals)
    ensures var before := if c.recommendation in totals then totals[c.recommendation] else Totals(0.0, 0.0, 0.0);
            Tallied(cs + [c], totals[c.recommendation := before.Plus(c)])
  {
    assert Recommendations(cs + [c]) == Recommendations(cs) + {c.recommendation};
    if c.recommendation !in totals {
      NoVotesNoSums(cs, c.recommendation);
    }
    forall r
      ensures TotalsOf(cs + [c], r) == if r == c.recommendation then TotalsOf(cs, r).Plus(c) else TotalsOf(cs, r)
    {
      TotalsGrow(cs, c, r);
    }
  }

  /** The dictionaries of weights and confidences, filled contribution by contribution. */
  method Tally(cs: seq<Contribution>) returns (order: seq<string>, totals: map<string, Totals>)
    ensures order == FirstSeen(cs)
    ensures Tallied(cs, totals)
  {
    order, totals := [], map[];
    for i := 0 to |cs|
      invariant order == FirstSeen(cs[..i])
      invariant Tallied(cs[..i], totals)
    {
      var c := cs[i];
      assert cs[..i + 1] == cs[..i] + [c] && cs[..i + 1][..i] == cs[..i];
      TalliedOneMore(cs[..i], c, totals);
      if c.recommendation !in totals {
        order := order + [c.recommendation];
        totals := totals[c.recommendation := Totals(0.0, 0.0, 0.0)];
      }
      totals := totals[c.recommendation := totals[c.recommendation].Plus(c)];
    }
    assert cs[..|cs|] == cs;
  }

  method WeightedDecision(cs: seq<Contribution>) returns (winner: string, confidence: real)
    requires cs != []
    ensures winner == WeightedWinner(cs)
    ensures confidence == AverageConfidence(cs, winner)
  {
    var order, totals := Tally(cs);
    EnumerationNonEmpty(order, cs);
    winner := HeaviestIn(order, totals, Weights(cs));
    VotesMeans(cs, winner);
    confidence := totals[winner].confidence / totals[winner].votes;
  }

  method HeaviestIn(order: seq<string>, totals: map<string, Totals>, ghost score: string -> real) returns (best: string)
    requires order != [] && forall r :: r in order ==> r in totals && totals[r].weight == score(r)
    ensures best == order[FirstMax(order, score)]
  {
    var i := 0;
    for j := 1 to |order|
      invariant 0 <= i < j
      invariant i == FirstMax(order[..j], score)
    {
      assert order[..j + 1][..j] == order[..j];
      assert order[j] in order && order[i] in order;
      if totals[order[j]].weight > totals[order[i]].weight {
        i := j;
      }
    }
    assert order[..|order|] == order;
    best := order[i];
  }

  function Agents(cs: seq<Contribution>): (agents: seq<string>)
    ensures |agents| == |cs| && forall i :: 0 <= i < |cs| ==> agents[i] == cs[i].agent
  {
    if cs == [] then [] else Agents(cs[..|cs| - 1]) + [cs[|cs| - 1].agent]
  }

  function FirstOr(names: seq<string>): string {
    if names == [] then "unknown" else names[0]
  }

  /** What the failure tracker is told of a missed quorum. */
  function MissedQuorum(cfg: Tracking.Config, s: Tracking.State, kind: string, cs: seq<Contribution>,
                        assets: seq<string>, timeframes: seq<string>, quorum: int, now: real): (Tracking.State, bool) {
    Tracking.RecordFailure(cfg, s, Tracking.MakeKey(FirstOr(assets), FirstOr(timeframes), kind),
                           Agents(cs), quorum, now)
  }

  class DecisionAggregator {
    const cfg: QuorumConfig
    const tracker: Tracking.QuorumFailureTracker
    var counter: nat

    constructor (cfg: QuorumConfig, tracker: Tracking.QuorumFailureTracker)
      requires 1 <= cfg.minValid <= cfg.maxQuorum
      ensures this.cfg == cfg && this.tracker == tracker && counter == 0
    {
      this.cfg, this.tracker, counter := cfg, tracker, 0;
    }

    /** A missed quorum is reported to the failure tracker, whose answer says whether the failure is
        throttled; it has an identifier of its own.  Every other decision is numbered. */
    method Decide(kind: string, cs: seq<Contribution>, assets: seq<string>, timeframes: seq<string>, emergency: bool,
                  now: real, order1: seq<string>, order2: seq<string>)
      returns (number: Option<nat>, d: Decision, throttled: bool)
      requires 1 <= cfg.minValid <= cfg.maxQuorum
      requires Enumerates(order1, cs) && Enumerates(order2, cs)
      modifies this, tracker
      ensures counter == old(counter) + 1
      ensures number == if d.how == QuorumFailed then None else Some(counter)
      ensures d == Aggregate(kind, EffectiveQuorum(cfg, assets, timeframes, emergency), cs, order1, order2)
      ensures d.how == QuorumFailed ==>
                (tracker.View(), !throttled)
                == MissedQuorum(tracker.cfg, old(tracker.View()), kind, cs, assets, timeframes,
                                EffectiveQuorum(cfg, assets, timeframes, emergency), now)
      ensures d.how != QuorumFailed ==> tracker.View() == old(tracker.View()) && !throttled
    {
      counter := counter + 1;
      throttled := false;
      var quorum := ComputeEffectiveQuorum(cfg, assets, timeframes, emergency);
      if |cs| < quorum {
        var alert, _ := tracker.Record(FirstOr(assets), FirstOr(timeframes), kind, Agents(cs), quorum, now);
        throttled := !alert;
        return None, Decision("QUORUM_FAILED", 0.0, QuorumFailed, Critical), throttled;
      }
      if HighAgreement(cs, order1) {
        var r := MostCommon(cs, order2);
        d := Decision(r, AverageConfidence(cs, r), Consensus, PriorityOf(kind, AverageConfidence(cs, r)));
      } else {
        var r, confidence := WeightedDecision(cs);
        d := Decision(r, confidence, WeightedVoting, PriorityOf(kind, confidence));
      }
      number := Some(counter);
    }
  }
}
