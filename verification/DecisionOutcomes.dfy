/** What an aggregated decision says, read off the contributions. */
module DecisionOutcomes {
  import opened DecisionAggregation
  import opened Options
  import opened RealArithmetic
  import opened Sequences
  import Tracking = QuorumTracking

  // ---------- Sums over the supporters of a recommendation ----------

  function Supporters(cs: seq<Contribution>, r: string): seq<Contribution> {
    Filter(cs, Recommends(r))
  }

  function TotalConfidence(cs: seq<Contribution>): real {
    if cs == [] then 0.0 else TotalConfidence(cs[..|cs| - 1]) + cs[|cs| - 1].confidence
  }

  /** A vote counts its weight times its confidence. */
  function TotalWeight(cs: seq<Contribution>): real {
    if cs == [] then 0.0 else TotalWeight(cs[..|cs| - 1]) + cs[|cs| - 1].weight * cs[|cs| - 1].confidence
  }

  lemma {:induction false} SumsAreOverSupporters(cs: seq<Contribution>, r: string)
    ensures SumOf(cs, Votes(r)) == |Supporters(cs, r)| as real
    ensures SumOf(cs, Confidence(r)) == TotalConfidence(Supporters(cs, r))
    ensures SumOf(cs, WeightedVote(r)) == TotalWeight(Supporters(cs, r))
  {
    if cs != [] {
      SumsAreOverSupporters(cs[..|cs| - 1], r);
    }
  }

  lemma {:induction false} SupportedExactlyWhen(cs: seq<Contribution>, r: string)
    ensures Supporters(cs, r) != [] <==> r in Recommendations(cs)
  {
    if Supporters(cs, r) != [] {
      FilterMembers(cs, Recommends(r), Supporters(cs, r)[0]);
    }
    if c :| c in cs && c.recommendation == r {
      FilterMembers(cs, Recommends(r), c);
    }
  }

  // ---------- Agreement ----------

  /** At least seventy percent of the contributions recommend `r`. */
  predicate Agreed(cs: seq<Contribution>, r: string) {
    10 * |Supporters(cs, r)| >= 7 * |cs|
  }

  lemma {:induction false} HighAgreementMeans(cs: seq<Contribution>, order: seq<string>)
    requires cs != [] && Enumerates(order, cs)
    ensures HighAgreement(cs, order) <==> exists r :: Agreed(cs, r)
    ensures HighAgreement(cs, order) ==> Agreed(cs, MostCommon(cs, order))
  {
    var best := MostCommon(cs, order);
    AgreementByCounting(cs, order);
    SumsAreOverSupporters(cs, best);
    var n, m := |Supporters(cs, best)|, |cs|;
    assert 10.0 * n as real == (10 * n) as real && 7.0 * m as real == (7 * m) as real;
    assert HighAgreement(cs, order) <==> Agreed(cs, best);
    if r :| Agreed(cs, r) {
      SumsAreOverSupporters(cs, r);
      SupportedExactlyWhen(cs, r);
      assert r in order;
      EnumerationNonEmpty(order, cs);
      var j :| 0 <= j < |order| && order[j] == r;
      assert VoteCounts(cs)(order[j]) <= VoteCounts(cs)(order[FirstMax(order, VoteCounts(cs))]);
      assert |Supporters(cs, r)| as real <= |Supporters(cs, best)| as real;
    }
  }

  // ---------- The weighted vote ----------

  /** `r` is recommended before `s` is. */
  ghost predicate AppearsBefore(cs: seq<Contribution>, r: string, s: string) {
    exists p :: 0 <= p < |cs| && cs[p].recommendation == r && forall q :: 0 <= q <= p ==> cs[q].recommendation != s
  }

  lemma {:induction false} FirstSeenInOrder(cs: seq<Contribution>, i: nat, j: nat)
    requires i < j < |FirstSeen(cs)|
    ensures AppearsBefore(cs, FirstSeen(cs)[i], FirstSeen(cs)[j])
  {
    var front, last := cs[..|cs| - 1], cs[|cs| - 1];
    var before, r, s := FirstSeen(front), FirstSeen(cs)[i], FirstSeen(cs)[j];
    if j < |before| {
      FirstSeenInOrder(front, i, j);
      var p :| 0 <= p < |front| && front[p].recommendation == r
               && forall q :: 0 <= q <= p ==> front[q].recommendation != s;
      assert forall q :: 0 <= q <= p ==> cs[q] == front[q];
    } else {
      assert r in before && s !in before;
      var c :| c in front && c.recommendation == r;
      var p :| 0 <= p < |front| && front[p] == c;
      assert forall q :: 0 <= q <= p ==> cs[q] == front[q] && cs[q] in front;
    }
  }

  /** `r` outweighs every other recommendation, or weighs as much and appears first. */
  ghost predicate WinsVote(cs: seq<Contribution>, r: string) {
    && r in Recommendations(cs)
    && forall s :: s in Recommendations(cs) && s != r ==> Outvotes(cs, r, s)
  }

  ghost predicate Outvotes(cs: seq<Contribution>, r: string, s: string) {
    var a, b := TotalWeight(Supporters(cs, r)), TotalWeight(Supporters(cs, s));
    a > b || (a == b && AppearsBefore(cs, r, s))
  }

  lemma {:induction false} WeightedWinnerWins(cs: seq<Contribution>)
    requires cs != []
    ensures WinsVote(cs, WeightedWinner(cs))
  {
    var order, w := FirstSeen(cs), WeightedWinner(cs);
    EnumerationNonEmpty(order, cs);
    var i := FirstMax(order, Weights(cs));
    forall s | s in Recommendations(cs) && s != w
      ensures Outvotes(cs, w, s)
    {
      assert s in order;
      var j :| 0 <= j < |order| && order[j] == s;
      assert Weights(cs)(order[j]) <= Weights(cs)(order[i]);
      assert j < i ==> Weights(cs)(order[j]) < Weights(cs)(order[i]);
      SumsAreOverSupporters(cs, s);
      SumsAreOverSupporters(cs, w);
      if i < j {
        FirstSeenInOrder(cs, i, j);
      }
    }
  }

  // ---------- The decision ----------

  /** `confidence` is the average of the supporters' confidences. */
  ghost predicate IsAverage(cs: seq<Contribution>, r: string, confidence: real) {
    confidence * |Supporters(cs, r)| as real == TotalConfidence(Supporters(cs, r))
  }

  lemma {:induction false} AverageMeans(cs: seq<Contribution>, r: string)
    requires r in Recommendations(cs)
    ensures IsAverage(cs, r, AverageConfidence(cs, r))
  {
    VotesMeans(cs, r);
    SumsAreOverSupporters(cs, r);
    var total, votes := SumOf(cs, Confidence(r)), SumOf(cs, Votes(r));
    assert total / votes * votes == total;
  }

  predicate CriticalKind(kind: string) {
    kind == "emergency_stop" || kind == "risk_breach" || kind == "system_failure"
  }

  predicate HighKind(kind: string) {
    kind == "large_trade" || kind == "portfolio_rebalance" || kind == "strategy_change"
  }

  ghost predicate PriorityFits(kind: string, confidence: real, p: Priority) {
    && (p == Critical <==> CriticalKind(kind))
    && (p == High <==> !CriticalKind(kind) && (HighKind(kind) || confidence < 0.5))
  }

  lemma {:induction false} PriorityMeans(kind: string, confidence: real)
    ensures PriorityFits(kind, confidence, PriorityOf(kind, confidence))
  {
  }

  /** A decision is refused exactly for too few contributions.  It is a consensus exactly when at least seventy
      percent of the contributions agree, and then on what those recommend; otherwise it is what wins the vote.
      Its confidence is the average of those who recommend it, its priority that of its kind, raised where the
      confidence is below a half. */
  lemma {:induction false} AggregateMeans(kind: string, quorum: int, cs: seq<Contribution>, order1: seq<string>,
                                          order2: seq<string>)
    requires quorum >= 1 && Enumerates(order1, cs) && Enumerates(order2, cs)
    ensures var d := Aggregate(kind, quorum, cs, order1, order2);
            && (d.how == QuorumFailed <==> |cs| < quorum)
            && (d.how == QuorumFailed ==> d.final == "QUORUM_FAILED" && d.confidence == 0.0 && d.priority == Critical)
            && (d.how == Consensus <==> |cs| >= quorum && exists r :: Agreed(cs, r))
            && (d.how == Consensus ==> Agreed(cs, d.final))
            && (d.how == WeightedVoting ==> WinsVote(cs, d.final))
            && (d.how != QuorumFailed ==>
                  d.final in Recommendations(cs) && IsAverage(cs, d.final, d.confidence)
                  && PriorityFits(kind, d.confidence, d.priority))
  {
    if |cs| >= quorum {
      var d := Aggregate(kind, quorum, cs, order1, order2);
      HighAgreementMeans(cs, order1);
      HighAgreementMeans(cs, order2);
      WeightedWinnerWins(cs);
      AverageMeans(cs, d.final);
      PriorityMeans(kind, d.confidence);
    }
  }

  /** A missed quorum is one failure to the tracker, of the first asset and timeframe, with the contributors as
      those available and the quorum as what was required. */
  lemma {:induction false} MissedQuorumIsOneFailure(cfg: Tracking.Config, s: Tracking.State, kind: string,
                                                    cs: seq<Contribution>, assets: seq<string>,
                                                    timeframes: seq<string>, quorum: int, now: real,
                                                    agents: seq<string>)
    requires |agents| == |cs| && forall i :: 0 <= i < |cs| ==> agents[i] == cs[i].agent
    ensures var asset := if assets == [] then "unknown" else assets[0];
            var timeframe := if timeframes == [] then "unknown" else timeframes[0];
            MissedQuorum(cfg, s, kind, cs, assets, timeframes, quorum, now)
            == Tracking.Step(cfg, s, Tracking.Fail(Tracking.MakeKey(asset, timeframe, kind), agents, quorum, now))
  {
    assert Agents(cs) == agents;
  }
}
