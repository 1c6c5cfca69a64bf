/** The explainability tracker: a bounded list of decisions with an index by agent. */
module DecisionIndexes {
  import opened Sequences

  datatype Reasoning = Reasoning(id: string, agent: string, decision: string, confidence: real, reason: string)

  datatype Index = Index(decisions: seq<Reasoning>, byAgent: map<string, seq<Reasoning>>) {
    /** `_decisions_by_agent.get(agent, [])`. */
    function Of(agent: string): seq<Reasoning> {
      if agent in byAgent then byAgent[agent] else []
    }
  }

  const EMPTY := Index([], map[])

  /** Python's `list.remove`: the first entry equal to `x` goes. */
  function RemoveFirst(s: seq<Reasoning>, x: Reasoning): seq<Reasoning> {
    if s == [] then [] else if s[0] == x then s[1..] else [s[0]] + RemoveFirst(s[1..], x)
  }

  function Recorded(maxHistory: int, ix: Index, r: Reasoning): Index {
    var decisions := ix.decisions + [r];
    var byAgent := ix.byAgent[r.agent := ix.Of(r.agent) + [r]];
    if |decisions| <= maxHistory then Index(decisions, byAgent) else
    var oldest := decisions[0];
    var list := if oldest.agent in byAgent then byAgent[oldest.agent] else [];
    Index(decisions[1..], if oldest in list then byAgent[oldest.agent := RemoveFirst(list, oldest)] else byAgent)
  }

  function Run(maxHistory: int, rs: seq<Reasoning>): Index {
    if rs == [] then EMPTY else Recorded(maxHistory, Run(maxHistory, rs[..|rs| - 1]), rs[|rs| - 1])
  }

  function By(agent: string): Reasoning -> bool {
    (r: Reasoning) => r.agent == agent
  }

  ghost predicate Agrees(ix: Index) {
    forall a {:trigger ix.Of(a)} :: ix.Of(a) == Filter(ix.decisions, By(a))
  }

  lemma {:induction false} FilterHead(s: seq<Reasoning>, keep: Reasoning -> bool)
    requires s != []
    ensures Filter(s, keep) == (if keep(s[0]) then [s[0]] else []) + Filter(s[1..], keep)
  {
    assert s == [s[0]] + s[1..];
    FilterConcat([s[0]], s[1..], keep);
    assert [s[0]][..0] == [];
  }

  /** What both lists are after the append: the index still agrees. */
  lemma {:induction false} AppendKeepsAgreement(ix: Index, r: Reasoning)
    requires Agrees(ix)
    ensures Agrees(Index(ix.decisions + [r], ix.byAgent[r.agent := ix.Of(r.agent) + [r]]))
  {
    var all, t := ix.decisions + [r], Index(ix.decisions + [r], ix.byAgent[r.agent := ix.Of(r.agent) + [r]]);
    assert all[..|ix.decisions|] == ix.decisions;
    forall a
      ensures t.Of(a) == Filter(all, By(a))
    {
      assert ix.Of(a) == Filter(ix.decisions, By(a));
    }
  }

  /** Removing by equality takes the right entry even among duplicates: the oldest decision is the
      first of its agent's list. */
  lemma {:induction false} DropKeepsAgreement(ix: Index)
    requires Agrees(ix) && ix.decisions != []
    ensures var oldest := ix.decisions[0];
            && oldest in ix.Of(oldest.agent)
            && Agrees(Index(ix.decisions[1..], ix.byAgent[oldest.agent := RemoveFirst(ix.Of(oldest.agent), oldest)]))
  {
    var oldest := ix.decisions[0];
    var t := Index(ix.decisions[1..], ix.byAgent[oldest.agent := RemoveFirst(ix.Of(oldest.agent), oldest)]);
    FilterHead(ix.decisions, By(oldest.agent));
    assert ix.Of(oldest.agent) == [oldest] + Filter(t.decisions, By(oldest.agent));
    forall a
      ensures t.Of(a) == Filter(t.decisions, By(a))
    {
      FilterHead(ix.decisions, By(a));
      assert ix.Of(a) == Filter(ix.decisions, By(a));
    }
  }

  lemma {:induction false} RecordKeepsAgreement(maxHistory: int, ix: Index, r: Reasoning)
    requires Agrees(ix)
    ensures Agrees(Recorded(maxHistory, ix, r))
  {
    var t := Index(ix.decisions + [r], ix.byAgent[r.agent := ix.Of(r.agent) + [r]]);
    AppendKeepsAgreement(ix, r);
    DropKeepsAgreement(t);
    if |t.decisions| <= maxHistory {
      assert Recorded(maxHistory, ix, r) == t;
    } else {
      var oldest := t.decisions[0];
      assert Recorded(maxHistory, ix, r)
             == Index(t.decisions[1..], t.byAgent[oldest.agent := RemoveFirst(t.Of(oldest.agent), oldest)]);
    }
  }

  lemma {:induction false} RunAgrees(maxHistory: int, rs: seq<Reasoning>)
    ensures Agrees(Run(maxHistory, rs))
  {
    if rs != [] {
      RunAgrees(maxHistory, rs[..|rs| - 1]);
      RecordKeepsAgreement(maxHistory, Run(maxHistory, rs[..|rs| - 1]), rs[|rs| - 1]);
    }
  }

  lemma {:induction false} RecordedDecisions(maxHistory: int, ix: Index, r: Reasoning)
    ensures var all := ix.decisions + [r];
            Recorded(maxHistory, ix, r).decisions == if |all| <= maxHistory then all else all[1..]
  {
  }

  lemma {:induction false} RunKeepsTheLast(maxHistory: int, rs: seq<Reasoning>)
    ensures Run(maxHistory, rs).decisions == Suffix(rs, Max(0, maxHistory))
  {
    if rs != [] {
      var front, r := rs[..|rs| - 1], rs[|rs| - 1];
      RunKeepsTheLast(maxHistory, front);
      RecordedDecisions(maxHistory, Run(maxHistory, front), r);
      assert rs == front + [r];
      SuffixOfSuffix(front, r, Max(0, maxHistory));
    }
  }

  /** In every reachable state each agent's list is the filter of the global list by that agent,
      and the global list is the last `maxHistory` decisions recorded. */
  lemma {:induction false} IndexMatchesHistory(maxHistory: int, rs: seq<Reasoning>)
    ensures Agrees(Run(maxHistory, rs))
    ensures Run(maxHistory, rs).decisions == Suffix(rs, Max(0, maxHistory))
  {
    RunAgrees(maxHistory, rs);
    RunKeepsTheLast(maxHistory, rs);
  }

  /** So a query by agent answers as scanning the global list would, for every limit; a limit of
      zero returns everything, as Python's slice does. */
  lemma {:induction false} AgentQueryScans(maxHistory: int, rs: seq<Reasoning>, agent: string, limit: int)
    ensures SliceFromEnd(Run(maxHistory, rs).Of(agent), limit)
            == SliceFromEnd(Filter(Suffix(rs, Max(0, maxHistory)), By(agent)), limit)
  {
    IndexMatchesHistory(maxHistory, rs);
  }

  /** That is the end of the scan: of the length asked for, or all of it where that is zero or too much; a negative
      limit leaves out as many at the start. */
  lemma {:induction false} AgentQueryMeans(maxHistory: int, rs: seq<Reasoning>, agent: string, limit: int)
    ensures var scan := Filter(Suffix(rs, Max(0, maxHistory)), By(agent));
            var answer := SliceFromEnd(Run(maxHistory, rs).Of(agent), limit);
            && |answer| <= |scan| && answer == scan[|scan| - |answer|..]
            && (limit == 0 ==> answer == scan)
            && (limit > 0 ==> |answer| == if limit <= |scan| then limit else |scan|)
            && (limit < 0 ==> |answer| == if -limit <= |scan| then |scan| + limit else 0)
  {
    AgentQueryScans(maxHistory, rs, agent, limit);
  }

  class ExplainabilityTracker {
    const maxHistory: int
    var decisions: seq<Reasoning>
    var byAgent: map<string, seq<Reasoning>>

    function View(): Index
      reads this
    {
      Index(decisions, byAgent)
    }

    ghost predicate Valid()
      reads this
    {
      Agrees(View())
    }

    constructor (maxHistory: int)
      ensures Valid() && View() == EMPTY && this.maxHistory == maxHistory
    {
      this.maxHistory := maxHistory;
      decisions, byAgent := [], map[];
    }

    method RecordDecision(r: Reasoning)
      requires Valid()
      modifies this
      ensures Valid()
      ensures View() == Recorded(maxHistory, old(View()), r)
    {
      decisions := decisions + [r];
      if r.agent !in byAgent {
        byAgent := byAgent[r.agent := []];
      }
      byAgent := byAgent[r.agent := byAgent[r.agent] + [r]];
      if |decisions| > maxHistory {
        var oldest := decisions[0];
        decisions := decisions[1..];
        var list := if oldest.agent in byAgent then byAgent[oldest.agent] else [];
        if oldest in list {
          byAgent := byAgent[oldest.agent := RemoveFirst(list, oldest)];
        }
      }
      RecordKeepsAgreement(maxHistory, old(View()), r);
      assert byAgent == Recorded(maxHistory, old(View()), r).byAgent;
    }

    method GetAgentDecisions(agent: string, limit: int) returns (r: seq<Reasoning>)
      requires Valid()
      ensures r == SliceFromEnd(Filter(decisions, By(agent)), limit)
    {
      var list := View().Of(agent);
      r := SliceFromEnd(list, limit);
    }
  }
}
