/** The topological sort itself: in-degrees, the queue and the length test. */
module WorkflowSorts {
  import opened Recency
  import opened Sequences
  import opened WorkflowGraphs
  import opened WorkflowQueues

  // ---------- In-degrees ----------

  /** How often `v` occurs in `s` (parallel edges count separately). */
  function Occurrences(s: seq<NodeId>, v: NodeId): nat {
    if s == [] then 0 else
    Occurrences(s[..|s| - 1], v) + if s[|s| - 1] == v then 1 else 0
  }

  lemma {:induction false} OccurrencesBasics(s: seq<NodeId>, n: nat, v: NodeId)
    requires n <= |s|
    ensures Occurrences(s[..n], v) <= Occurrences(s, v)
    ensures Occurrences(s, v) > 0 <==> v in s
    decreases |s|
  {
    if s != [] {
      var front := s[..|s| - 1];
      assert s == front + [s[|s| - 1]];
      if n < |s| {
        OccurrencesBasics(front, n, v);
        assert front[..n] == s[..n];
      } else {
        OccurrencesBasics(front, |front|, v);
        assert s[..n] == s;
      }
    }
  }

  /** Edges into `v` whose source is among `froms` but not in `done`. */
  function Incoming(g: Graph, froms: seq<NodeId>, done: seq<NodeId>, v: NodeId): nat {
    if froms == [] then 0 else
    var u := froms[|froms| - 1];
    Incoming(g, froms[..|froms| - 1], done, v) + if u in done then 0 else Occurrences(g.Targets(u), v)
  }

  lemma {:induction false} IncomingZero(g: Graph, froms: seq<NodeId>, done: seq<NodeId>, v: NodeId)
    ensures Incoming(g, froms, done, v) == 0 <==> forall u :: u in froms && g.Edge(u, v) ==> u in done
  {
    if froms != [] {
      var front, u := froms[..|froms| - 1], froms[|froms| - 1];
      IncomingZero(g, front, done, v);
      OccurrencesBasics(g.Targets(u), 0, v);
      assert froms == front + [u];
    }
  }

  lemma {:induction false} IncomingAfter(g: Graph, froms: seq<NodeId>, done: seq<NodeId>, u: NodeId, v: NodeId)
    requires Distinct(froms) && u !in done
    ensures Incoming(g, froms, done + [u], v)
            == Incoming(g, froms, done, v) - if u in froms then Occurrences(g.Targets(u), v) else 0
  {
    if froms != [] {
      IncomingAfter(g, froms[..|froms| - 1], done, u, v);
      assert froms == froms[..|froms| - 1] + [froms[|froms| - 1]];
    }
  }

  /** `in_degree.get(v, 0)`. */
  function Get(m: map<NodeId, int>, v: NodeId): int {
    if v in m then m[v] else 0
  }

  // ---------- The sort ----------

  /** Count the edges to the successors of one source. */
  method CountEdges(successors: seq<NodeId>, before: map<NodeId, int>) returns (inDegree: map<NodeId, int>)
    ensures forall v :: v in inDegree <==> v in before || v in successors
    ensures forall v :: Get(inDegree, v) == Get(before, v) + Occurrences(successors, v)
  {
    inDegree := before;
    for j := 0 to |successors|
      invariant forall v :: v in inDegree <==> v in before || v in successors[..j]
      invariant forall v :: Get(inDegree, v) == Get(before, v) + Occurrences(successors[..j], v)
    {
      var neighbor := successors[j];
      inDegree := inDegree[neighbor := Get(inDegree, neighbor) + 1];
      assert successors[..j + 1][..j] == successors[..j];
    }
    assert successors[..|successors|] == successors;
  }

  method CountInDegrees(g: Graph) returns (inDegree: map<NodeId, int>)
    requires g.WellFormed()
    ensures forall n :: n in g.nodes ==> n in inDegree
    ensures forall u, v :: g.Edge(u, v) ==> v in inDegree
    ensures forall v :: Get(inDegree, v) == Incoming(g, g.sources, [], v)
  {
    inDegree := map n | n in g.nodes :: 0;
    for i := 0 to |g.sources|
      invariant forall n :: n in g.nodes ==> n in inDegree
      invariant forall u, v :: u in g.sources[..i] && g.Edge(u, v) ==> v in inDegree
      invariant forall v :: Get(inDegree, v) == Incoming(g, g.sources[..i], [], v)
    {
      inDegree := CountEdges(g.targets[g.sources[i]], inDegree);
      assert g.sources[..i + 1][..i] == g.sources[..i];
    }
    assert g.sources[..|g.sources|] == g.sources;
  }

  /** Without anything listed, the in-degree of a vertex is zero exactly when it has no predecessor. */
  lemma {:induction false} NoneIncoming(g: Graph, v: NodeId)
    requires g.WellFormed()
    ensures Incoming(g, g.sources, [], v) == 0 <==> !HasPredecessor(g, v)
  {
    IncomingZero(g, g.sources, [], v);
    assert forall u :: g.Edge(u, v) ==> u in g.sources;
  }

  method InitialQueue(g: Graph, inDegree: map<NodeId, int>) returns (queue: seq<NodeId>)
    requires g.WellFormed() && forall n :: n in g.nodes ==> n in inDegree
    requires forall v :: Get(inDegree, v) == Incoming(g, g.sources, [], v)
    ensures queue == Roots(g)
  {
    queue := [];
    for i := 0 to |g.nodes|
      invariant queue == Filter(g.nodes[..i], WithoutPredecessors(g))
    {
      assert g.nodes[..i + 1][..i] == g.nodes[..i];
      NoneIncoming(g, g.nodes[i]);
      if inDegree[g.nodes[i]] == 0 {
        queue := queue + [g.nodes[i]];
      }
    }
    assert g.nodes[..|g.nodes|] == g.nodes;
  }

  function CountedDown(inDegree: map<NodeId, int>): NodeId -> bool {
    v => Get(inDegree, v) == 0
  }

  /** The counts can be lowered by every edge of the list. */
  ghost predicate Covers(inDegree: map<NodeId, int>, successors: seq<NodeId>) {
    forall v :: v in successors ==> v in inDegree && inDegree[v] >= Occurrences(successors, v)
  }

  /** Counting one more edge moves its target, if it is the last one, to the end of those counted down. */
  lemma {:induction false} CountingQueues(counted: seq<NodeId>, x: NodeId, before: map<NodeId, int>)
    requires x in before && before[x] > 0
    ensures var after := before[x := before[x] - 1];
            Filter(LastUses(counted + [x]), CountedDown(after))
            == Filter(LastUses(counted), CountedDown(before)) + if after[x] == 0 then [x] else []
  {
    var after, last := before[x := before[x] - 1], LastUses(counted);
    assert (counted + [x])[..|counted|] == counted;
    FilterConcat(Without(last, x), [x], CountedDown(after));
    FilterTwice(last, Other(x), CountedDown(after), CountedDown(before));
    FilterSingle(x, CountedDown(after));
  }

  lemma {:induction false} OneMoreCounted(successors: seq<NodeId>, j: nat, inDegree: map<NodeId, int>,
                                          before: map<NodeId, int>, after: map<NodeId, int>, v: NodeId)
    requires j < |successors| && successors[j] in before
    requires after == before[successors[j] := before[successors[j]] - 1]
    requires Get(before, v) == Get(inDegree, v) - Occurrences(successors[..j], v)
    ensures Get(after, v) == Get(inDegree, v) - Occurrences(successors[..j + 1], v)
  {
    assert successors[..j + 1][..j] == successors[..j];
  }

  /** After the first `j` edges from a node: the counts are lowered by them, and what they counted down
      is at the end of the queue. */
  ghost predicate Counting(successors: seq<NodeId>, j: nat, inDegree: map<NodeId, int>, waiting: seq<NodeId>,
                           inDegree': map<NodeId, int>, waiting': seq<NodeId>)
    requires j <= |successors|
  {
    && inDegree'.Keys == inDegree.Keys
    && (forall v :: Get(inDegree', v) == Get(inDegree, v) - Occurrences(successors[..j], v))
    && waiting' == waiting + Filter(LastUses(successors[..j]), CountedDown(inDegree'))
  }

  lemma {:induction false} CountingStep(successors: seq<NodeId>, j: nat, inDegree: map<NodeId, int>,
                                        waiting: seq<NodeId>, inDegree': map<NodeId, int>, waiting': seq<NodeId>)
    requires j < |successors| && Counting(successors, j, inDegree, waiting, inDegree', waiting')
    requires successors[j] in inDegree' && inDegree'[successors[j]] > 0
    ensures var after := inDegree'[successors[j] := inDegree'[successors[j]] - 1];
            Counting(successors, j + 1, inDegree, waiting, after,
                     waiting' + if after[successors[j]] == 0 then [successors[j]] else [])
  {
    var after := inDegree'[successors[j] := inDegree'[successors[j]] - 1];
    CountingQueues(successors[..j], successors[j], inDegree');
    assert successors[..j + 1] == successors[..j] + [successors[j]];
    forall v
      ensures Get(after, v) == Get(inDegree, v) - Occurrences(successors[..j + 1], v)
    {
      OneMoreCounted(successors, j, inDegree, inDegree', after, v);
    }
  }

  /** Counted down to zero is ready, for a successor of what was just listed. */
  lemma {:induction false} CountedDownIsReady(g: Graph, inDegree: map<NodeId, int>, listed: seq<NodeId>, node: NodeId)
    requires g.WellFormed()
    requires forall v :: Get(inDegree, v) == Incoming(g, g.sources, listed + [node], v)
    ensures Filter(LastUses(g.Targets(node)), CountedDown(inDegree)) == Released(g, listed, node)
  {
    var last := LastUses(g.Targets(node));
    LastUsesMembers(g.Targets(node));
    forall v | v in last
      ensures CountedDown(inDegree)(v) == ReadyAfter(g, listed + [node])(v)
    {
      assert g.Edge(node, v);
      IncomingZero(g, g.sources, listed + [node], v);
      assert forall u :: g.Edge(u, v) ==> u in g.sources;
    }
    FilterSame(last, CountedDown(inDegree), ReadyAfter(g, listed + [node]));
  }

  /** The in-degrees count the edges from what is not yet listed. */
  ghost predicate CountsUnlisted(g: Graph, listed: seq<NodeId>, inDegree: map<NodeId, int>) {
    && (forall v :: Get(inDegree, v) == Incoming(g, g.sources, listed, v))
    && (forall u, v :: g.Edge(u, v) ==> v in inDegree)
  }

  lemma {:induction false} UnlistedCovers(g: Graph, listed: seq<NodeId>, node: NodeId, inDegree: map<NodeId, int>)
    requires g.WellFormed() && node !in listed && CountsUnlisted(g, listed, inDegree)
    ensures Covers(inDegree, g.Targets(node))
  {
    forall v | v in g.Targets(node)
      ensures v in inDegree && inDegree[v] >= Occurrences(g.Targets(node), v)
    {
      assert g.Edge(node, v);
      IncomingAfter(g, g.sources, listed, node, v);
    }
  }

  lemma {:induction false} CountedReleases(g: Graph, node: NodeId, listed: seq<NodeId>, inDegree: map<NodeId, int>,
                                           inDegree': map<NodeId, int>)
    requires g.WellFormed() && node !in listed && CountsUnlisted(g, listed, inDegree)
    requires inDegree'.Keys == inDegree.Keys
    requires forall v :: Get(inDegree', v) == Get(inDegree, v) - Occurrences(g.Targets(node), v)
    ensures CountsUnlisted(g, listed + [node], inDegree')
    ensures Filter(LastUses(g.Targets(node)), CountedDown(inDegree')) == Released(g, listed, node)
  {
    forall v
      ensures Get(inDegree', v) == Incoming(g, g.sources, listed + [node], v)
    {
      IncomingAfter(g, g.sources, listed, node, v);
    }
    CountedDownIsReady(g, inDegree', listed, node);
  }

  /** Lower the counts of the successors, queueing those that reach zero. */
  method CountDown(successors: seq<NodeId>, inDegree: map<NodeId, int>, waiting: seq<NodeId>)
    returns (inDegree': map<NodeId, int>, waiting': seq<NodeId>)
    requires Covers(inDegree, successors)
    ensures inDegree'.Keys == inDegree.Keys
    ensures forall v :: Get(inDegree', v) == Get(inDegree, v) - Occurrences(successors, v)
    ensures waiting' == waiting + Filter(LastUses(successors), CountedDown(inDegree'))
  {
    inDegree', waiting' := inDegree, waiting;
    for j := 0 to |successors|
      invariant Counting(successors, j, inDegree, waiting, inDegree', waiting')
    {
      var neighbor := successors[j];
      OneMoreOccurs(successors, j);
      CountingStep(successors, j, inDegree, waiting, inDegree', waiting');
      inDegree' := inDegree'[neighbor := inDegree'[neighbor] - 1];
      if inDegree'[neighbor] == 0 {
        waiting' := waiting' + [neighbor];
      }
    }
    assert successors[..|successors|] == successors;
  }

  lemma {:induction false} OneMoreOccurs(successors: seq<NodeId>, j: nat)
    requires j < |successors|
    ensures Occurrences(successors[..j], successors[j]) < Occurrences(successors, successors[j])
  {
    assert successors[..j + 1][..j] == successors[..j];
    OccurrencesBasics(successors, j + 1, successors[j]);
  }

  /** What listing `node` does to the in-degrees and to the queue. */
  method Release(g: Graph, node: NodeId, inDegree: map<NodeId, int>, waiting: seq<NodeId>, ghost listed: seq<NodeId>)
    returns (inDegree': map<NodeId, int>, waiting': seq<NodeId>)
    requires g.WellFormed() && node !in listed
    requires CountsUnlisted(g, listed, inDegree)
    ensures CountsUnlisted(g, listed + [node], inDegree')
    ensures waiting' == waiting + Released(g, listed, node)
  {
    UnlistedCovers(g, listed, node, inDegree);
    inDegree', waiting' := CountDown(g.Targets(node), inDegree, waiting);
    CountedReleases(g, node, listed, inDegree, inDegree');
  }

  /** The work list of Kahn's algorithm, run to its end, first in, first out. */
  method ListReadyNodes(g: Graph) returns (listed: seq<NodeId>)
    requires g.WellFormed()
    ensures listed == Kahn(g)
    ensures KahnList(g, listed) && Queued(g, listed)
  {
    var inDegree := CountInDegrees(g);
    var queue := InitialQueue(g, inDegree);
    listed := [];
    while queue != []
      invariant Work(listed, queue) == After(g, |listed|)
      invariant CountsUnlisted(g, listed, inDegree)
      decreases |Vertices(g)| - |listed|
    {
      var node := queue[0];
      LoopStep(g, listed, queue);
      inDegree, queue := Release(g, node, inDegree, queue[1..], listed);
      listed := listed + [node];
    }
    ListIsComplete(g, listed);
  }

  lemma {:induction false} ListIsComplete(g: Graph, listed: seq<NodeId>)
    requires g.WellFormed() && Work(listed, []) == After(g, |listed|)
    ensures listed == Kahn(g) && KahnList(g, listed) && Queued(g, listed)
  {
    EmptyQueueEnds(g, |listed|);
    KahnIsComplete(g);
    KahnIsQueued(g);
  }

  /** The sort terminates on every graph.  It returns a permutation of the nodes with every edge
      pointing forward exactly when the graph is admissible and acyclic; and on an admissible graph
      it returns the empty list exactly for an empty workflow or one with a cycle. */
  method TopologicalSort(g: Graph) returns (order: seq<NodeId>)
    requires g.WellFormed()
    ensures order == Answer(g, Kahn(g)) && Distinct(order)
    ensures Admissible(g) ==> (order == [] <==> g.nodes == [] || HasCycle(g))
    ensures TopologicalOrder(g, order) <==> Admissible(g) && !HasCycle(g)
  {
    var result := ListReadyNodes(g);
    OrderExactlyWhenAdmissibleAndAcyclic(g, result);
    if Admissible(g) {
      EmptyAnswerExactlyOnCycle(g, result);
    }
    if |result| != |g.nodes| {
      return [];
    }
    return result;
  }
}
