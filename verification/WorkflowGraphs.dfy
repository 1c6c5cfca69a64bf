/** The agent workflow graph and its topological sort (Kahn's algorithm). */
module WorkflowGraphs {
  import opened Sequences

  datatype NodeId = NodeId(name: string)

  /** The two dictionaries of a workflow: registered nodes in insertion order, the keys
      of the adjacency dictionary in insertion order, and the adjacency lists themselves.
      An edge may name identifiers that were never registered. */
  datatype Graph = Graph(nodes: seq<NodeId>, sources: seq<NodeId>, targets: map<NodeId, seq<NodeId>>) {
    ghost predicate WellFormed() {
      && Distinct(nodes)
      && Distinct(sources)
      && forall u :: u in sources <==> u in targets
    }

    function Targets(u: NodeId): seq<NodeId> {
      if u in targets then targets[u] else []
    }

    predicate Edge(u: NodeId, v: NodeId) {
      v in Targets(u)
    }
  }

  // ---------- What a correct answer is ----------

  /** Every node exactly once, and every edge points forward. */
  ghost predicate TopologicalOrder(g: Graph, order: seq<NodeId>) {
    && Distinct(order)
    && Elements(order) == Elements(g.nodes)
    && forall i, j :: 0 <= i < |order| && 0 <= j < |order| && g.Edge(order[i], order[j]) ==> i < j
  }

  /** Step `i` of the walk `p` follows an edge. */
  ghost predicate Link(g: Graph, p: seq<NodeId>, i: nat)
    requires i < |p| - 1
  {
    g.Edge(p[i], p[i + 1])
  }

  ghost predicate Path(g: Graph, p: seq<NodeId>) {
    forall i :: 0 <= i < |p| - 1 ==> Link(g, p, i)
  }

  ghost predicate Cycle(g: Graph, p: seq<NodeId>) {
    && |p| >= 2
    && p[0] == p[|p| - 1]
    && p[0] in g.nodes
    && Path(g, p)
  }

  ghost predicate HasCycle(g: Graph) {
    exists p :: Cycle(g, p)
  }

  ghost predicate HasPredecessor(g: Graph, v: NodeId) {
    exists u :: g.Edge(u, v)
  }

  ghost function EdgeTargets(g: Graph): set<NodeId> {
    set u, v | u in g.targets && v in g.targets[u] :: v
  }

  ghost predicate HasUnregisteredPredecessor(g: Graph, v: NodeId) {
    exists u :: g.Edge(u, v) && u !in g.nodes
  }

  /** No registered node has an unregistered predecessor, and an unregistered target always has
      one.  In particular this holds when every edge endpoint is registered. */
  ghost predicate Admissible(g: Graph) {
    && (forall v :: v in g.nodes ==> !HasUnregisteredPredecessor(g, v))
    && (forall v {:trigger HasPredecessor(g, v)} ::
          v !in g.nodes && HasPredecessor(g, v) ==> HasUnregisteredPredecessor(g, v))
  }

  // ---------- What the loop lists ----------

  /** `v` may be listed once the vertices of `done` are listed. */
  ghost predicate Ready(g: Graph, v: NodeId, done: seq<NodeId>) {
    if HasPredecessor(g, v) then forall u {:trigger g.Edge(u, v)} :: g.Edge(u, v) ==> u in done else v in g.nodes
  }

  /** Each entry was ready when it was listed. */
  ghost predicate Justified(g: Graph, listed: seq<NodeId>) {
    forall i {:trigger listed[..i]} :: 0 <= i < |listed| ==> Ready(g, listed[i], listed[..i])
  }

  lemma {:induction false} JustifiedAppend(g: Graph, listed: seq<NodeId>, v: NodeId)
    requires Justified(g, listed) && Ready(g, v, listed)
    ensures Justified(g, listed + [v])
  {
    forall i | 0 <= i < |listed + [v]|
      ensures Ready(g, (listed + [v])[i], (listed + [v])[..i])
    {
      assert (listed + [v])[..i] == listed[..i];
      assert listed[..|listed|] == listed;
    }
  }

  /** A complete run of the work list: no repetitions, each entry ready when it is
      listed, and nothing ready is left out. */
  ghost predicate KahnList(g: Graph, listed: seq<NodeId>) {
    && Distinct(listed)
    && Justified(g, listed)
    && (forall v {:trigger Ready(g, v, listed)} :: Ready(g, v, listed) ==> v in listed)
  }

  /** The length test at the end of the sort. */
  function Answer(g: Graph, listed: seq<NodeId>): seq<NodeId> {
    if |listed| != |g.nodes| then [] else listed
  }

  // ---------- Properties of the list, for every graph ----------

  lemma {:induction false} ListedStaysListed(g: Graph, a: seq<NodeId>, b: seq<NodeId>, n: nat)
    requires KahnList(g, a) && KahnList(g, b)
    requires n <= |a|
    ensures forall i :: 0 <= i < n ==> a[i] in b
  {
    if n > 0 {
      ListedStaysListed(g, a, b, n - 1);
      assert Ready(g, a[n - 1], a[..n - 1]);
      assert Ready(g, a[n - 1], b);
    }
  }

  /** The queue discipline does not matter: all complete runs list the same vertices,
      so the length test has one outcome for a graph. */
  lemma {:induction false} ListedVerticesAreDetermined(g: Graph, a: seq<NodeId>, b: seq<NodeId>)
    requires KahnList(g, a) && KahnList(g, b)
    ensures Elements(a) == Elements(b) && |a| == |b|
  {
    ListedStaysListed(g, a, b, |a|);
    ListedStaysListed(g, b, a, |b|);
    DistinctCardinality(a);
    DistinctCardinality(b);
  }

  /** On any graph at all, the returned list orders the registered nodes exactly when
      the vertices listed are the registered ones. */
  lemma {:induction false} AnswerIsAnOrderExactlyWhenNodesListed(g: Graph, listed: seq<NodeId>)
    requires g.WellFormed() && KahnList(g, listed)
    ensures TopologicalOrder(g, Answer(g, listed)) <==> Elements(listed) == Elements(g.nodes)
  {
    DistinctCardinality(listed);
    DistinctCardinality(g.nodes);
    assert listed != [] ==> Ready(g, listed[0], listed[..0]);
    if Elements(listed) == Elements(g.nodes) {
      forall i, j | 0 <= i < |listed| && 0 <= j < |listed| && g.Edge(listed[i], listed[j])
        ensures i < j
      {
        assert Ready(g, listed[j], listed[..j]);
        assert listed[i] in listed[..j];
      }
    }
  }

  /** An admissible graph never lists an unregistered identifier. */
  lemma {:induction false} ListedAreRegistered(g: Graph, listed: seq<NodeId>, n: nat)
    requires Admissible(g) && KahnList(g, listed)
    requires n <= |listed|
    ensures forall i :: 0 <= i < n ==> listed[i] in g.nodes
  {
    if n > 0 {
      ListedAreRegistered(g, listed, n - 1);
      var v := listed[n - 1];
      assert Ready(g, v, listed[..n - 1]);
      if v !in g.nodes {
        assert false;
      }
    }
  }

  /** A vertex on a cycle is never listed: its predecessor would have to come first, for ever. */
  lemma {:induction false} CycleIsNeverListed(g: Graph, listed: seq<NodeId>, p: seq<NodeId>, n: nat)
    requires KahnList(g, listed)
    requires |p| >= 2 && p[0] == p[|p| - 1] && Path(g, p)
    requires n <= |listed|
    ensures forall k :: 0 <= k < |p| ==> p[k] !in listed[..n]
  {
    if n > 0 {
      CycleIsNeverListed(g, listed, p, n - 1);
      assert listed[..n] == listed[..n - 1] + [listed[n - 1]];
      forall k | 0 <= k < |p|
        ensures p[k] != listed[n - 1]
      {
        var pred := if k == 0 then p[|p| - 2] else p[k - 1];
        assert Link(g, p, if k == 0 then |p| - 2 else k - 1);
        assert g.Edge(pred, p[k]);
        assert Ready(g, listed[n - 1], listed[..n - 1]);
      }
    }
  }

  /** From a registered vertex that is not listed one can walk backwards for ever. */
  lemma {:induction false} BackwardWalk(g: Graph, listed: seq<NodeId>, v: NodeId, n: nat) returns (p: seq<NodeId>)
    requires Admissible(g) && KahnList(g, listed)
    requires v in g.nodes && v !in listed
    ensures |p| == n + 1 && Path(g, p)
    ensures forall k :: 0 <= k < |p| ==> p[k] in g.nodes && p[k] !in listed
  {
    if n == 0 {
      p := [v];
    } else {
      var q := BackwardWalk(g, listed, v, n - 1);
      assert !Ready(g, q[0], listed);
      var u :| g.Edge(u, q[0]) && u !in listed;
      assert !HasUnregisteredPredecessor(g, q[0]);
      p := [u] + q;
      forall i | 0 <= i < |p| - 1
        ensures Link(g, p, i)
      {
        assert i > 0 ==> Link(g, q, i - 1);
      }
    }
  }

  /** A long enough walk inside a finite node set closes a cycle. */
  lemma {:induction false} UnlistedNodeGivesCycle(g: Graph, listed: seq<NodeId>, v: NodeId)
    requires Admissible(g) && KahnList(g, listed)
    requires v in g.nodes && v !in listed
    ensures HasCycle(g)
  {
    var p := BackwardWalk(g, listed, v, |Elements(g.nodes)|);
    Pigeonhole(p, Elements(g.nodes));
    var i, j :| 0 <= i < j < |p| && p[i] == p[j];
    var c := p[i..j + 1];
    forall k | 0 <= k < |c| - 1
      ensures Link(g, c, k)
    {
      assert Link(g, p, i + k);
    }
    assert Cycle(g, c);
  }

  /** On an admissible graph the answer is the empty list exactly for an empty workflow or one
      with a cycle, and a topological order otherwise. */
  lemma {:induction false} EmptyAnswerExactlyOnCycle(g: Graph, listed: seq<NodeId>)
    requires g.WellFormed() && Admissible(g) && KahnList(g, listed)
    ensures Answer(g, listed) == [] <==> g.nodes == [] || HasCycle(g)
    ensures !HasCycle(g) ==> TopologicalOrder(g, Answer(g, listed))
  {
    ListedAreRegistered(g, listed, |listed|);
    DistinctCardinality(listed);
    DistinctCardinality(g.nodes);
    SubsetCardinality(Elements(listed), Elements(g.nodes));
    AnswerIsAnOrderExactlyWhenNodesListed(g, listed);
    if HasCycle(g) {
      var p :| Cycle(g, p);
      CycleIsNeverListed(g, listed, p, |listed|);
      assert listed[..|listed|] == listed;
      assert p[0] in Elements(g.nodes) && p[0] !in Elements(listed);
    } else {
      forall v | v in g.nodes
        ensures v in listed
      {
        if v !in listed {
          UnlistedNodeGivesCycle(g, listed, v);
        }
      }
      assert Elements(listed) == Elements(g.nodes);
    }
  }

  /** On every graph, whatever its edges name: the answer orders the registered nodes exactly when
      the graph is admissible and has no cycle. */
  lemma {:induction false} OrderExactlyWhenAdmissibleAndAcyclic(g: Graph, listed: seq<NodeId>)
    requires g.WellFormed() && KahnList(g, listed)
    ensures TopologicalOrder(g, Answer(g, listed)) <==> Admissible(g) && !HasCycle(g)
  {
    AnswerIsAnOrderExactlyWhenNodesListed(g, listed);
    if Admissible(g) {
      EmptyAnswerExactlyOnCycle(g, listed);
    }
    if Elements(listed) == Elements(g.nodes) {
      ListingTheNodesNeedsAdmissible(g, listed);
    }
  }

  lemma {:induction false} ListingTheNodesNeedsAdmissible(g: Graph, listed: seq<NodeId>)
    requires KahnList(g, listed) && Elements(listed) == Elements(g.nodes)
    ensures Admissible(g) && !HasCycle(g)
  {
    assert forall v :: v in g.nodes <==> v in listed by {
      assert forall v :: v in g.nodes <==> v in Elements(listed);
    }
    forall v | v in g.nodes
      ensures !HasUnregisteredPredecessor(g, v)
    {
      var i :| 0 <= i < |listed| && listed[i] == v;
      assert Ready(g, listed[i], listed[..i]);
    }
    forall v | v !in g.nodes && HasPredecessor(g, v)
      ensures HasUnregisteredPredecessor(g, v)
    {
      assert !Ready(g, v, listed);
    }
    assert listed[..|listed|] == listed;
    if p :| Cycle(g, p) {
      CycleIsNeverListed(g, listed, p, |listed|);
      assert false;
    }
  }

  /** Without admissibility the length test can be fooled: `a -> w` with `w` unregistered,
      and a self-loop on `b`, gives the answer [a, w] although `b` is on a cycle. */
  lemma {:induction false} UnregisteredTargetHidesCycle()
    ensures var a, b, w := NodeId("a"), NodeId("b"), NodeId("w");
            var g := Graph([a, b], [a, b], map[a := [w], b := [b]]);
            && g.WellFormed()
            && HasCycle(g)
            && KahnList(g, [a, w])
            && Answer(g, [a, w]) == [a, w]
  {
    var a, b, w := NodeId("a"), NodeId("b"), NodeId("w");
    assert a.name[0] != b.name[0] && a.name[0] != w.name[0] && b.name[0] != w.name[0];
    var g := Graph([a, b], [a, b], map[a := [w], b := [b]]);
    assert Link(g, [b, b], 0) && Cycle(g, [b, b]);
    var listed := [a, w];
    assert forall u, v :: g.Edge(u, v) <==> (u == a && v == w) || (u == b && v == b);
    assert g.Edge(a, w) && g.Edge(b, b);
    assert listed[..1] == [a] && listed[..0] == [];
  }
}
