/** Which inputs a node of a workflow can see when it runs: declaring an input does not join it to the
    node by an edge, so that depends on the order of the run. */
module WorkflowInputs {
  import opened Sequences
  import opened WorkflowGraphs

  type Inputs = map<NodeId, seq<NodeId>>

  /** The order has the nodes of `inputs` and puts inputs first. */
  ghost predicate InputsEarlier(inputs: Inputs, order: seq<NodeId>) {
    && Distinct(order)
    && Elements(order) == inputs.Keys
    && forall i, j :: 0 <= i < |order| && 0 <= j < |order| && order[i] in inputs[order[j]] ==> i < j
  }

  // ---------- The inputs listed before their node ----------

  ghost predicate Precedes(order: seq<NodeId>, k: NodeId, n: NodeId) {
    exists i, j :: 0 <= i < j < |order| && order[i] == k && order[j] == n
  }

  ghost function Before(order: seq<NodeId>, n: NodeId): NodeId -> bool {
    k => Precedes(order, k, n)
  }

  /** What each node has left of its inputs when they are run in `order`. */
  ghost function EarlierInputs(inputs: Inputs, order: seq<NodeId>): Inputs {
    map n | n in inputs :: Filter(inputs[n], Before(order, n))
  }

  lemma {:induction false} EarlierInputsMean(inputs: Inputs, order: seq<NodeId>, j: nat, k: NodeId)
    requires Distinct(order) && j < |order| && order[j] in inputs
    ensures k in EarlierInputs(inputs, order)[order[j]] <==> k in inputs[order[j]] && k in order[..j]
  {
    FilterMembers(inputs[order[j]], Before(order, order[j]), k);
    if k in order[..j] {
      var i :| 0 <= i < j && order[..j][i] == k;
      assert order[i] == k;
    }
    if Precedes(order, k, order[j]) {
      var i, j' :| 0 <= i < j' < |order| && order[i] == k && order[j'] == order[j];
      assert j' == j && order[..j][i] == k;
    }
  }

  lemma {:induction false} EarlierInputsAreEarlier(inputs: Inputs, order: seq<NodeId>)
    requires Distinct(order) && Elements(order) == inputs.Keys
    ensures InputsEarlier(EarlierInputs(inputs, order), order)
  {
    forall i, j | 0 <= i < |order| && 0 <= j < |order| && order[j] in Elements(order)
                  && order[i] in EarlierInputs(inputs, order)[order[j]]
      ensures i < j
    {
      EarlierInputsMean(inputs, order, j, order[i]);
      var m :| 0 <= m < j && order[..j][m] == order[i];
      assert order[m] == order[i];
    }
  }

  // ---------- When inputs are earlier in every order ----------

  ghost predicate Reaches(g: Graph, k: NodeId, n: NodeId) {
    exists p :: PathBetween(g, p, k, n)
  }

  ghost predicate PathBetween(g: Graph, p: seq<NodeId>, k: NodeId, n: NodeId) {
    |p| >= 2 && Path(g, p) && p[0] == k && p[|p| - 1] == n
  }

  /** Every input of a node that is a node itself has a path to it. */
  ghost predicate InputsReach(g: Graph, inputs: Inputs) {
    forall n, k {:trigger Reaches(g, k, n)} :: n in inputs && k in inputs[n] && k in g.nodes ==> Reaches(g, k, n)
  }

  /** Along a path between nodes, positions in a topological order grow. */
  lemma {:induction false} PathGoesForward(g: Graph, order: seq<NodeId>, p: seq<NodeId>) returns (i: nat, j: nat)
    requires Admissible(g) && TopologicalOrder(g, order)
    requires |p| >= 2 && Path(g, p) && p[|p| - 1] in g.nodes
    ensures i < j < |order| && order[i] == p[0] && order[j] == p[|p| - 1]
  {
    assert Link(g, p, 0);
    if |p| == 2 {
      assert !HasUnregisteredPredecessor(g, p[1]);
      i := Position(g, order, p[0]);
      j := Position(g, order, p[1]);
      assert g.Edge(order[i], order[j]);
    } else {
      var rest := p[1..];
      forall m | 0 <= m < |rest| - 1
        ensures Link(g, rest, m)
      {
        assert Link(g, p, m + 1);
      }
      var m: nat;
      m, j := PathGoesForward(g, order, rest);
      assert order[m] in Elements(order);
      assert !HasUnregisteredPredecessor(g, p[1]);
      i := Position(g, order, p[0]);
      assert g.Edge(order[i], order[m]);
    }
  }

  lemma {:induction false} Position(g: Graph, order: seq<NodeId>, v: NodeId) returns (i: nat)
    requires TopologicalOrder(g, order) && v in g.nodes
    ensures i < |order| && order[i] == v
  {
    assert v in Elements(g.nodes) && v in Elements(order);
    i :| i < |order| && order[i] == v;
  }

  lemma {:induction false} ReachingInputsAreEarlier(g: Graph, inputs: Inputs, order: seq<NodeId>)
    requires Admissible(g) && TopologicalOrder(g, order) && Elements(g.nodes) == inputs.Keys
    requires InputsReach(g, inputs)
    ensures InputsEarlier(inputs, order)
  {
    forall i, j | 0 <= i < |order| && 0 <= j < |order| && order[i] in Elements(order) && order[j] in Elements(order)
                  && order[i] in inputs[order[j]]
      ensures i < j
    {
      assert Reaches(g, order[i], order[j]);
      var p :| PathBetween(g, p, order[i], order[j]);
      var i', j' := PathGoesForward(g, order, p);
    }
  }

  /** `n` and everything upstream of it. */
  ghost function Upstream(g: Graph, n: NodeId): NodeId -> bool {
    v => v == n || Reaches(g, v, n)
  }

  ghost function NotUpstream(g: Graph, n: NodeId): NodeId -> bool {
    v => !(v == n || Reaches(g, v, n))
  }

  /** The same order with `n` and what is upstream of it moved to the front. */
  ghost function UpstreamFirst(g: Graph, n: NodeId, order: seq<NodeId>): seq<NodeId> {
    Filter(order, Upstream(g, n)) + Filter(order, NotUpstream(g, n))
  }

  lemma {:induction false} PredecessorIsUpstream(g: Graph, u: NodeId, v: NodeId, n: NodeId)
    requires g.Edge(u, v) && Upstream(g, n)(v)
    ensures Upstream(g, n)(u)
  {
    if v == n {
      assert Link(g, [u, n], 0);
      assert PathBetween(g, [u, n], u, n);
    } else {
      var p :| PathBetween(g, p, v, n);
      var q := [u] + p;
      forall i | 0 <= i < |q| - 1
        ensures Link(g, q, i)
      {
        assert i > 0 ==> Link(g, p, i - 1);
      }
      assert PathBetween(g, q, u, n);
    }
  }

  /** In a part of a topological order no edge goes back. */
  lemma {:induction false} NoEdgeBack(g: Graph, order: seq<NodeId>, keep: NodeId -> bool, i: nat, j: nat)
    requires TopologicalOrder(g, order)
    requires j <= i < |Filter(order, keep)|
    ensures !g.Edge(Filter(order, keep)[i], Filter(order, keep)[j])
  {
    var part := Filter(order, keep);
    if j < i {
      var j', i' := FilterPositions(order, keep, j, i);
      assert g.Edge(order[i'], order[j']) ==> i' < j';
    } else {
      FilterMembers(order, keep, part[i]);
      var m :| 0 <= m < |order| && order[m] == part[i];
      assert g.Edge(order[m], order[m]) ==> m < m;
    }
  }

  lemma {:induction false} NoEdgeBackInMoved(g: Graph, n: NodeId, order: seq<NodeId>, i: nat, j: nat)
    requires TopologicalOrder(g, order) && j <= i < |UpstreamFirst(g, n, order)|
    ensures !g.Edge(UpstreamFirst(g, n, order)[i], UpstreamFirst(g, n, order)[j])
  {
    var up, rest := Filter(order, Upstream(g, n)), Filter(order, NotUpstream(g, n));
    if i < |up| {
      NoEdgeBack(g, order, Upstream(g, n), i, j);
    } else if j >= |up| {
      NoEdgeBack(g, order, NotUpstream(g, n), i - |up|, j - |up|);
    } else {
      FilterMembers(order, Upstream(g, n), up[j]);
      FilterMembers(order, NotUpstream(g, n), rest[i - |up|]);
      if g.Edge(rest[i - |up|], up[j]) {
        PredecessorIsUpstream(g, rest[i - |up|], up[j], n);
        assert false;
      }
    }
  }

  lemma {:induction false} UpstreamFirstIsTopological(g: Graph, n: NodeId, order: seq<NodeId>)
    requires TopologicalOrder(g, order)
    ensures TopologicalOrder(g, UpstreamFirst(g, n, order))
  {
    var moved := UpstreamFirst(g, n, order);
    FilterPartition(order, Upstream(g, n), NotUpstream(g, n));
    forall i, j | 0 <= i < |moved| && 0 <= j < |moved| && g.Edge(moved[i], moved[j])
      ensures i < j
    {
      if j <= i {
        NoEdgeBackInMoved(g, n, order, i, j);
        assert false;
      }
    }
  }

  /** An input without a path to its node can be listed after it. */
  lemma {:induction false} UnreachingInputMayBeLate(g: Graph, inputs: Inputs, order: seq<NodeId>, n: NodeId, k: NodeId)
    requires TopologicalOrder(g, order) && Elements(g.nodes) == inputs.Keys
    requires n in inputs && k in inputs[n] && k in g.nodes && !Reaches(g, k, n)
    ensures TopologicalOrder(g, UpstreamFirst(g, n, order))
    ensures !InputsEarlier(inputs, UpstreamFirst(g, n, order))
  {
    var moved, up, rest := UpstreamFirst(g, n, order), Filter(order, Upstream(g, n)), Filter(order, NotUpstream(g, n));
    UpstreamFirstIsTopological(g, n, order);
    assert n in Elements(g.nodes);
    var j := Position(g, moved, n);
    var i := Position(g, moved, k);
    FilterMembers(order, Upstream(g, n), k);
    FilterMembers(order, NotUpstream(g, n), n);
    assert forall m :: 0 <= m < |up| ==> moved[m] in up;
    assert forall m :: |up| <= m < |moved| ==> moved[m] == rest[m - |up|] && moved[m] in rest;
    assert moved[i] in inputs[moved[j]];
  }

  /** Every topological order gives every node all its inputs if and only if every input has a path to its
      node.  (The order of the sort is a particular one and gives more.) */
  lemma {:induction false} InputsEarlierInEveryOrderExactlyWhen(g: Graph, inputs: Inputs, order: seq<NodeId>)
    requires Admissible(g) && TopologicalOrder(g, order) && Elements(g.nodes) == inputs.Keys
    ensures (forall o :: TopologicalOrder(g, o) ==> InputsEarlier(inputs, o)) <==> InputsReach(g, inputs)
  {
    if InputsReach(g, inputs) {
      forall o | TopologicalOrder(g, o)
        ensures InputsEarlier(inputs, o)
      {
        ReachingInputsAreEarlier(g, inputs, o);
      }
    } else {
      var n, k :| n in inputs && k in inputs[n] && k in g.nodes && !Reaches(g, k, n);
      UnreachingInputMayBeLate(g, inputs, order, n, k);
    }
  }
}
