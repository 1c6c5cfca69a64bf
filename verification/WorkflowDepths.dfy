/** How deep vertices lie in a workflow, and what that says of the order in which the sort lists them. */
module WorkflowDepths {
  import opened Recency
  import opened Sequences
  import opened WorkflowGraphs
  import opened WorkflowInputs
  import opened WorkflowQueues

  /** Some walk of `m` edges ends in `v`. */
  ghost predicate WalkTo(g: Graph, v: NodeId, m: nat) {
    exists p :: WalkEnds(g, p, v, m)
  }

  ghost predicate WalkEnds(g: Graph, p: seq<NodeId>, v: NodeId, m: nat) {
    |p| == m + 1 && Path(g, p) && p[m] == v
  }

  /** The longest walk to `v` of at most `bound` edges. */
  ghost function LongestWalk(g: Graph, v: NodeId, bound: nat): (m: nat)
    ensures m <= bound
  {
    if bound == 0 || WalkTo(g, v, bound) then bound else LongestWalk(g, v, bound - 1)
  }

  /** The depth of a node: the length of the longest walk to it.  (Without cycles no walk is longer than
      there are nodes.) */
  ghost function Depth(g: Graph, v: NodeId): nat {
    LongestWalk(g, v, |g.nodes|)
  }

  // ---------- Walks ----------

  lemma {:induction false} WalkOfNothing(g: Graph, v: NodeId)
    ensures WalkTo(g, v, 0)
  {
    assert WalkEnds(g, [v], v, 0);
  }

  lemma {:induction false} WalkExtends(g: Graph, u: NodeId, v: NodeId, m: nat)
    requires g.Edge(u, v) && WalkTo(g, u, m)
    ensures WalkTo(g, v, m + 1)
  {
    var p :| WalkEnds(g, p, u, m);
    var q := p + [v];
    forall i | 0 <= i < |q| - 1
      ensures Link(g, q, i)
    {
      assert i < m ==> Link(g, p, i);
    }
    assert WalkEnds(g, q, v, m + 1);
  }

  lemma {:induction false} WalkBack(g: Graph, v: NodeId, m: nat) returns (u: NodeId)
    requires m > 0 && WalkTo(g, v, m)
    ensures g.Edge(u, v) && WalkTo(g, u, m - 1)
  {
    var p :| WalkEnds(g, p, v, m);
    u := p[m - 1];
    assert Link(g, p, m - 1);
    forall i | 0 <= i < m - 1
      ensures Link(g, p[..m], i)
    {
      assert Link(g, p, i);
    }
    assert WalkEnds(g, p[..m], u, m - 1);
  }

  lemma {:induction false} WalkShortens(g: Graph, v: NodeId, m: nat, n: nat)
    requires n <= m && WalkTo(g, v, m)
    ensures WalkTo(g, v, n)
    decreases m
  {
    if n == 0 {
      WalkOfNothing(g, v);
    } else {
      var u := WalkBack(g, v, m);
      WalkShortens(g, u, m - 1, n - 1);
      WalkExtends(g, u, v, n - 1);
    }
  }

  /** In a topological order nothing is deeper than its position. */
  lemma {:induction false} WalksAreBounded(g: Graph, order: seq<NodeId>, i: nat, m: nat)
    requires Admissible(g) && TopologicalOrder(g, order)
    requires i < |order| && WalkTo(g, order[i], m)
    ensures m <= i
  {
    if m > 0 {
      var u := WalkBack(g, order[i], m);
      assert order[i] in Elements(order) && !HasUnregisteredPredecessor(g, order[i]);
      var a := Position(g, order, u);
      assert g.Edge(order[a], order[i]);
      WalksAreBounded(g, order, a, m - 1);
    }
  }

  lemma {:induction false} LongestWalkMeans(g: Graph, v: NodeId, bound: nat, m: nat)
    ensures WalkTo(g, v, LongestWalk(g, v, bound))
    ensures m <= bound ==> (WalkTo(g, v, m) <==> m <= LongestWalk(g, v, bound))
  {
    if bound == 0 {
      WalkOfNothing(g, v);
    } else if WalkTo(g, v, bound) {
      if m <= bound {
        WalkShortens(g, v, bound, m);
      }
    } else {
      LongestWalkMeans(g, v, bound - 1, m);
    }
  }

  /** What depth means for a node of a graph that can be sorted. */
  lemma {:induction false} DepthMeans(g: Graph, order: seq<NodeId>, v: NodeId, m: nat)
    requires g.WellFormed() && Admissible(g) && TopologicalOrder(g, order) && v in g.nodes
    ensures WalkTo(g, v, m) <==> m <= Depth(g, v)
  {
    LongestWalkMeans(g, v, |g.nodes|, m);
    if WalkTo(g, v, m) {
      var i := Position(g, order, v);
      WalksAreBounded(g, order, i, m);
      DistinctCardinality(order);
      DistinctCardinality(g.nodes);
    }
  }

  // ---------- What the sort lists, one vertex at a time ----------

  lemma {:induction false} KahnIsOrder(g: Graph)
    requires g.WellFormed() && Admissible(g) && !HasCycle(g)
    ensures TopologicalOrder(g, Kahn(g)) && Answer(g, Kahn(g)) == Kahn(g)
  {
    KahnIsComplete(g);
    OrderExactlyWhenAdmissibleAndAcyclic(g, Kahn(g));
    AnswerIsAnOrderExactlyWhenNodesListed(g, Kahn(g));
    DistinctCardinality(Kahn(g));
    DistinctCardinality(g.nodes);
  }

  lemma {:induction false} KahnPosition(g: Graph, v: NodeId) returns (i: nat)
    requires g.WellFormed() && Admissible(g) && !HasCycle(g) && v in g.nodes
    ensures i < |Kahn(g)| && Kahn(g)[i] == v
  {
    KahnIsOrder(g);
    i := Position(g, Kahn(g), v);
  }

  lemma {:induction false} KahnListsNodes(g: Graph, i: nat)
    requires g.WellFormed() && Admissible(g) && !HasCycle(g) && i < |Kahn(g)|
    ensures Kahn(g)[i] in g.nodes
  {
    KahnIsOrder(g);
    assert Kahn(g)[i] in Elements(Kahn(g));
  }

  /** What depth means for a node of a graph that can be sorted. */
  lemma {:induction false} DepthIs(g: Graph, v: NodeId, m: nat)
    requires g.WellFormed() && Admissible(g) && !HasCycle(g) && v in g.nodes
    ensures WalkTo(g, v, m) <==> m <= Depth(g, v)
  {
    KahnIsOrder(g);
    DepthMeans(g, Kahn(g), v, m);
  }

  lemma {:induction false} RootsAreListedAsRegistered(g: Graph, i: nat, j: nat)
    requires g.WellFormed() && i < j < |Kahn(g)|
    requires !HasPredecessor(g, Kahn(g)[i]) && !HasPredecessor(g, Kahn(g)[j])
    ensures LastBefore(g.nodes, Kahn(g)[i], Kahn(g)[j])
  {
    KahnIsQueued(g);
  }

  lemma {:induction false} TiesAreListedAsEdges(g: Graph, a: nat, i: nat, j: nat)
    requires g.WellFormed() && a < |Kahn(g)| && i < j < |Kahn(g)|
    requires LastPredecessor(g, Kahn(g), a, i) && LastPredecessor(g, Kahn(g), a, j)
    ensures LastBefore(g.Targets(Kahn(g)[a]), Kahn(g)[i], Kahn(g)[j])
  {
    KahnIsQueued(g);
  }

  /** A vertex listed later has a predecessor that is listed no earlier than any one of this vertex. */
  lemma {:induction false} LaterPredecessor(g: Graph, s: seq<NodeId>, i: nat, j: nat, u: NodeId)
    returns (a: nat, b: nat)
    requires KahnList(g, s) && Queued(g, s) && i < j < |s| && g.Edge(u, s[i])
    ensures a <= b < |s| && s[a] == u && g.Edge(s[b], s[j])
  {
    a := PredecessorPosition(g, s, i, u);
    assert g.Edge(s[a], s[i]);
    assert HasPredecessorFrom(g, s, a, j);
    b :| a <= b < |s| && g.Edge(s[b], s[j]);
  }

  lemma {:induction false} PredecessorPosition(g: Graph, s: seq<NodeId>, i: nat, u: NodeId) returns (a: nat)
    requires KahnList(g, s) && i < |s| && g.Edge(u, s[i])
    ensures a < i && s[a] == u
  {
    assert Ready(g, s[i], s[..i]);
    a :| a < i && s[..i][a] == u;
  }

  // ---------- First in, first out lists by depth ----------

  /** On any graph: whatever walk ends in a listed vertex, one as long ends in every later one. */
  lemma {:induction false} WalksNeverFall(g: Graph, s: seq<NodeId>, i: nat, j: nat, m: nat)
    requires KahnList(g, s) && Queued(g, s) && i <= j < |s| && WalkTo(g, s[i], m)
    ensures WalkTo(g, s[j], m)
    decreases m
  {
    if m == 0 {
      WalkOfNothing(g, s[j]);
    } else if i < j {
      var a, b := StepBack(g, s, i, j, m);
      WalksNeverFall(g, s, a, b, m - 1);
      WalkExtends(g, s[b], s[j], m - 1);
    }
  }

  lemma {:induction false} StepBack(g: Graph, s: seq<NodeId>, i: nat, j: nat, m: nat) returns (a: nat, b: nat)
    requires KahnList(g, s) && Queued(g, s) && i < j < |s| && m > 0 && WalkTo(g, s[i], m)
    ensures a <= b < |s| && WalkTo(g, s[a], m - 1) && g.Edge(s[b], s[j])
  {
    var u := WalkBack(g, s[i], m);
    a, b := LaterPredecessor(g, s, i, j, u);
  }

  /** The sort lists nodes in non-decreasing depth. */
  lemma {:induction false} DepthNeverFalls(g: Graph, i: nat, j: nat)
    requires g.WellFormed() && Admissible(g) && !HasCycle(g)
    requires i <= j < |Kahn(g)|
    ensures Depth(g, Kahn(g)[i]) <= Depth(g, Kahn(g)[j])
  {
    var s := Kahn(g);
    KahnListsNodes(g, i);
    KahnListsNodes(g, j);
    DepthIs(g, s[i], Depth(g, s[i]));
    KahnIsComplete(g);
    KahnIsQueued(g);
    WalksNeverFall(g, s, i, j, Depth(g, s[i]));
    DepthIs(g, s[j], Depth(g, s[i]));
  }

  /** Every input of a node that is a node itself is less deep. */
  ghost predicate InputsShallower(g: Graph, inputs: Inputs) {
    forall n, k {:trigger Depth(g, k), Depth(g, n)} ::
      n in inputs && k in inputs[n] && k in g.nodes ==> Depth(g, k) < Depth(g, n)
  }

  lemma {:induction false} ShallowerInputsAreEarlier(g: Graph, inputs: Inputs)
    requires g.WellFormed() && Admissible(g) && !HasCycle(g) && Elements(g.nodes) == inputs.Keys
    requires InputsShallower(g, inputs)
    ensures InputsEarlier(inputs, Kahn(g))
  {
    var s := Kahn(g);
    KahnIsOrder(g);
    forall i, j | 0 <= i < |s| && 0 <= j < |s| && s[j] in Elements(s) && s[i] in inputs[s[j]]
      ensures i < j
    {
      KahnListsNodes(g, i);
      if j <= i {
        DepthNeverFalls(g, j, i);
      }
    }
  }

  /** A path to a node is enough. */
  lemma {:induction false} ReachingInputsAreShallower(g: Graph, inputs: Inputs)
    requires g.WellFormed() && Admissible(g) && !HasCycle(g) && Elements(g.nodes) == inputs.Keys
    requires InputsReach(g, inputs)
    ensures InputsShallower(g, inputs)
  {
    forall n, k | n in inputs && k in inputs[n] && k in g.nodes
      ensures Depth(g, k) < Depth(g, n)
    {
      assert Reaches(g, k, n) && n in Elements(g.nodes);
      PathDeepens(g, k, n);
    }
  }

  lemma {:induction false} PathDeepens(g: Graph, k: NodeId, n: NodeId)
    requires g.WellFormed() && Admissible(g) && !HasCycle(g) && k in g.nodes && n in g.nodes
    requires Reaches(g, k, n)
    ensures Depth(g, k) < Depth(g, n)
  {
    var p :| PathBetween(g, p, k, n);
    DepthIs(g, k, Depth(g, k));
    WalkAlong(g, p, |p| - 1, Depth(g, k));
    DepthIs(g, n, Depth(g, k) + |p| - 1);
  }

  lemma {:induction false} WalkAlong(g: Graph, p: seq<NodeId>, n: nat, m: nat)
    requires n < |p| && Path(g, p) && WalkTo(g, p[0], m)
    ensures WalkTo(g, p[n], m + n)
  {
    if n > 0 {
      WalkAlong(g, p, n - 1, m);
      assert Link(g, p, n - 1);
      WalkExtends(g, p[n - 1], p[n], m + n - 1);
    }
  }

  // ---------- The order of registration ----------

  /** The same workflow, its nodes and edges registered in another order. */
  ghost predicate Rearranges(h: Graph, g: Graph) {
    && h.WellFormed()
    && multiset(h.nodes) == multiset(g.nodes)
    && h.targets.Keys == g.targets.Keys
    && forall u :: u in g.targets ==> multiset(h.targets[u]) == multiset(g.targets[u])
  }

  lemma {:induction false} SameMembers<T>(a: seq<T>, b: seq<T>)
    requires multiset(a) == multiset(b)
    ensures |a| == |b| && forall x :: x in a <==> x in b
  {
    assert |multiset(a)| == |a| && |multiset(b)| == |b|;
    assert forall x :: x in a <==> x in multiset(a);
    assert forall x :: x in b <==> x in multiset(b);
  }

  lemma {:induction false} SameEdges(h: Graph, g: Graph, u: NodeId, v: NodeId)
    requires Rearranges(h, g)
    ensures h.Edge(u, v) <==> g.Edge(u, v)
  {
    if u in g.targets {
      SameMembers(h.targets[u], g.targets[u]);
    }
  }

  lemma {:induction false} SamePaths(h: Graph, g: Graph, p: seq<NodeId>)
    requires Rearranges(h, g)
    ensures Path(h, p) <==> Path(g, p)
  {
    forall i | 0 <= i < |p| - 1
      ensures Link(h, p, i) <==> Link(g, p, i)
    {
      SameEdges(h, g, p[i], p[i + 1]);
    }
  }

  lemma {:induction false} SameWalks(h: Graph, g: Graph, v: NodeId, m: nat)
    requires Rearranges(h, g)
    ensures WalkTo(h, v, m) <==> WalkTo(g, v, m)
  {
    if WalkTo(h, v, m) {
      var p :| WalkEnds(h, p, v, m);
      SamePaths(h, g, p);
      assert WalkEnds(g, p, v, m);
    }
    if WalkTo(g, v, m) {
      var p :| WalkEnds(g, p, v, m);
      SamePaths(h, g, p);
      assert WalkEnds(h, p, v, m);
    }
  }

  lemma {:induction false} SameLongestWalks(h: Graph, g: Graph, v: NodeId, bound: nat)
    requires Rearranges(h, g)
    ensures LongestWalk(h, v, bound) == LongestWalk(g, v, bound)
  {
    if bound > 0 {
      SameWalks(h, g, v, bound);
      SameLongestWalks(h, g, v, bound - 1);
    }
  }

  lemma {:induction false} SameDepth(h: Graph, g: Graph, v: NodeId)
    requires Rearranges(h, g)
    ensures Depth(h, v) == Depth(g, v)
  {
    SameMembers(h.nodes, g.nodes);
    SameLongestWalks(h, g, v, |g.nodes|);
  }

  lemma {:induction false} SameKind(h: Graph, g: Graph)
    requires Rearranges(h, g) && Admissible(g) && !HasCycle(g)
    ensures Elements(h.nodes) == Elements(g.nodes)
    ensures Admissible(h) && !HasCycle(h)
  {
    SameMembers(h.nodes, g.nodes);
    forall u, v
      ensures h.Edge(u, v) <==> g.Edge(u, v)
    {
      SameEdges(h, g, u, v);
    }
    forall v
      ensures HasPredecessor(h, v) ==> HasPredecessor(g, v)
      ensures HasUnregisteredPredecessor(h, v) <==> HasUnregisteredPredecessor(g, v)
    {
      if u :| h.Edge(u, v) {
        assert g.Edge(u, v);
      }
      if u :| h.Edge(u, v) && u !in h.nodes {
        assert g.Edge(u, v) && u !in g.nodes;
      }
      if u :| g.Edge(u, v) && u !in g.nodes {
        assert h.Edge(u, v) && u !in h.nodes;
      }
    }
    forall p | Cycle(h, p)
      ensures Cycle(g, p)
    {
      SamePaths(h, g, p);
    }
  }

  // ---------- An order of registration that puts a given node last ----------

  function In(p: seq<NodeId>): NodeId -> bool {
    v => v in p
  }

  function NotIn(p: seq<NodeId>): NodeId -> bool {
    v => v !in p
  }

  /** The members of `p` moved to the end. */
  function Delayed(s: seq<NodeId>, p: seq<NodeId>): seq<NodeId> {
    Filter(s, NotIn(p)) + Filter(s, In(p))
  }

  lemma {:induction false} DelayedIsLater(s: seq<NodeId>, p: seq<NodeId>, x: NodeId, y: NodeId)
    requires x in s && x in p && y in s && y !in p
    ensures LastBefore(Delayed(s, p), y, x)
  {
    var first, last, t := Filter(s, NotIn(p)), Filter(s, In(p)), Delayed(s, p);
    FilterMembers(s, NotIn(p), y);
    FilterMembers(s, In(p), x);
    FilterMembers(s, NotIn(p), x);
    FilterMembers(s, In(p), y);
    assert forall m :: 0 <= m < |first| ==> t[m] in first;
    assert forall m :: |first| <= m < |t| ==> t[m] == last[m - |first|] && t[m] in last;
    assert t[LastIndex(t, y)] == y && t[LastIndex(t, x)] == x;
  }

  /** The nodes of `p` registered last, and the edges to them last. */
  ghost function Late(g: Graph, p: seq<NodeId>): Graph {
    Graph(Delayed(g.nodes, p), g.sources, map u | u in g.targets :: Delayed(g.targets[u], p))
  }

  lemma {:induction false} LateRearranges(g: Graph, p: seq<NodeId>)
    requires g.WellFormed()
    ensures Rearranges(Late(g, p), g)
  {
    FilterPartition(g.nodes, NotIn(p), In(p));
    FilterRearranges(g.nodes, NotIn(p), In(p));
    forall u | u in g.targets
      ensures multiset(Late(g, p).targets[u]) == multiset(g.targets[u])
    {
      FilterRearranges(g.targets[u], NotIn(p), In(p));
    }
  }

  /** A longest walk: each of its nodes is as deep as its place in it. */
  ghost predicate Chain(g: Graph, p: seq<NodeId>) {
    && Path(g, p)
    && forall m :: 0 <= m < |p| ==> p[m] in g.nodes && Depth(g, p[m]) == m
  }

  lemma {:induction false} ChainTo(g: Graph, k: NodeId) returns (p: seq<NodeId>)
    requires g.WellFormed() && Admissible(g) && !HasCycle(g) && k in g.nodes
    ensures Chain(g, p) && |p| == Depth(g, k) + 1 && p[|p| - 1] == k
    decreases Depth(g, k)
  {
    if Depth(g, k) == 0 {
      p := [k];
    } else {
      var u := ParentOnLongestWalk(g, k);
      var q := ChainTo(g, u);
      p := q + [k];
      forall i | 0 <= i < |p| - 1
        ensures Link(g, p, i)
      {
        assert i < |q| - 1 ==> Link(g, q, i);
      }
    }
  }

  lemma {:induction false} ParentOnLongestWalk(g: Graph, k: NodeId) returns (u: NodeId)
    requires g.WellFormed() && Admissible(g) && !HasCycle(g) && k in g.nodes && Depth(g, k) > 0
    ensures g.Edge(u, k) && u in g.nodes && Depth(g, u) == Depth(g, k) - 1
  {
    DepthIs(g, k, Depth(g, k));
    u := WalkBack(g, k, Depth(g, k));
    PredecessorIsShallower(g, u, k);
    DepthIs(g, u, Depth(g, k) - 1);
  }

  /** A predecessor is less deep. */
  lemma {:induction false} PredecessorIsShallower(g: Graph, u: NodeId, v: NodeId)
    requires g.WellFormed() && Admissible(g) && !HasCycle(g) && v in g.nodes && g.Edge(u, v)
    ensures u in g.nodes && Depth(g, u) < Depth(g, v)
  {
    assert !HasUnregisteredPredecessor(g, v);
    DepthIs(g, u, Depth(g, u));
    WalkExtends(g, u, v, Depth(g, u));
    DepthIs(g, v, Depth(g, u) + 1);
  }

  lemma {:induction false} NoPredecessorAtDepthZero(g: Graph, v: NodeId)
    requires g.WellFormed() && Admissible(g) && !HasCycle(g) && v in g.nodes && Depth(g, v) == 0
    ensures !HasPredecessor(g, v)
  {
    if u :| g.Edge(u, v) {
      PredecessorIsShallower(g, u, v);
    }
  }

  /** `h` delays the chain `p`: its nodes, and the edges to them. */
  ghost predicate Delays(h: Graph, p: seq<NodeId>) {
    && (forall x, y :: x in h.nodes && x in p && y in h.nodes && y !in p ==> LastBefore(h.nodes, y, x))
    && (forall u, x, y ::
          x in h.Targets(u) && x in p && y in h.Targets(u) && y !in p ==> LastBefore(h.Targets(u), y, x))
  }

  lemma {:induction false} LateDelays(g: Graph, p: seq<NodeId>)
    requires g.WellFormed()
    ensures Delays(Late(g, p), p)
  {
    var h := Late(g, p);
    LateRearranges(g, p);
    SameMembers(h.nodes, g.nodes);
    forall x, y | x in h.nodes && x in p && y in h.nodes && y !in p
      ensures LastBefore(h.nodes, y, x)
    {
      DelayedIsLater(g.nodes, p, x, y);
    }
    forall u, x, y | x in h.Targets(u) && x in p && y in h.Targets(u) && y !in p
      ensures LastBefore(h.Targets(u), y, x)
    {
      SameMembers(h.targets[u], g.targets[u]);
      DelayedIsLater(g.targets[u], p, x, y);
    }
  }

  /** Then each node of the chain is listed last of all that are no deeper. */
  lemma {:induction false} ChainIsLast(h: Graph, p: seq<NodeId>, i: nat, c: nat, j: nat)
    requires h.WellFormed() && Admissible(h) && !HasCycle(h)
    requires Chain(h, p) && Delays(h, p)
    requires i < |p| && c < |Kahn(h)| && Kahn(h)[c] == p[i]
    requires j < |Kahn(h)| && Depth(h, Kahn(h)[j]) <= i
    ensures j <= c
    decreases i
  {
    var s := Kahn(h);
    if c < j {
      NotOnChain(h, p, i, c, j);
      if i == 0 {
        RootIsLast(h, p, c, j);
      } else {
        var e := KahnPosition(h, p[i - 1]);
        assert Link(h, p, i - 1);
        forall b, n | e < b < |s| && (n == c || n == j)
          ensures !h.Edge(s[b], s[n])
        {
          if h.Edge(s[b], s[n]) {
            PredecessorIsShallower(h, s[b], s[n]);
            ChainIsLast(h, p, i - 1, e, b);
          }
        }
        SiblingIsLast(h, p, e, c, j);
      }
    }
  }

  lemma {:induction false} NotOnChain(h: Graph, p: seq<NodeId>, i: nat, c: nat, j: nat)
    requires h.WellFormed() && Admissible(h) && !HasCycle(h) && Chain(h, p)
    requires i < |p| && c < j < |Kahn(h)| && Kahn(h)[c] == p[i] && Depth(h, Kahn(h)[j]) <= i
    ensures Kahn(h)[j] in h.nodes && Depth(h, Kahn(h)[j]) == i && Kahn(h)[j] !in p
  {
    KahnListsNodes(h, j);
    DepthNeverFalls(h, c, j);
    if m :| 0 <= m < |p| && p[m] == Kahn(h)[j] {
      SamePosition(h, c, j);
    }
  }

  lemma {:induction false} RootIsLast(h: Graph, p: seq<NodeId>, c: nat, j: nat)
    requires h.WellFormed() && Admissible(h) && !HasCycle(h) && Delays(h, p)
    requires c < |Kahn(h)| && j < |Kahn(h)| && Kahn(h)[c] in p && Kahn(h)[j] !in p
    requires Depth(h, Kahn(h)[c]) == 0 && Depth(h, Kahn(h)[j]) == 0
    ensures j <= c
  {
    KahnListsNodes(h, c);
    KahnListsNodes(h, j);
    NoPredecessorAtDepthZero(h, Kahn(h)[c]);
    NoPredecessorAtDepthZero(h, Kahn(h)[j]);
    if c < j {
      RootsAreListedAsRegistered(h, c, j);
    }
  }

  lemma {:induction false} SiblingIsLast(h: Graph, p: seq<NodeId>, e: nat, c: nat, j: nat)
    requires h.WellFormed() && Delays(h, p)
    requires e < |Kahn(h)| && c < |Kahn(h)| && j < |Kahn(h)| && Kahn(h)[c] in p && Kahn(h)[j] !in p
    requires h.Edge(Kahn(h)[e], Kahn(h)[c])
    requires forall b, n :: e < b < |Kahn(h)| && (n == c || n == j) ==> !h.Edge(Kahn(h)[b], Kahn(h)[n])
    ensures j <= c
  {
    var s := Kahn(h);
    if c < j {
      KahnIsComplete(h);
      KahnIsQueued(h);
      var a, b := LaterPredecessor(h, s, c, j, s[e]);
      SamePosition(h, a, e);
      assert b == e;
      assert LastPredecessor(h, s, e, c) && LastPredecessor(h, s, e, j);
      TiesAreListedAsEdges(h, e, c, j);
    }
  }

  lemma {:induction false} SamePosition(g: Graph, a: nat, b: nat)
    requires g.WellFormed() && a < |Kahn(g)| && b < |Kahn(g)| && Kahn(g)[a] == Kahn(g)[b]
    ensures a == b
  {
    KahnIsComplete(g);
  }

  // ---------- When a node sees all its inputs ----------

  lemma {:induction false} DeepInputCanBeLate(g: Graph, inputs: Inputs, n: NodeId, k: NodeId) returns (h: Graph)
    requires g.WellFormed() && Admissible(g) && !HasCycle(g) && Elements(g.nodes) == inputs.Keys
    requires n in inputs && k in inputs[n] && k in g.nodes && Depth(g, k) >= Depth(g, n)
    ensures Rearranges(h, g) && !InputsEarlier(inputs, Answer(h, Kahn(h)))
  {
    var p := ChainTo(g, k);
    h := Late(g, p);
    LateRearranges(g, p);
    LateDelays(g, p);
    SameKind(h, g);
    KahnIsOrder(h);
    SamePaths(h, g, p);
    forall m | 0 <= m < |p|
      ensures p[m] in h.nodes && Depth(h, p[m]) == m
    {
      SameDepth(h, g, p[m]);
      assert p[m] in Elements(g.nodes);
    }
    assert n in Elements(g.nodes) && k in Elements(g.nodes);
    var c := KahnPosition(h, k);
    var j := KahnPosition(h, n);
    SameDepth(h, g, n);
    ChainIsLast(h, p, |p| - 1, c, j);
    assert Kahn(h)[c] in inputs[Kahn(h)[j]];
  }

  /** A node declares inputs without being joined to them.  However the same nodes and edges are registered,
      the execution gives every node all its inputs, if and only if every input is less deep than its node. */
  lemma {:induction false} InputsAlwaysSeenExactlyWhen(g: Graph, inputs: Inputs)
    requires g.WellFormed() && Admissible(g) && !HasCycle(g) && Elements(g.nodes) == inputs.Keys
    ensures (forall h :: Rearranges(h, g) ==> InputsEarlier(inputs, Answer(h, Kahn(h)))) <==> InputsShallower(g, inputs)
  {
    if InputsShallower(g, inputs) {
      forall h | Rearranges(h, g)
        ensures InputsEarlier(inputs, Answer(h, Kahn(h)))
      {
        SameKind(h, g);
        KahnIsOrder(h);
        assert InputsShallower(h, inputs) by {
          forall n, k | n in inputs && k in inputs[n] && k in h.nodes
            ensures Depth(h, k) < Depth(h, n)
          {
            SameDepth(h, g, k);
            SameDepth(h, g, n);
            assert k in Elements(h.nodes);
          }
        }
        ShallowerInputsAreEarlier(h, inputs);
      }
    } else {
      var n, k :| n in inputs && k in inputs[n] && k in g.nodes && Depth(g, k) >= Depth(g, n);
      var h := DeepInputCanBeLate(g, inputs, n, k);
    }
  }

  lemma {:induction false} UnjoinedNodes(g: Graph)
    requires g.WellFormed() && forall u, v :: !g.Edge(u, v)
    ensures Admissible(g) && !HasCycle(g)
  {
    forall p
      ensures !Cycle(g, p)
    {
      assert |p| >= 2 ==> !Link(g, p, 0);
    }
  }

  lemma {:induction false} TwoUnjoinedNodes(g: Graph, n: NodeId, k: NodeId)
    requires g.WellFormed() && g.nodes == [n, k] && forall u, v :: !g.Edge(u, v)
    ensures Answer(g, Kahn(g)) == [n, k]
  {
    UnjoinedNodes(g);
    KahnIsOrder(g);
    KahnIsQueued(g);
    TwoInOrder(g, Kahn(g), n, k);
  }

  lemma {:induction false} TwoInOrder(g: Graph, s: seq<NodeId>, n: NodeId, k: NodeId)
    requires g.WellFormed() && g.nodes == [n, k] && TopologicalOrder(g, s) && RootsInOrder(g, s)
    requires !HasPredecessor(g, n) && !HasPredecessor(g, k)
    ensures s == [n, k]
  {
    var j := Position(g, s, n);
    var i := Position(g, s, k);
    DistinctLastIndex(g.nodes, 0);
    DistinctLastIndex(g.nodes, 1);
    assert i < j ==> LastBefore(g.nodes, s[i], s[j]);
    DistinctCardinality(s);
    DistinctCardinality(g.nodes);
  }

  /** A workflow of two nodes, the first with the second as its input, and no edge: the first is run first, and
      does not see its input. */
  lemma {:induction false} DeclaredInputIsMissed(n: NodeId, k: NodeId)
    requires n != k
    ensures var g, inputs := Graph([n, k], [n, k], map[n := [], k := []]), map[n := [k], k := []];
            && g.WellFormed() && Admissible(g) && !HasCycle(g)
            && Answer(g, Kahn(g)) == [n, k] && !InputsEarlier(inputs, [n, k])
  {
    var g, inputs := Graph([n, k], [n, k], map[n := [], k := []]), map[n := [k], k := []];
    assert forall u, v :: !g.Edge(u, v);
    UnjoinedNodes(g);
    TwoUnjoinedNodes(g, n, k);
    assert [n, k][1] in inputs[[n, k][0]];
  }
}
