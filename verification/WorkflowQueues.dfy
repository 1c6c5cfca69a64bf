/** The work list of the sort as a queue: what it holds after each step, and in what order vertices
    are listed. */
module WorkflowQueues {
  import opened Recency
  import opened Sequences
  import opened WorkflowGraphs

  datatype Work = Work(listed: seq<NodeId>, queue: seq<NodeId>)

  ghost function WithoutPredecessors(g: Graph): NodeId -> bool {
    v => !HasPredecessor(g, v)
  }

  ghost function ReadyAfter(g: Graph, done: seq<NodeId>): NodeId -> bool {
    v => Ready(g, v, done)
  }

  /** The queue at the start: the nodes without predecessors, as registered. */
  ghost function Roots(g: Graph): seq<NodeId> {
    Filter(g.nodes, WithoutPredecessors(g))
  }

  /** What listing `node` adds to the queue: its successors that are now ready, each where its last edge
      from `node` is counted. */
  ghost function Released(g: Graph, done: seq<NodeId>, node: NodeId): seq<NodeId> {
    Filter(LastUses(g.Targets(node)), ReadyAfter(g, done + [node]))
  }

  /** The head of the queue is listed; what it releases goes to the end. */
  ghost function Next(g: Graph, w: Work): Work {
    if w.queue == [] then w
    else Work(w.listed + [w.queue[0]], w.queue[1..] + Released(g, w.listed, w.queue[0]))
  }

  ghost function After(g: Graph, n: nat): Work {
    if n == 0 then Work([], Roots(g)) else Next(g, After(g, n - 1))
  }

  ghost function Vertices(g: Graph): set<NodeId> {
    Elements(g.nodes) + EdgeTargets(g)
  }

  /** The list the sort makes.  (There are not more steps than vertices.) */
  ghost function Kahn(g: Graph): seq<NodeId> {
    After(g, |Vertices(g)|).listed
  }

  // ---------- What the queue holds ----------

  /** Listed or queued, each once, is exactly what is ready; and what is listed was. */
  ghost predicate Sound(g: Graph, w: Work) {
    && Distinct(w.listed + w.queue)
    && (forall v :: v in w.listed + w.queue <==> Ready(g, v, w.listed))
    && Justified(g, w.listed)
  }

  lemma {:induction false} ReleasedMeans(g: Graph, done: seq<NodeId>, node: NodeId, v: NodeId)
    ensures Distinct(Released(g, done, node))
    ensures v in Released(g, done, node) <==> g.Edge(node, v) && Ready(g, v, done + [node])
  {
    LastUsesMembers(g.Targets(node));
    FilterDistinct(LastUses(g.Targets(node)), ReadyAfter(g, done + [node]));
  }

  /** Listing one more vertex readies only its successors. */
  lemma {:induction false} ReadyOneLater(g: Graph, done: seq<NodeId>, node: NodeId, v: NodeId)
    requires node !in done
    ensures Ready(g, v, done + [node])
            <==> Ready(g, v, done) || (g.Edge(node, v) && Ready(g, v, done + [node]))
    ensures g.Edge(node, v) ==> !Ready(g, v, done)
  {
  }

  lemma {:induction false} SoundHead(g: Graph, w: Work)
    requires Sound(g, w) && w.queue != []
    ensures w.queue[0] !in w.listed && Ready(g, w.queue[0], w.listed)
    ensures w.listed + w.queue == w.listed + [w.queue[0]] + w.queue[1..]
  {
    assert w.listed + w.queue == w.listed + [w.queue[0]] + w.queue[1..];
    DistinctAround(w.listed, w.queue[0], w.queue[1..]);
    assert w.queue[0] in w.listed + w.queue;
  }

  lemma {:induction false} NextIsSound(g: Graph, w: Work)
    requires Sound(g, w)
    ensures Sound(g, Next(g, w))
  {
    if w.queue != [] {
      var node, seen := w.queue[0], w.listed + w.queue;
      var released := Released(g, w.listed, node);
      SoundHead(g, w);
      JustifiedAppend(g, w.listed, node);
      assert Next(g, w).listed + Next(g, w).queue == seen + released;
      forall v
        ensures v in seen + released <==> Ready(g, v, w.listed + [node])
        ensures v in released ==> v !in seen
      {
        ReleasedMeans(g, w.listed, node, v);
        ReadyOneLater(g, w.listed, node, v);
        assert v in seen <==> Ready(g, v, w.listed);
      }
      ReleasedMeans(g, w.listed, node, node);
      DistinctJoin(seen, released);
    }
  }

  lemma {:induction false} RootsAreSound(g: Graph)
    requires g.WellFormed()
    ensures Sound(g, Work([], Roots(g)))
  {
    assert [] + Roots(g) == Roots(g);
    FilterDistinct(g.nodes, WithoutPredecessors(g));
  }

  lemma {:induction false} AfterIsSound(g: Graph, n: nat)
    requires g.WellFormed()
    ensures Sound(g, After(g, n))
  {
    if n == 0 {
      RootsAreSound(g);
    } else {
      AfterIsSound(g, n - 1);
      NextIsSound(g, After(g, n - 1));
    }
  }

  // ---------- The queue runs empty ----------

  lemma {:induction false} OneListedPerStep(g: Graph, n: nat)
    ensures After(g, n).queue != [] ==> |After(g, n).listed| == n
  {
    if n > 0 {
      OneListedPerStep(g, n - 1);
    }
  }

  lemma {:induction false} SoundIsBounded(g: Graph, w: Work)
    requires Sound(g, w)
    ensures |w.listed| + |w.queue| <= |Vertices(g)|
  {
    var seen := w.listed + w.queue;
    forall v | v in seen
      ensures v in Vertices(g)
    {
      assert Ready(g, v, w.listed);
      if HasPredecessor(g, v) {
        var u :| g.Edge(u, v);
        assert v in EdgeTargets(g);
      }
    }
    DistinctCardinality(seen);
    SubsetCardinality(Elements(seen), Vertices(g));
  }

  lemma {:induction false} KahnIsComplete(g: Graph)
    requires g.WellFormed()
    ensures After(g, |Vertices(g)|) == Work(Kahn(g), [])
    ensures KahnList(g, Kahn(g))
  {
    var w := After(g, |Vertices(g)|);
    AfterIsSound(g, |Vertices(g)|);
    OneListedPerStep(g, |Vertices(g)|);
    SoundIsBounded(g, w);
    assert w.listed + [] == w.listed;
  }

  /** The step the loop of the sort takes. */
  lemma {:induction false} LoopStep(g: Graph, listed: seq<NodeId>, queue: seq<NodeId>)
    requires g.WellFormed() && Work(listed, queue) == After(g, |listed|) && queue != []
    ensures queue[0] !in listed && |listed| < |Vertices(g)|
    ensures Work(listed + [queue[0]], queue[1..] + Released(g, listed, queue[0])) == After(g, |listed| + 1)
  {
    AfterIsSound(g, |listed|);
    SoundHead(g, Work(listed, queue));
    SoundIsBounded(g, Work(listed, queue));
  }

  lemma {:induction false} EmptyQueueStays(g: Graph, n: nat, m: nat)
    requires n <= m && After(g, n).queue == []
    ensures After(g, m) == After(g, n)
  {
    if n < m {
      EmptyQueueStays(g, n, m - 1);
    }
  }

  /** Once the queue is empty, the list is complete. */
  lemma {:induction false} EmptyQueueEnds(g: Graph, n: nat)
    requires g.WellFormed() && After(g, n).queue == []
    ensures After(g, n).listed == Kahn(g)
  {
    KahnIsComplete(g);
    if n <= |Vertices(g)| {
      EmptyQueueStays(g, n, |Vertices(g)|);
    } else {
      EmptyQueueStays(g, |Vertices(g)|, n);
    }
  }

  // ---------- First in, first out ----------

  /** Vertices without predecessors are in the order of registration. */
  ghost predicate RootsInOrder(g: Graph, s: seq<NodeId>) {
    forall i, j {:trigger LastBefore(g.nodes, s[i], s[j])} ::
      0 <= i < j < |s| && !HasPredecessor(g, s[i]) && !HasPredecessor(g, s[j]) ==> LastBefore(g.nodes, s[i], s[j])
  }

  /** A later vertex has a predecessor at least as late as any of an earlier one. */
  ghost predicate FirstInFirstOut(g: Graph, s: seq<NodeId>) {
    forall a, i, j {:trigger g.Edge(s[a], s[i]), HasPredecessorFrom(g, s, a, j)} ::
      0 <= a < |s| && 0 <= i < j < |s| && g.Edge(s[a], s[i]) ==> HasPredecessorFrom(g, s, a, j)
  }

  ghost predicate HasPredecessorFrom(g: Graph, s: seq<NodeId>, a: int, j: int)
    requires 0 <= j < |s|
  {
    exists b :: a <= b < |s| && 0 <= b && g.Edge(s[b], s[j])
  }

  ghost predicate LastPredecessor(g: Graph, s: seq<NodeId>, a: int, i: int)
    requires 0 <= a < |s| && 0 <= i < |s|
  {
    g.Edge(s[a], s[i]) && forall b :: a < b < |s| ==> !g.Edge(s[b], s[i])
  }

  /** Vertices released by the same one are in the order of their last edges from it. */
  ghost predicate TiesByEdges(g: Graph, s: seq<NodeId>) {
    forall a, i, j {:trigger LastBefore(g.Targets(s[a]), s[i], s[j])} ::
      0 <= a < |s| && 0 <= i < j < |s| && LastPredecessor(g, s, a, i) && LastPredecessor(g, s, a, j)
      ==> LastBefore(g.Targets(s[a]), s[i], s[j])
  }

  ghost predicate Queued(g: Graph, s: seq<NodeId>) {
    RootsInOrder(g, s) && FirstInFirstOut(g, s) && TiesByEdges(g, s)
  }

  /** Everything seen has its predecessors among what is listed. */
  lemma {:induction false} PredecessorIsListed(g: Graph, w: Work, a: nat, i: nat)
    requires Sound(g, w)
    requires a < |w.listed + w.queue| && i < |w.listed + w.queue|
    requires g.Edge((w.listed + w.queue)[a], (w.listed + w.queue)[i])
    ensures a < |w.listed|
  {
    var s := w.listed + w.queue;
    assert s[i] in s && Ready(g, s[i], w.listed);
    assert s[a] in w.listed;
    var b :| 0 <= b < |w.listed| && w.listed[b] == s[a];
    assert s[b] == s[a];
  }

  /** One step, in terms of everything seen: `s` grows by `released`, whose members follow `s[n]`. */
  ghost predicate Grows(g: Graph, s: seq<NodeId>, n: nat, released: seq<NodeId>) {
    && n < |s|
    && (forall a, i :: 0 <= a < |s| && 0 <= i < |s| && g.Edge(s[a], s[i]) ==> a < n)
    && (forall a, i ::
          0 <= a < |s + released| && 0 <= i < |s + released| && g.Edge((s + released)[a], (s + released)[i]) ==> a <= n)
    && (forall i :: 0 <= i < |released| ==> g.Edge(s[n], released[i]))
    && (forall i, j :: 0 <= i < j < |released| ==> LastBefore(g.Targets(s[n]), released[i], released[j]))
  }

  lemma {:induction false} ReleasedInOrder(g: Graph, done: seq<NodeId>, node: NodeId, i: nat, j: nat)
    requires i < j < |Released(g, done, node)|
    ensures LastBefore(g.Targets(node), Released(g, done, node)[i], Released(g, done, node)[j])
  {
    var i', j' := FilterPositions(LastUses(g.Targets(node)), ReadyAfter(g, done + [node]), i, j);
    LastUsesOrdered(g.Targets(node), i', j');
  }

  lemma {:induction false} NextGrows(g: Graph, w: Work)
    requires Sound(g, w) && w.queue != []
    ensures var released := Released(g, w.listed, w.queue[0]);
            && Next(g, w).listed + Next(g, w).queue == w.listed + w.queue + released
            && Grows(g, w.listed + w.queue, |w.listed|, released)
  {
    var s, released := w.listed + w.queue, Released(g, w.listed, w.queue[0]);
    var next := Next(g, w);
    assert next.listed + next.queue == s + released;
    NextIsSound(g, w);
    forall a, i | 0 <= a < |s| && 0 <= i < |s| && g.Edge(s[a], s[i])
      ensures a < |w.listed|
    {
      PredecessorIsListed(g, w, a, i);
    }
    forall a, i | 0 <= a < |s + released| && 0 <= i < |s + released| && g.Edge((s + released)[a], (s + released)[i])
      ensures a <= |w.listed|
    {
      PredecessorIsListed(g, next, a, i);
    }
    forall i | 0 <= i < |released|
      ensures g.Edge(s[|w.listed|], released[i])
    {
      ReleasedMeans(g, w.listed, w.queue[0], released[i]);
    }
    forall i, j | 0 <= i < j < |released|
      ensures LastBefore(g.Targets(s[|w.listed|]), released[i], released[j])
    {
      ReleasedInOrder(g, w.listed, w.queue[0], i, j);
    }
  }

  lemma {:induction false} GrowthKeepsRoots(g: Graph, s: seq<NodeId>, n: nat, released: seq<NodeId>)
    requires RootsInOrder(g, s) && Grows(g, s, n, released)
    ensures RootsInOrder(g, s + released)
  {
    var t := s + released;
    forall i, j | 0 <= i < j < |t| && !HasPredecessor(g, t[i]) && !HasPredecessor(g, t[j])
      ensures LastBefore(g.nodes, t[i], t[j])
    {
      if j >= |s| {
        assert false;
      } else {
        assert t[i] == s[i] && t[j] == s[j];
      }
    }
  }

  lemma {:induction false} GrowthKeepsFifo(g: Graph, s: seq<NodeId>, n: nat, released: seq<NodeId>)
    requires FirstInFirstOut(g, s) && Grows(g, s, n, released)
    ensures FirstInFirstOut(g, s + released)
  {
    var t := s + released;
    forall a, i, j | 0 <= a < |t| && 0 <= i < j < |t| && g.Edge(t[a], t[i])
      ensures HasPredecessorFrom(g, t, a, j)
    {
      if j >= |s| {
        assert g.Edge(t[n], t[j]);
      } else {
        assert t[a] == s[a] && t[i] == s[i] && t[j] == s[j];
        assert HasPredecessorFrom(g, s, a, j);
        var b :| a <= b < |s| && 0 <= b && g.Edge(s[b], s[j]);
        assert t[b] == s[b];
      }
    }
  }

  lemma {:induction false} GrowthKeepsTies(g: Graph, s: seq<NodeId>, n: nat, released: seq<NodeId>)
    requires TiesByEdges(g, s) && Grows(g, s, n, released)
    ensures TiesByEdges(g, s + released)
  {
    var t := s + released;
    forall a, i, j | 0 <= a < |t| && 0 <= i < j < |t| && LastPredecessor(g, t, a, i) && LastPredecessor(g, t, a, j)
      ensures LastBefore(g.Targets(t[a]), t[i], t[j])
    {
      if j >= |s| {
        assert g.Edge(t[n], t[j]) && a == n && t[n] == s[n];
        if i < |s| {
          assert false;
        } else {
          assert t[i] == released[i - |s|] && t[j] == released[j - |s|];
        }
      } else {
        assert t[a] == s[a] && t[i] == s[i] && t[j] == s[j];
        assert forall b :: a < b < |s| ==> t[b] == s[b];
        assert LastPredecessor(g, s, a, i) && LastPredecessor(g, s, a, j);
      }
    }
  }

  lemma {:induction false} RootsAreRegistered(g: Graph, i: nat, j: nat)
    requires g.WellFormed() && i < j < |Roots(g)|
    ensures LastBefore(g.nodes, Roots(g)[i], Roots(g)[j])
  {
    var i', j' := FilterPositions(g.nodes, WithoutPredecessors(g), i, j);
    DistinctLastIndex(g.nodes, i');
    DistinctLastIndex(g.nodes, j');
  }

  lemma {:induction false} RootsAreQueued(g: Graph)
    requires g.WellFormed()
    ensures Queued(g, Roots(g))
  {
    var s := Roots(g);
    forall i, j | 0 <= i < j < |s|
      ensures LastBefore(g.nodes, s[i], s[j])
    {
      RootsAreRegistered(g, i, j);
    }
    forall i | 0 <= i < |s|
      ensures !HasPredecessor(g, s[i])
    {
      FilterMembers(g.nodes, WithoutPredecessors(g), s[i]);
    }
  }

  lemma {:induction false} AfterIsQueued(g: Graph, n: nat)
    requires g.WellFormed()
    ensures Queued(g, After(g, n).listed + After(g, n).queue)
  {
    if n == 0 {
      RootsAreQueued(g);
      assert [] + Roots(g) == Roots(g);
    } else {
      var w := After(g, n - 1);
      AfterIsQueued(g, n - 1);
      if w.queue != [] {
        var s, released := w.listed + w.queue, Released(g, w.listed, w.queue[0]);
        AfterIsSound(g, n - 1);
        NextGrows(g, w);
        GrowthKeepsRoots(g, s, |w.listed|, released);
        GrowthKeepsFifo(g, s, |w.listed|, released);
        GrowthKeepsTies(g, s, |w.listed|, released);
      }
    }
  }

  /** The sort lists first in, first out. */
  lemma {:induction false} KahnIsQueued(g: Graph)
    requires g.WellFormed()
    ensures Queued(g, Kahn(g))
  {
    KahnIsComplete(g);
    AfterIsQueued(g, |Vertices(g)|);
    assert Kahn(g) + [] == Kahn(g);
  }
}
