/** What the topological sort does on any graph: which vertices it never lists, and what the length
    test at its end then says. */
module BlockedWorkflows {
  import opened Sequences
  import opened WorkflowGraphs

  ghost predicate ClosedWalk(g: Graph, c: seq<NodeId>) {
    |c| >= 2 && c[0] == c[|c| - 1] && Path(g, c)
  }

  ghost predicate OnCycle(g: Graph, v: NodeId) {
    exists c :: ClosedWalk(g, c) && c[0] == v
  }

  /** An unregistered identifier without predecessors: nothing ever makes it ready. */
  ghost predicate Root(g: Graph, v: NodeId) {
    v !in g.nodes && !HasPredecessor(g, v)
  }

  /** A walk to `v` from a vertex that is never ready. */
  ghost predicate BlockingWalk(g: Graph, p: seq<NodeId>, v: NodeId) {
    p != [] && Path(g, p) && p[|p| - 1] == v && (Root(g, p[0]) || OnCycle(g, p[0]))
  }

  /** Downstream of a cycle or of an unregistered identifier without predecessors. */
  ghost predicate Blocked(g: Graph, v: NodeId) {
    exists p :: BlockingWalk(g, p, v)
  }

  // ---------- The sort lists exactly what is not blocked ----------

  lemma {:induction false} ListedWasReady(g: Graph, listed: seq<NodeId>, v: NodeId) returns (i: nat)
    requires Justified(g, listed) && v in listed
    ensures i < |listed| && Ready(g, v, listed[..i])
  {
    i :| i < |listed| && listed[i] == v;
    assert Ready(g, listed[i], listed[..i]);
  }

  lemma {:induction false} NeverReadyIsNotListed(g: Graph, listed: seq<NodeId>, v: NodeId)
    requires KahnList(g, listed) && (Root(g, v) || OnCycle(g, v))
    ensures v !in listed
  {
    if Root(g, v) {
      if v in listed {
        var i := ListedWasReady(g, listed, v);
        assert false;
      }
    } else {
      var c :| ClosedWalk(g, c) && c[0] == v;
      CycleIsNeverListed(g, listed, c, |listed|);
      assert listed[..|listed|] == listed;
    }
  }

  lemma {:induction false} BlockedIsNotListed(g: Graph, listed: seq<NodeId>, p: seq<NodeId>, n: nat)
    requires KahnList(g, listed)
    requires n < |p| && Path(g, p) && (Root(g, p[0]) || OnCycle(g, p[0]))
    ensures p[n] !in listed
  {
    if n == 0 {
      NeverReadyIsNotListed(g, listed, p[0]);
    } else {
      BlockedIsNotListed(g, listed, p, n - 1);
      assert Link(g, p, n - 1);
      if p[n] in listed {
        var i := ListedWasReady(g, listed, p[n]);
        assert false;
      }
    }
  }

  /** From an unlisted vertex one can walk back, over unlisted ones, for ever or to a root. */
  lemma {:induction false} UnlistedWalk(g: Graph, listed: seq<NodeId>, v: NodeId, n: nat) returns (p: seq<NodeId>)
    requires KahnList(g, listed) && v !in listed
    ensures p != [] && Path(g, p) && p[|p| - 1] == v && p[0] !in listed
    ensures |p| == n + 1 || Root(g, p[0])
  {
    if n == 0 {
      p := [v];
    } else {
      var q := UnlistedWalk(g, listed, v, n - 1);
      assert !Ready(g, q[0], listed);
      if Root(g, q[0]) {
        p := q;
      } else {
        var u :| g.Edge(u, q[0]) && u !in listed;
        p := [u] + q;
        forall i | 0 <= i < |p| - 1
          ensures Link(g, p, i)
        {
          assert i > 0 ==> Link(g, q, i - 1);
        }
      }
    }
  }

  lemma {:induction false} PartOfPath(g: Graph, p: seq<NodeId>, i: nat, j: nat)
    requires Path(g, p) && i <= j <= |p|
    ensures Path(g, p[i..j])
  {
    forall k | 0 <= k < |p[i..j]| - 1
      ensures Link(g, p[i..j], k)
    {
      assert Link(g, p, i + k);
    }
  }

  /** Every vertex of a path but the last is a source. */
  lemma {:induction false} PathStartsAreSources(g: Graph, p: seq<NodeId>)
    requires g.WellFormed() && Path(g, p) && p != []
    ensures Elements(p[..|p| - 1]) <= Elements(g.sources)
  {
    forall u | u in p[..|p| - 1]
      ensures u in g.sources
    {
      var i :| 0 <= i < |p| - 1 && p[i] == u;
      assert Link(g, p, i);
    }
  }

  lemma {:induction false} UnlistedIsBlocked(g: Graph, listed: seq<NodeId>, v: NodeId)
    requires g.WellFormed() && KahnList(g, listed) && v !in listed
    ensures Blocked(g, v)
  {
    var p := UnlistedWalk(g, listed, v, |Elements(g.sources)| + 1);
    if Root(g, p[0]) {
      assert BlockingWalk(g, p, v);
    } else {
      var starts := p[..|p| - 1];
      PathStartsAreSources(g, p);
      Pigeonhole(starts, Elements(g.sources));
      var i, j :| 0 <= i < j < |starts| && starts[i] == starts[j];
      PartOfPath(g, p, i, j + 1);
      PartOfPath(g, p, i, |p|);
      assert ClosedWalk(g, p[i..j + 1]) && p[i..j + 1][0] == p[i..][0];
      assert p[i..|p|] == p[i..];
      assert BlockingWalk(g, p[i..], v);
    }
  }

  /** On every graph the work list reaches exactly the vertices that are not blocked. */
  lemma {:induction false} ListedExactlyWhenNotBlocked(g: Graph, listed: seq<NodeId>, v: NodeId)
    requires g.WellFormed() && KahnList(g, listed)
    ensures v in listed <==> !Blocked(g, v)
  {
    if v !in listed {
      UnlistedIsBlocked(g, listed, v);
    } else if Blocked(g, v) {
      var p :| BlockingWalk(g, p, v);
      BlockedIsNotListed(g, listed, p, |p| - 1);
    }
  }

  // ---------- The length test ----------

  /** The unregistered identifiers the sort lists. */
  ghost function ListedStrangers(g: Graph): set<NodeId> {
    set v | v in EdgeTargets(g) && v !in g.nodes && !Blocked(g, v)
  }

  /** The registered nodes it does not list. */
  ghost function BlockedNodes(g: Graph): set<NodeId> {
    set v | v in g.nodes && Blocked(g, v)
  }

  lemma {:induction false} ListedElements(g: Graph, listed: seq<NodeId>)
    requires g.WellFormed() && KahnList(g, listed)
    ensures Elements(listed) == (Elements(g.nodes) - BlockedNodes(g)) + ListedStrangers(g)
  {
    forall v
      ensures v in listed <==> v in (Elements(g.nodes) - BlockedNodes(g)) + ListedStrangers(g)
    {
      ListedExactlyWhenNotBlocked(g, listed, v);
      if v in listed && v !in g.nodes {
        var i := ListedWasReady(g, listed, v);
        var u :| g.Edge(u, v);
        assert v in EdgeTargets(g);
      }
    }
  }

  /** The length test passes, on any graph, if and only if as many unregistered identifiers are listed as
      registered nodes are blocked. */
  lemma {:induction false} LengthTestPassesExactlyWhen(g: Graph, listed: seq<NodeId>)
    requires g.WellFormed() && KahnList(g, listed)
    ensures |listed| == |g.nodes| <==> |ListedStrangers(g)| == |BlockedNodes(g)|
  {
    ListedElements(g, listed);
    DistinctCardinality(listed);
    DistinctCardinality(g.nodes);
    var kept, strangers := Elements(g.nodes) - BlockedNodes(g), ListedStrangers(g);
    assert kept !! strangers;
    assert BlockedNodes(g) <= Elements(g.nodes);
    assert |kept + strangers| == |kept| + |strangers|;
    assert |kept| == |Elements(g.nodes)| - |BlockedNodes(g)|;
  }

  /** On an admissible graph no stranger is listed, and a node is blocked only where there is a cycle. */
  lemma {:induction false} AdmissibleBlocking(g: Graph, listed: seq<NodeId>)
    requires g.WellFormed() && KahnList(g, listed) && Admissible(g)
    ensures ListedStrangers(g) == {}
    ensures BlockedNodes(g) != {} <==> HasCycle(g)
  {
    ListedElements(g, listed);
    ListedAreRegistered(g, listed, |listed|);
    assert forall v :: v in ListedStrangers(g) ==> v in Elements(listed);
    if HasCycle(g) {
      var c :| Cycle(g, c);
      assert OnCycle(g, c[0]) by {
        assert ClosedWalk(g, c);
      }
      assert BlockingWalk(g, [c[0]], c[0]);
      assert c[0] in BlockedNodes(g);
    } else if v :| v in BlockedNodes(g) {
      ListedExactlyWhenNotBlocked(g, listed, v);
      UnlistedNodeGivesCycle(g, listed, v);
    }
  }

  /** The answer names an identifier that is no node if and only if the test passes although strangers
      are listed. */
  ghost predicate NamesAStranger(g: Graph) {
    ListedStrangers(g) != {} && |ListedStrangers(g)| == |BlockedNodes(g)|
  }

  ghost predicate AllRegistered(g: Graph, order: seq<NodeId>) {
    forall v :: v in order ==> v in g.nodes
  }

  lemma {:induction false} StrangersAreListed(g: Graph, listed: seq<NodeId>)
    requires g.WellFormed() && KahnList(g, listed)
    ensures AllRegistered(g, listed) <==> ListedStrangers(g) == {}
  {
    ListedElements(g, listed);
    assert forall v :: v in listed <==> v in Elements(listed);
    if ListedStrangers(g) != {} {
      var v :| v in ListedStrangers(g);
      assert v in listed && v !in g.nodes;
    }
  }

  lemma {:induction false} AnswerNamesAStrangerExactlyWhen(g: Graph, listed: seq<NodeId>)
    requires g.WellFormed() && KahnList(g, listed)
    ensures !AllRegistered(g, Answer(g, listed)) <==> NamesAStranger(g)
  {
    LengthTestPassesExactlyWhen(g, listed);
    StrangersAreListed(g, listed);
  }
}
