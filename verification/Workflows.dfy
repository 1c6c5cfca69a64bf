/** The workflow object: building the graph, and executing it node by node. */
module Workflows {
  import opened BlockedWorkflows
  import opened Sequences
  import opened WorkflowDepths
  import opened WorkflowGraphs
  import opened WorkflowInputs
  import opened WorkflowQueues
  import opened WorkflowSorts

  // ---------- The meaning of an execution ----------

  /** What running a node can come to: no agent has its role, a result, or an exception. */
  datatype Outcome<R> = NoAgent | Completed(result: R) | Raised

  datatype Status = Pending | Done | Failed

  /** The context a node receives: those of its inputs that have a result. */
  function Visible<R>(results: map<NodeId, R>, inputs: seq<NodeId>): map<NodeId, R> {
    map k | k in results && k in inputs :: results[k]
  }

  /** Node `n` has exactly the result that running it on the final results of its inputs gives. */
  ghost predicate Consistent<R>(n: NodeId, inputs: map<NodeId, seq<NodeId>>,
                                run: (NodeId, map<NodeId, R>) -> Outcome<R>, results: map<NodeId, R>)
    requires n in inputs
  {
    var outcome := run(n, Visible(results, inputs[n]));
    if outcome.Completed? then n in results && results[n] == outcome.result else n !in results
  }

  /** The status of `n` reports what running it on those results came to. */
  ghost predicate Marked<R>(n: NodeId, inputs: map<NodeId, seq<NodeId>>, run: (NodeId, map<NodeId, R>) -> Outcome<R>,
                            results: map<NodeId, R>, before: map<NodeId, Status>, status: map<NodeId, Status>)
    requires n in inputs
  {
    match run(n, Visible(results, inputs[n]))
    case Completed(_) => n in status && status[n] == Done
    case Raised => n in status && status[n] == Failed
    case NoAgent => (n in status <==> n in before) && (n in status ==> status[n] == before[n])
  }

  ghost predicate DataflowSolution<R>(g: Graph, inputs: map<NodeId, seq<NodeId>>,
                                      run: (NodeId, map<NodeId, R>) -> Outcome<R>, results: map<NodeId, R>)
    requires Elements(g.nodes) <= inputs.Keys
  {
    && results.Keys <= Elements(g.nodes)
    && forall n :: n in g.nodes ==> Consistent(n, inputs, run, results)
  }

  /** The equations of the first `n` nodes of the order hold. */
  ghost predicate Settled<R>(inputs: map<NodeId, seq<NodeId>>, run: (NodeId, map<NodeId, R>) -> Outcome<R>,
                             results: map<NodeId, R>, order: seq<NodeId>, n: nat)
    requires n <= |order| && Elements(order) == inputs.Keys
  {
    forall j :: 0 <= j < n ==> order[j] in Elements(order) && Consistent(order[j], inputs, run, results)
  }

  lemma {:induction false} SolutionsAgree<R>(inputs: map<NodeId, seq<NodeId>>,
                                             run: (NodeId, map<NodeId, R>) -> Outcome<R>, a: map<NodeId, R>,
                                             b: map<NodeId, R>, order: seq<NodeId>, n: nat)
    requires InputsEarlier(inputs, order) && n <= |order|
    requires a.Keys <= inputs.Keys && b.Keys <= inputs.Keys
    requires Settled(inputs, run, a, order, |order|) && Settled(inputs, run, b, order, |order|)
    ensures forall i :: 0 <= i < n ==> SameAt(a, b, order[i])
  {
    if n > 0 {
      SolutionsAgree(inputs, run, a, b, order, n - 1);
      var v := order[n - 1];
      assert v in Elements(order) && Consistent(v, inputs, run, a) && Consistent(v, inputs, run, b);
      forall k | k in inputs[v]
        ensures SameAt(a, b, k)
      {
        if k in Elements(order) {
          var i :| 0 <= i < |order| && order[i] == k;
          assert SameAt(a, b, order[i]);
        }
      }
      SameVisible(a, b, inputs[v]);
    }
  }

  predicate SameAt<R(==)>(a: map<NodeId, R>, b: map<NodeId, R>, k: NodeId) {
    (k in a <==> k in b) && (k in a ==> a[k] == b[k])
  }

  lemma {:induction false} SameVisible<R>(a: map<NodeId, R>, b: map<NodeId, R>, inputs: seq<NodeId>)
    requires forall k :: k in inputs ==> SameAt(a, b, k)
    ensures Visible(a, inputs) == Visible(b, inputs)
  {
    assert forall k :: k in Visible(a, inputs) <==> k in Visible(b, inputs) by {
      assert forall k :: k in inputs ==> SameAt(a, b, k);
    }
  }

  /** Where some order puts inputs first, the dataflow equations have at most one solution. */
  lemma {:induction false} SolutionIsUnique<R>(g: Graph, inputs: map<NodeId, seq<NodeId>>,
                                               run: (NodeId, map<NodeId, R>) -> Outcome<R>, a: map<NodeId, R>,
                                               b: map<NodeId, R>, order: seq<NodeId>)
    requires Elements(g.nodes) == inputs.Keys && InputsEarlier(inputs, order)
    requires DataflowSolution(g, inputs, run, a) && DataflowSolution(g, inputs, run, b)
    ensures a == b
  {
    forall j | 0 <= j < |order|
      ensures order[j] in Elements(order) && Consistent(order[j], inputs, run, a)
              && Consistent(order[j], inputs, run, b)
    {
      assert order[j] in Elements(order);
    }
    SolutionsAgree(inputs, run, a, b, order, |order|);
    forall k | k in a.Keys + b.Keys
      ensures SameAt(a, b, k)
    {
      assert k in Elements(order);
    }
    assert forall k :: k in a.Keys + b.Keys ==> SameAt(a, b, k);
  }

  /** One step of the execution loop keeps the equations of the nodes already run and
      establishes that of the node just run. */
  lemma {:induction false} StepSettles<R>(inputs: map<NodeId, seq<NodeId>>,
                                          run: (NodeId, map<NodeId, R>) -> Outcome<R>, results: map<NodeId, R>,
                                          order: seq<NodeId>, i: nat, after: map<NodeId, R>)
    requires InputsEarlier(inputs, order) && i < |order|
    requires order[i] in inputs
    requires results.Keys <= Elements(order[..i])
    requires Settled(inputs, run, results, order, i)
    requires var outcome := run(order[i], Visible(results, inputs[order[i]]));
             after == if outcome.Completed? then results[order[i] := outcome.result] else results
    ensures Settled(inputs, run, after, order, i + 1)
  {
    assert order[i] !in order[..i];
    forall j | 0 <= j <= i
      ensures order[j] in Elements(order) && Consistent(order[j], inputs, run, after)
    {
      assert order[j] in Elements(order);
      assert order[i] !in inputs[order[j]];
      SameVisible(results, after, inputs[order[j]]);
    }
  }

  /** What the run of `n` leaves behind. */
  ghost predicate Recorded<R>(n: NodeId, outcome: Outcome<R>, results: map<NodeId, R>, status: map<NodeId, Status>,
                              after: map<NodeId, R>, marked: map<NodeId, Status>) {
    && after == (if outcome.Completed? then results[n := outcome.result] else results)
    && marked ==
       if outcome.Completed? then status[n := Done] else if outcome.Raised? then status[n := Failed] else status
  }

  /** Results and statuses stem from the nodes run so far; other statuses are as before. */
  ghost predicate Accounted<R>(inputs: map<NodeId, seq<NodeId>>, before: map<NodeId, Status>, done: seq<NodeId>,
                               results: map<NodeId, R>, status: map<NodeId, Status>) {
    && (forall n :: n in results ==> n in inputs && n in done && n in status && status[n] == Done)
    && (forall n :: n in status ==> n in before || (n in done && n in inputs))
    && (forall n :: n in before ==> n in status && (n in done || status[n] == before[n]))
  }

  lemma {:induction false} StepAccounts<R>(inputs: map<NodeId, seq<NodeId>>, before: map<NodeId, Status>,
                                           done: seq<NodeId>, results: map<NodeId, R>, status: map<NodeId, Status>,
                                           n: NodeId, outcome: Outcome<R>, after: map<NodeId, R>,
                                           marked: map<NodeId, Status>)
    requires Accounted(inputs, before, done, results, status)
    requires n in inputs && n !in done && Recorded(n, outcome, results, status, after, marked)
    ensures Accounted(inputs, before, done + [n], after, marked)
  {
  }

  /** The statuses of the first `n` nodes of the order are right. */
  ghost predicate AllMarked<R>(inputs: map<NodeId, seq<NodeId>>, run: (NodeId, map<NodeId, R>) -> Outcome<R>,
                               results: map<NodeId, R>, before: map<NodeId, Status>, status: map<NodeId, Status>,
                               order: seq<NodeId>, n: nat)
    requires n <= |order| && Elements(order) == inputs.Keys
  {
    forall j :: 0 <= j < n ==> order[j] in Elements(order) && Marked(order[j], inputs, run, results, before, status)
  }

  lemma {:induction false} NewlyMarked<R>(inputs: map<NodeId, seq<NodeId>>,
                                          run: (NodeId, map<NodeId, R>) -> Outcome<R>, before: map<NodeId, Status>,
                                          done: seq<NodeId>, results: map<NodeId, R>, status: map<NodeId, Status>,
                                          n: NodeId, after: map<NodeId, R>, marked: map<NodeId, Status>)
    requires Accounted(inputs, before, done, results, status)
    requires n in inputs && n !in done
    requires Recorded(n, run(n, Visible(results, inputs[n])), results, status, after, marked)
    ensures Marked(n, inputs, run, results, before, marked)
  {
  }

  lemma {:induction false} StepMarks<R>(inputs: map<NodeId, seq<NodeId>>, run: (NodeId, map<NodeId, R>) -> Outcome<R>,
                                        results: map<NodeId, R>, before: map<NodeId, Status>,
                                        status: map<NodeId, Status>, order: seq<NodeId>, i: nat,
                                        after: map<NodeId, R>, marked: map<NodeId, Status>)
    requires InputsEarlier(inputs, order) && i < |order| && order[i] in inputs
    requires Accounted(inputs, before, order[..i], results, status)
    requires Recorded(order[i], run(order[i], Visible(results, inputs[order[i]])), results, status, after, marked)
    requires AllMarked(inputs, run, results, before, status, order, i)
    ensures AllMarked(inputs, run, after, before, marked, order, i + 1)
  {
    NewlyMarked(inputs, run, before, order[..i], results, status, order[i], after, marked);
    forall j | 0 <= j <= i
      ensures order[j] in Elements(order) && Marked(order[j], inputs, run, after, before, marked)
    {
      assert order[j] in Elements(order);
      assert order[i] !in inputs[order[j]];
      SameVisible(results, after, inputs[order[j]]);
      assert j < i ==> SameAt(status, marked, order[j]);
    }
  }

  lemma {:induction false} SettledSolves<R>(g: Graph, inputs: map<NodeId, seq<NodeId>>,
                                            run: (NodeId, map<NodeId, R>) -> Outcome<R>, results: map<NodeId, R>,
                                            order: seq<NodeId>)
    requires Elements(g.nodes) == inputs.Keys == Elements(order)
    requires results.Keys <= Elements(g.nodes)
    requires Settled(inputs, run, results, order, |order|)
    ensures DataflowSolution(g, inputs, run, results)
  {
    forall n | n in g.nodes
      ensures n in inputs && Consistent(n, inputs, run, results)
    {
      assert n in Elements(g.nodes) && n in Elements(order);
      var j :| 0 <= j < |order| && order[j] == n;
    }
  }

  lemma {:induction false} NodesMarked<R>(g: Graph, inputs: map<NodeId, seq<NodeId>>,
                                          run: (NodeId, map<NodeId, R>) -> Outcome<R>, results: map<NodeId, R>,
                                          before: map<NodeId, Status>, status: map<NodeId, Status>,
                                          order: seq<NodeId>)
    requires Elements(g.nodes) == inputs.Keys == Elements(order)
    requires AllMarked(inputs, run, results, before, status, order, |order|)
    ensures forall n :: n in g.nodes ==> n in inputs && Marked(n, inputs, run, results, before, status)
  {
    forall n | n in g.nodes
      ensures n in inputs && Marked(n, inputs, run, results, before, status)
    {
      assert n in Elements(g.nodes) && n in Elements(order);
      var j :| 0 <= j < |order| && order[j] == n;
    }
  }

  // ---------- The execution and the builder ----------

  method RunNode<R>(n: NodeId, inputs: seq<NodeId>, run: (NodeId, map<NodeId, R>) -> Outcome<R>,
                    results: map<NodeId, R>, status: map<NodeId, Status>)
    returns (after: map<NodeId, R>, marked: map<NodeId, Status>)
    ensures Recorded(n, run(n, Visible(results, inputs)), results, status, after, marked)
  {
    after, marked := results, status;
    var outcome := run(n, Visible(results, inputs));
    match outcome {
      case NoAgent =>
      case Raised =>
        marked := marked[n := Failed];
      case Completed(value) =>
        marked := marked[n := Done];
        after := after[n := value];
    }
  }

  /** What has a result when node `i` of the order runs comes before it, so it sees its earlier inputs. */
  lemma {:induction false} SeesEarlierInputs<R>(inputs: map<NodeId, seq<NodeId>>, results: map<NodeId, R>,
                                                order: seq<NodeId>, i: nat)
    requires Distinct(order) && i < |order| && order[i] in inputs
    requires forall k :: k in results ==> k in order[..i]
    ensures Visible(results, inputs[order[i]]) == Visible(results, EarlierInputs(inputs, order)[order[i]])
  {
    forall k | k in results
      ensures k in inputs[order[i]] <==> k in EarlierInputs(inputs, order)[order[i]]
    {
      EarlierInputsMean(inputs, order, i, k);
    }
  }

  /** The first `n` nodes of the order have the results and statuses their earlier inputs give. */
  ghost predicate RunSoFar<R>(inputs: map<NodeId, seq<NodeId>>, run: (NodeId, map<NodeId, R>) -> Outcome<R>,
                              results: map<NodeId, R>, before: map<NodeId, Status>, status: map<NodeId, Status>,
                              order: seq<NodeId>, n: nat)
    requires n <= |order| && Elements(order) == inputs.Keys
  {
    && Settled(EarlierInputs(inputs, order), run, results, order, n)
    && AllMarked(EarlierInputs(inputs, order), run, results, before, status, order, n)
  }

  lemma {:induction false} StepRuns<R>(inputs: map<NodeId, seq<NodeId>>, run: (NodeId, map<NodeId, R>) -> Outcome<R>,
                                       results: map<NodeId, R>, before: map<NodeId, Status>,
                                       status: map<NodeId, Status>, order: seq<NodeId>, i: nat, after: map<NodeId, R>,
                                       marked: map<NodeId, Status>)
    requires Distinct(order) && Elements(order) == inputs.Keys && i < |order| && order[i] in inputs
    requires Accounted(inputs, before, order[..i], results, status)
    requires Recorded(order[i], run(order[i], Visible(results, inputs[order[i]])), results, status, after, marked)
    requires RunSoFar(inputs, run, results, before, status, order, i)
    ensures RunSoFar(inputs, run, after, before, marked, order, i + 1)
  {
    EarlierInputsAreEarlier(inputs, order);
    SeesEarlierInputs(inputs, results, order, i);
    StepSettles(EarlierInputs(inputs, order), run, results, order, i, after);
    StepMarks(EarlierInputs(inputs, order), run, results, before, status, order, i, after, marked);
  }

  /** The context holds the results of just those inputs among `earlier` that have one. */
  ghost predicate Gathers<R>(context: map<NodeId, R>, results: map<NodeId, R>, inputs: seq<NodeId>,
                             earlier: seq<NodeId>) {
    && (forall k :: k in context <==> k in inputs && k in earlier && k in results)
    && forall k :: k in context ==> context[k] == results[k]
  }

  /** The run of `n` came to `outcome`: that is its result, and its status says so. */
  ghost predicate CameTo<R>(n: NodeId, outcome: Outcome<R>, results: map<NodeId, R>, before: map<NodeId, Status>,
                            status: map<NodeId, Status>) {
    match outcome
    case Completed(value) => n in results && results[n] == value && n in status && status[n] == Done
    case Raised => n !in results && n in status && status[n] == Failed
    case NoAgent => n !in results && (n in status <==> n in before) && (n in status ==> status[n] == before[n])
  }

  /** Node `n` was run on the results of its inputs among `earlier`, and what became of it is what that came to. */
  ghost predicate Explained<R(!new)>(n: NodeId, inputs: seq<NodeId>, earlier: seq<NodeId>,
                                     run: (NodeId, map<NodeId, R>) -> Outcome<R>, results: map<NodeId, R>,
                                     before: map<NodeId, Status>, status: map<NodeId, Status>) {
    exists context :: Gathers(context, results, inputs, earlier) && CameTo(n, run(n, context), results, before, status)
  }

  /** So it is with every node, given the inputs listed before it. */
  ghost predicate ExplainedInOrder<R(!new)>(inputs: map<NodeId, seq<NodeId>>,
                                            run: (NodeId, map<NodeId, R>) -> Outcome<R>, results: map<NodeId, R>,
                                            before: map<NodeId, Status>, status: map<NodeId, Status>,
                                            order: seq<NodeId>) {
    forall j :: 0 <= j < |order| ==>
      order[j] in inputs && Explained(order[j], inputs[order[j]], order[..j], run, results, before, status)
  }

  ghost predicate ExplainedFully<R(!new)>(nodes: seq<NodeId>, inputs: map<NodeId, seq<NodeId>>,
                                          run: (NodeId, map<NodeId, R>) -> Outcome<R>, results: map<NodeId, R>,
                                          before: map<NodeId, Status>, status: map<NodeId, Status>) {
    forall n :: n in nodes ==> n in inputs && Explained(n, inputs[n], nodes, run, results, before, status)
  }

  lemma {:induction false} ConsistentIsExplained<R(!new)>(n: NodeId, all: map<NodeId, seq<NodeId>>,
                                                          inputs: seq<NodeId>, earlier: seq<NodeId>,
                                                          run: (NodeId, map<NodeId, R>) -> Outcome<R>,
                                                          results: map<NodeId, R>, before: map<NodeId, Status>,
                                                          status: map<NodeId, Status>)
    requires n in all && Consistent(n, all, run, results) && Marked(n, all, run, results, before, status)
    requires forall k :: k in results ==> (k in all[n] <==> k in inputs && k in earlier)
    ensures Explained(n, inputs, earlier, run, results, before, status)
  {
    assert Gathers(Visible(results, all[n]), results, inputs, earlier);
  }

  lemma {:induction false} RunIsExplained<R(!new)>(inputs: map<NodeId, seq<NodeId>>,
                                                   run: (NodeId, map<NodeId, R>) -> Outcome<R>,
                                                   results: map<NodeId, R>, before: map<NodeId, Status>,
                                                   status: map<NodeId, Status>, order: seq<NodeId>)
    requires Distinct(order) && Elements(order) == inputs.Keys
    requires RunSoFar(inputs, run, results, before, status, order, |order|)
    ensures ExplainedInOrder(inputs, run, results, before, status, order)
  {
    forall j | 0 <= j < |order|
      ensures order[j] in inputs && Explained(order[j], inputs[order[j]], order[..j], run, results, before, status)
    {
      assert order[j] in Elements(order);
      forall k | k in results
        ensures k in EarlierInputs(inputs, order)[order[j]] <==> k in inputs[order[j]] && k in order[..j]
      {
        EarlierInputsMean(inputs, order, j, k);
      }
      ConsistentIsExplained(order[j], EarlierInputs(inputs, order), inputs[order[j]], order[..j], run, results, before,
                            status);
    }
  }

  lemma {:induction false} ExecutionIsExplained<R(!new)>(g: Graph, inputs: map<NodeId, seq<NodeId>>,
                                                         run: (NodeId, map<NodeId, R>) -> Outcome<R>,
                                                         results: map<NodeId, R>, before: map<NodeId, Status>,
                                                         status: map<NodeId, Status>)
    requires Elements(g.nodes) == inputs.Keys && Executed(g, inputs, run, results, before, status)
    ensures ExplainedFully(g.nodes, inputs, run, results, before, status)
  {
    forall n | n in g.nodes
      ensures n in inputs && Explained(n, inputs[n], g.nodes, run, results, before, status)
    {
      assert n in Elements(g.nodes);
      assert forall k :: k in results ==> k in Elements(g.nodes) && k in g.nodes;
      ConsistentIsExplained(n, inputs, inputs[n], g.nodes, run, results, before, status);
    }
  }

  /** The loop of the execution.  A listed identifier that is no node makes the lookup of its
      entry fail.  Each node sees exactly those of its inputs that come before it and have a result. */
  method RunInOrder<R(!new)>(order: seq<NodeId>, inputs: map<NodeId, seq<NodeId>>,
                             run: (NodeId, map<NodeId, R>) -> Outcome<R>, before: map<NodeId, Status>)
    returns (results: map<NodeId, R>, status: map<NodeId, Status>, crashed: bool)
    requires Distinct(order)
    ensures crashed <==> exists i :: 0 <= i < |order| && order[i] !in inputs
    ensures Accounted(inputs, before, order, results, status)
    ensures Elements(order) == inputs.Keys ==> RunSoFar(inputs, run, results, before, status, order, |order|)
    ensures Elements(order) == inputs.Keys ==> ExplainedInOrder(inputs, run, results, before, status, order)
  {
    results, status, crashed := map[], before, false;
    ghost var covered := Elements(order) == inputs.Keys;
    for i := 0 to |order|
      invariant !crashed && forall j :: 0 <= j < i ==> order[j] in inputs
      invariant Accounted(inputs, before, order[..i], results, status)
      invariant covered ==> RunSoFar(inputs, run, results, before, status, order, i)
    {
      var n := order[i];
      if n !in inputs {
        crashed := true;
        assert forall k :: k in order[..i] ==> k in order;
        return;
      }
      ghost var previous, statuses := results, status;
      assert n !in order[..i] && order[..i + 1] == order[..i] + [n];
      results, status := RunNode(n, inputs[n], run, results, status);
      StepAccounts(inputs, before, order[..i], previous, statuses, n, run(n, Visible(previous, inputs[n])),
                   results, status);
      if covered {
        StepRuns(inputs, run, previous, before, statuses, order, i, results, status);
      }
    }
    assert order[..|order|] == order;
    if covered {
      RunIsExplained(inputs, run, results, before, status, order);
    }
  }

  /** The results and statuses an execution along `order` ends with. */
  ghost predicate Executed<R>(g: Graph, inputs: map<NodeId, seq<NodeId>>, run: (NodeId, map<NodeId, R>) -> Outcome<R>,
                              results: map<NodeId, R>, before: map<NodeId, Status>, status: map<NodeId, Status>)
    requires Elements(g.nodes) == inputs.Keys
  {
    && DataflowSolution(g, inputs, run, results)
    && forall n :: n in g.nodes ==> Marked(n, inputs, run, results, before, status)
  }

  ghost predicate ExecutedInOrder<R>(g: Graph, inputs: map<NodeId, seq<NodeId>>,
                                     run: (NodeId, map<NodeId, R>) -> Outcome<R>, results: map<NodeId, R>,
                                     before: map<NodeId, Status>, status: map<NodeId, Status>, order: seq<NodeId>)
    requires Elements(g.nodes) == inputs.Keys
  {
    TopologicalOrder(g, order) && Executed(g, EarlierInputs(inputs, order), run, results, before, status)
  }

  lemma {:induction false} RunExecutes<R>(g: Graph, inputs: map<NodeId, seq<NodeId>>,
                                          run: (NodeId, map<NodeId, R>) -> Outcome<R>, results: map<NodeId, R>,
                                          before: map<NodeId, Status>, status: map<NodeId, Status>,
                                          order: seq<NodeId>)
    requires Elements(g.nodes) == inputs.Keys && TopologicalOrder(g, order)
    requires results.Keys <= Elements(g.nodes)
    requires RunSoFar(inputs, run, results, before, status, order, |order|)
    ensures ExecutedInOrder(g, inputs, run, results, before, status, order)
  {
    SettledSolves(g, EarlierInputs(inputs, order), run, results, order);
    NodesMarked(g, EarlierInputs(inputs, order), run, results, before, status, order);
  }

  /** Where inputs come first, each node has seen all its inputs. */
  lemma {:induction false} EarlierInputsAreSeen<R>(g: Graph, inputs: map<NodeId, seq<NodeId>>,
                                                   run: (NodeId, map<NodeId, R>) -> Outcome<R>,
                                                   results: map<NodeId, R>, before: map<NodeId, Status>,
                                                   status: map<NodeId, Status>, order: seq<NodeId>)
    requires InputsEarlier(inputs, order) && Elements(g.nodes) == inputs.Keys
    requires ExecutedInOrder(g, inputs, run, results, before, status, order)
    ensures Executed(g, inputs, run, results, before, status)
  {
    forall n | n in g.nodes
      ensures Visible(results, inputs[n]) == Visible(results, EarlierInputs(inputs, order)[n])
    {
      assert n in Elements(g.nodes);
      var j := Position(g, order, n);
      AllInputsSeen(inputs, results, order, j);
    }
  }

  lemma {:induction false} AllInputsSeen<R>(inputs: map<NodeId, seq<NodeId>>, results: map<NodeId, R>,
                                            order: seq<NodeId>, j: nat)
    requires InputsEarlier(inputs, order) && j < |order| && order[j] in inputs && results.Keys <= Elements(order)
    ensures Visible(results, inputs[order[j]]) == Visible(results, EarlierInputs(inputs, order)[order[j]])
  {
    forall k | k in results
      ensures k in inputs[order[j]] <==> k in EarlierInputs(inputs, order)[order[j]]
    {
      EarlierInputsMean(inputs, order, j, k);
      assert k in Elements(order);
      var i :| 0 <= i < |order| && order[i] == k;
      if k in inputs[order[j]] {
        assert order[..j][i] == k;
      }
    }
  }

  /** What the execution comes to.  It fails half-way if and only if the answer names an identifier that is no
      node.  An admissible acyclic workflow runs in the order of the sort: every node on its inputs that come
      earlier, which are all of them where every input is less deep than its node; it is given the results of
      just those, and its result and its status are what that run of it came to.  In any other case nothing
      runs. */
  ghost predicate Served<R(!new)>(g: Graph, inputs: map<NodeId, seq<NodeId>>,
                                  run: (NodeId, map<NodeId, R>) -> Outcome<R>, results: map<NodeId, R>,
                                  before: map<NodeId, Status>, status: map<NodeId, Status>, crashed: bool,
                                  order: seq<NodeId>)
    requires Elements(g.nodes) == inputs.Keys
  {
    && (crashed <==> NamesAStranger(g))
    && (Admissible(g) && !HasCycle(g) ==> ExecutedInOrder(g, inputs, run, results, before, status, order))
    && (Admissible(g) && !HasCycle(g) && InputsShallower(g, inputs)
        ==> Executed(g, inputs, run, results, before, status))
    && (Admissible(g) && !HasCycle(g) ==> ExplainedInOrder(inputs, run, results, before, status, order))
    && (Admissible(g) && !HasCycle(g) && InputsShallower(g, inputs)
        ==> ExplainedFully(g.nodes, inputs, run, results, before, status))
    && (!crashed && !(Admissible(g) && !HasCycle(g)) ==> results == map[] && status == before)
  }

  lemma {:induction false} AnswerOfTheSort(g: Graph)
    requires g.WellFormed()
    ensures !AllRegistered(g, Answer(g, Kahn(g))) <==> NamesAStranger(g)
    ensures Admissible(g) && !HasCycle(g) ==> Answer(g, Kahn(g)) == Kahn(g) && TopologicalOrder(g, Kahn(g))
    ensures Admissible(g) && !HasCycle(g) ==> !NamesAStranger(g)
  {
    KahnIsComplete(g);
    AnswerNamesAStrangerExactlyWhen(g, Kahn(g));
    if Admissible(g) && !HasCycle(g) {
      KahnIsOrder(g);
      forall v | v in Kahn(g)
        ensures v in g.nodes
      {
        assert v in Elements(Kahn(g));
      }
    }
  }

  lemma {:induction false} NothingToRun<R(!new)>(g: Graph, inputs: map<NodeId, seq<NodeId>>,
                                                 run: (NodeId, map<NodeId, R>) -> Outcome<R>,
                                                 status: map<NodeId, Status>)
    requires g.WellFormed() && Elements(g.nodes) == inputs.Keys && Answer(g, Kahn(g)) == []
    ensures Served(g, inputs, run, map[], status, status, false, Kahn(g))
  {
    AnswerOfTheSort(g);
    EmptyRun(g, inputs, run, status);
  }

  lemma {:induction false} RunOfTheAnswer<R(!new)>(g: Graph, inputs: map<NodeId, seq<NodeId>>,
                                                   run: (NodeId, map<NodeId, R>) -> Outcome<R>,
                                                   results: map<NodeId, R>, before: map<NodeId, Status>,
                                                   status: map<NodeId, Status>, crashed: bool)
    requires g.WellFormed() && Elements(g.nodes) == inputs.Keys && results.Keys <= inputs.Keys
    requires var order := Answer(g, Kahn(g));
             && order != []
             && (crashed <==> exists i :: 0 <= i < |order| && order[i] !in inputs)
             && (Elements(order) == inputs.Keys ==> RunSoFar(inputs, run, results, before, status, order, |order|))
    ensures Served(g, inputs, run, results, before, status, crashed, Kahn(g))
  {
    StrangerMeans(g, inputs, Answer(g, Kahn(g)));
    AnswerOfTheSort(g);
    if !crashed {
      RunToTheEnd(g, inputs, run, results, before, status);
    }
  }

  lemma {:induction false} StrangerMeans(g: Graph, inputs: map<NodeId, seq<NodeId>>, order: seq<NodeId>)
    requires Elements(g.nodes) == inputs.Keys
    ensures AllRegistered(g, order) <==> !exists i :: 0 <= i < |order| && order[i] !in inputs
  {
    assert forall n :: n in inputs <==> n in Elements(g.nodes);
    if i :| 0 <= i < |order| && order[i] !in inputs {
      assert order[i] in order;
    }
  }

  /** A run that does not fail was along a topological order. */
  lemma {:induction false} RunToTheEnd<R(!new)>(g: Graph, inputs: map<NodeId, seq<NodeId>>,
                                                run: (NodeId, map<NodeId, R>) -> Outcome<R>, results: map<NodeId, R>,
                                                before: map<NodeId, Status>, status: map<NodeId, Status>)
    requires g.WellFormed() && Elements(g.nodes) == inputs.Keys && results.Keys <= inputs.Keys
    requires var order := Answer(g, Kahn(g));
             && order != [] && AllRegistered(g, order)
             && (Elements(order) == inputs.Keys ==> RunSoFar(inputs, run, results, before, status, order, |order|))
    ensures Admissible(g) && !HasCycle(g)
    ensures ExecutedInOrder(g, inputs, run, results, before, status, Kahn(g))
    ensures InputsShallower(g, inputs) ==> Executed(g, inputs, run, results, before, status)
    ensures ExplainedInOrder(inputs, run, results, before, status, Kahn(g))
    ensures InputsShallower(g, inputs) ==> ExplainedFully(g.nodes, inputs, run, results, before, status)
  {
    RegisteredAnswerIsAnOrder(g);
    KahnIsOrder(g);
    RunExecutes(g, inputs, run, results, before, status, Kahn(g));
    RunIsExplained(inputs, run, results, before, status, Kahn(g));
    if InputsShallower(g, inputs) {
      ShallowerInputsAreEarlier(g, inputs);
      EarlierInputsAreSeen(g, inputs, run, results, before, status, Kahn(g));
      ExecutionIsExplained(g, inputs, run, results, before, status);
    }
  }

  /** Without nodes there is nothing to run. */
  lemma {:induction false} EmptyRun<R>(g: Graph, inputs: map<NodeId, seq<NodeId>>,
                                       run: (NodeId, map<NodeId, R>) -> Outcome<R>, status: map<NodeId, Status>)
    requires Elements(g.nodes) == inputs.Keys
    ensures TopologicalOrder(g, []) ==> ExecutedInOrder(g, inputs, run, map[], status, status, [])
    ensures TopologicalOrder(g, []) ==> Executed(g, inputs, run, map[], status, status)
  {
    if TopologicalOrder(g, []) {
      assert forall n :: n in g.nodes ==> n in Elements([]);
    }
  }

  /** A non-empty answer of registered nodes lists them all. */
  lemma {:induction false} RegisteredAnswerIsAnOrder(g: Graph)
    requires g.WellFormed() && Answer(g, Kahn(g)) != [] && AllRegistered(g, Answer(g, Kahn(g)))
    ensures TopologicalOrder(g, Answer(g, Kahn(g))) && Admissible(g) && !HasCycle(g)
  {
    var order := Answer(g, Kahn(g));
    KahnIsComplete(g);
    OrderExactlyWhenAdmissibleAndAcyclic(g, Kahn(g));
    DistinctCardinality(order);
    DistinctCardinality(g.nodes);
    assert Elements(order) <= Elements(g.nodes);
    SubsetCardinality(Elements(order), Elements(g.nodes));
    AnswerIsAnOrderExactlyWhenNodesListed(g, Kahn(g));
  }

  /** The execution after the sort. */
  method RunSorted<R(!new)>(ghost g: Graph, order: seq<NodeId>, inputs: map<NodeId, seq<NodeId>>,
                            run: (NodeId, map<NodeId, R>) -> Outcome<R>, before: map<NodeId, Status>)
    returns (results: map<NodeId, R>, status: map<NodeId, Status>, crashed: bool)
    requires g.WellFormed() && Elements(g.nodes) == inputs.Keys == before.Keys
    requires Distinct(order) && order == Answer(g, Kahn(g))
    ensures forall n :: n in status <==> n in inputs
    ensures Served(g, inputs, run, results, before, status, crashed, Kahn(g))
  {
    if order == [] {
      NothingToRun(g, inputs, run, before);
      return map[], before, false;
    }
    results, status, crashed := RunInOrder(order, inputs, run, before);
    assert forall n :: n in before <==> n in inputs;
    RunOfTheAnswer(g, inputs, run, results, before, status, crashed);
  }

  class WorkflowGraph {
    var nodes: seq<NodeId>
    var inputs: map<NodeId, seq<NodeId>>
    var status: map<NodeId, Status>
    var sources: seq<NodeId>
    var targets: map<NodeId, seq<NodeId>>

    ghost predicate Valid()
      reads this
    {
      && Snapshot().WellFormed()
      && (forall n :: n in nodes ==> n in targets)
      && (forall n :: n in nodes <==> n in inputs)
      && (forall n :: n in nodes <==> n in status)
    }

    function Snapshot(): Graph
      reads this
    {
      Graph(nodes, sources, targets)
    }

    constructor ()
      ensures Valid()
      ensures nodes == [] && targets == map[]
    {
      nodes, inputs, status, sources, targets := [], map[], map[], [], map[];
    }

    /** Registering a node again keeps its position but discards its outgoing edges. */
    method AddNode(id: NodeId, from: seq<NodeId>)
      requires Valid()
      modifies this
      ensures Valid()
      ensures nodes == if id in old(nodes) then old(nodes) else old(nodes) + [id]
      ensures targets == old(targets)[id := []]
      ensures inputs == old(inputs)[id := from] && status == old(status)[id := Pending]
    {
      if id !in nodes {
        nodes := nodes + [id];
      }
      if id !in targets {
        sources := sources + [id];
      }
      targets := targets[id := []];
      inputs, status := inputs[id := from], status[id := Pending];
    }

    method AddEdge(source: NodeId, target: NodeId)
      requires Valid()
      modifies `sources, `targets
      ensures Valid()
      ensures targets == old(targets)[source := old(Snapshot().Targets(source)) + [target]]
    {
      if source !in targets {
        sources := sources + [source];
        targets := targets[source := []];
      }
      targets := targets[source := targets[source] + [target]];
    }

    /** Sort, then run every node on the results so far. */
    method Execute<R(!new)>(run: (NodeId, map<NodeId, R>) -> Outcome<R>)
      returns (results: map<NodeId, R>, crashed: bool)
      requires Valid()
      modifies `status
      ensures Valid()
      ensures Served(old(Snapshot()), inputs, run, results, old(status), status, crashed, Kahn(old(Snapshot())))
    {
      var g := Snapshot();
      assert Elements(nodes) == inputs.Keys;
      assert inputs.Keys == status.Keys;
      var order := TopologicalSort(g);
      var marked;
      results, marked, crashed := RunSorted(g, order, inputs, run, status);
      status := marked;
    }
  }
}
