/** The batch optimizer: submissions collected under a lock, dispatched when the batch is full
    or its timer fires.  A lock-protected region never suspends, so each is one event here;
    events of different tasks interleave freely. */
module Batching {
  import opened Options
  import opened Sequences

  datatype Outcome<+R> = Waiting | Resolved(result: R) | Raised | Cancelled

  /** What the processor makes of a batch: results, or an exception. */
  type Processed<R> = Result<seq<R>, string>

  /** `items` and `outcomes` are indexed by submission; `pending` holds items with the index of
      their future; `live` are the timer tasks that were started and have neither finished nor
      been cancelled; `batches` is the history of dispatched batches. */
  datatype State<I, R> = State(items: seq<I>, outcomes: seq<Outcome<R>>, pending: seq<(I, nat)>,
                               timer: Option<nat>, live: set<nat>, started: nat, batches: seq<seq<nat>>)

  datatype Event<I> = Submit(item: I) | TimerFires(timer: nat) | WaiterCancelled(id: nat)

  function Initial<I, R>(): State<I, R> {
    State([], [], [], None, {}, 0, [])
  }

  function Items<I>(pending: seq<(I, nat)>): (r: seq<I>)
    ensures |r| == |pending| && forall i :: 0 <= i < |r| ==> r[i] == pending[i].0
  {
    if pending == [] then [] else Items(pending[..|pending| - 1]) + [pending[|pending| - 1].0]
  }

  function Futures<I>(pending: seq<(I, nat)>): (r: seq<nat>)
    ensures |r| == |pending| && forall i :: 0 <= i < |r| ==> r[i] == pending[i].1
  {
    if pending == [] then [] else Futures(pending[..|pending| - 1]) + [pending[|pending| - 1].1]
  }

  /** What position `i` of a batch gets: an exception reaches every future; results are handed
      out in order and run out when the processor returned too few. */
  function OutcomeAt<R>(processed: Processed<R>, i: nat): Outcome<R> {
    match processed
    case Failure(_) => Raised
    case Success(results) => if i < |results| then Resolved(results[i]) else Waiting
  }

  /** The futures after the first `n` of the batch have been served; finished ones are skipped. */
  function Served<R(==)>(outcomes: seq<Outcome<R>>, ids: seq<nat>, processed: Processed<R>,
                         n: nat): (r: seq<Outcome<R>>)
    requires n <= |ids| && forall i :: 0 <= i < |ids| ==> ids[i] < |outcomes|
    ensures |r| == |outcomes|
  {
    if n == 0 then outcomes else
    var before := Served(outcomes, ids, processed, n - 1);
    if before[ids[n - 1]] == Waiting then before[ids[n - 1] := OutcomeAt(processed, n - 1)] else before
  }

  predicate InRange<I, R>(s: State<I, R>) {
    forall i :: 0 <= i < |s.pending| ==> s.pending[i].1 < |s.outcomes|
  }

  function ProcessBatch<I, R(==)>(s: State<I, R>, process: seq<I> -> Processed<R>): State<I, R>
    requires InRange(s)
  {
    if s.pending == [] then s else
    var ids := Futures(s.pending);
    s.(pending := [], timer := None, live := if s.timer.Some? then s.live - {s.timer.value} else s.live,
       outcomes := Served(s.outcomes, ids, process(Items(s.pending)), |ids|),
       batches := s.batches + [ids])
  }

  function Enqueue<I, R>(s: State<I, R>, item: I): State<I, R> {
    var t := s.(items := s.items + [item], outcomes := s.outcomes + [Waiting],
                pending := s.pending + [(item, |s.outcomes|)]);
    if |t.pending| == 1
    then t.(timer := Some(s.started), live := s.live + {s.started}, started := s.started + 1)
    else t
  }

  function Step<I, R(==)>(batchSize: int, process: seq<I> -> Processed<R>, s: State<I, R>, e: Event<I>): State<I, R>
    requires InRange(s)
  {
    match e
    case Submit(item) =>
      var t := Enqueue(s, item);
      if |t.pending| >= batchSize then ProcessBatch(t, process) else t
    case TimerFires(timer) =>
      if timer !in s.live then s else
      var t := ProcessBatch(s, process);
      t.(live := t.live - {timer})
    case WaiterCancelled(id) =>
      if id < |s.outcomes| && s.outcomes[id] == Waiting then s.(outcomes := s.outcomes[id := Cancelled]) else s
  }

  // ---------- The invariant of every run ----------

  function Iota(n: nat): (r: seq<nat>)
    ensures |r| == n && forall i :: 0 <= i < n ==> r[i] == i
  {
    if n == 0 then [] else Iota(n - 1) + [n - 1]
  }

  function Flatten(batches: seq<seq<nat>>): seq<nat> {
    if batches == [] then [] else Flatten(batches[..|batches| - 1]) + batches[|batches| - 1]
  }

  lemma {:induction false} FlattenMembers(batches: seq<seq<nat>>, b: nat, i: nat)
    requires b < |batches| && i < |batches[b]|
    ensures batches[b][i] in Flatten(batches)
  {
    if b < |batches| - 1 {
      FlattenMembers(batches[..|batches| - 1], b, i);
    }
  }

  /** Submissions before this one have been dispatched. */
  function Dispatched<I, R>(s: State<I, R>): int {
    |s.items| - |s.pending|
  }

  /** The batches partition the dispatched submissions in order; what is pending is the rest. */
  ghost predicate Partitioned<I, R>(s: State<I, R>) {
    && |s.outcomes| == |s.items|
    && Dispatched(s) >= 0
    && Flatten(s.batches) == Iota(Dispatched(s))
    && forall i :: 0 <= i < |s.pending| ==> s.pending[i] == (s.items[Dispatched(s) + i], Dispatched(s) + i)
  }

  ghost predicate SizesBounded<I, R>(batchSize: int, s: State<I, R>) {
    && |s.pending| < Max(1, batchSize)
    && forall b :: 0 <= b < |s.batches| ==> 1 <= |s.batches[b]| <= Max(1, batchSize)
  }

  /** A timer is armed exactly while something is pending, and no other timer can still fire. */
  ghost predicate TimerMatches<I, R>(s: State<I, R>) {
    && (s.timer.Some? ==> s.timer.value < s.started)
    && (s.pending == [] <==> s.timer.None?)
    && s.live == if s.timer.Some? then {s.timer.value} else {}
  }

  /** The items of a batch. */
  function BatchItems<I>(items: seq<I>, ids: seq<nat>): (r: seq<I>)
    requires forall i :: 0 <= i < |ids| ==> ids[i] < |items|
    ensures |r| == |ids| && forall i :: 0 <= i < |r| ==> r[i] == items[ids[i]]
  {
    if ids == [] then [] else BatchItems(items, ids[..|ids| - 1]) + [items[ids[|ids| - 1]]]
  }

  /** The future of a dispatched submission holds its own result of its own batch, unless its
      waiter gave up. */
  ghost predicate ServedAt<I, R>(process: seq<I> -> Processed<R>, s: State<I, R>, b: nat, i: nat)
    requires b < |s.batches| && i < |s.batches[b]|
  {
    var ids := s.batches[b];
    && (forall j :: 0 <= j < |ids| ==> ids[j] < |s.items| && ids[j] < |s.outcomes|)
    && s.outcomes[ids[i]] in {Cancelled, OutcomeAt(process(BatchItems(s.items, ids)), i)}
  }

  ghost predicate AllServed<I, R>(process: seq<I> -> Processed<R>, s: State<I, R>) {
    && (forall b, i :: 0 <= b < |s.batches| && 0 <= i < |s.batches[b]| ==> ServedAt(process, s, b, i))
    && forall i :: 0 <= i < |s.pending| && s.pending[i].1 < |s.outcomes| ==>
         s.outcomes[s.pending[i].1] in {Waiting, Cancelled}
  }

  ghost predicate Invariant<I, R>(batchSize: int, process: seq<I> -> Processed<R>, s: State<I, R>) {
    Partitioned(s) && SizesBounded(batchSize, s) && TimerMatches(s) && AllServed(process, s)
  }

  lemma {:induction false} ServedMeans<R>(outcomes: seq<Outcome<R>>, ids: seq<nat>, processed: Processed<R>, n: nat)
    requires n <= |ids| && forall i :: 0 <= i < |ids| ==> ids[i] < |outcomes|
    requires Distinct(ids)
    ensures var r := Served(outcomes, ids, processed, n);
            && (forall i :: 0 <= i < n ==>
                  r[ids[i]] == if outcomes[ids[i]] == Waiting then OutcomeAt(processed, i) else outcomes[ids[i]])
            && (forall k :: 0 <= k < |outcomes| && k !in ids[..n] ==> r[k] == outcomes[k])
  {
    if n > 0 {
      ServedMeans(outcomes, ids, processed, n - 1);
      assert ids[..n] == ids[..n - 1] + [ids[n - 1]];
    }
  }

  /** Finished futures are never touched again. */
  lemma {:induction false} ServedKeepsFinished<R>(outcomes: seq<Outcome<R>>, ids: seq<nat>, processed: Processed<R>,
                                                  n: nat)
    requires n <= |ids| && forall i :: 0 <= i < |ids| ==> ids[i] < |outcomes|
    ensures var r := Served(outcomes, ids, processed, n);
            forall k :: 0 <= k < |outcomes| && outcomes[k] != Waiting ==> r[k] == outcomes[k]
  {
    if n > 0 {
      ServedKeepsFinished(outcomes, ids, processed, n - 1);
    }
  }

  lemma {:induction false} ProcessKeepsFinished<I, R>(process: seq<I> -> Processed<R>, s: State<I, R>, id: nat)
    requires InRange(s) && id < |s.outcomes| && s.outcomes[id] != Waiting
    ensures id < |ProcessBatch(s, process).outcomes|
    ensures ProcessBatch(s, process).outcomes[id] == s.outcomes[id]
  {
    ServedKeepsFinished(s.outcomes, Futures(s.pending), process(Items(s.pending)), |s.pending|);
  }

  lemma {:induction false} EnqueueInRange<I, R>(s: State<I, R>, item: I)
    requires InRange(s)
    ensures InRange(Enqueue(s, item))
  {
  }

  lemma {:induction false} StepKeepsFinished<I, R>(batchSize: int, process: seq<I> -> Processed<R>, s: State<I, R>,
                                                   e: Event<I>, id: nat)
    requires InRange(s) && id < |s.outcomes| && s.outcomes[id] != Waiting
    ensures id < |Step(batchSize, process, s, e).outcomes|
    ensures Step(batchSize, process, s, e).outcomes[id] == s.outcomes[id]
  {
    match e
    case Submit(item) =>
      EnqueueInRange(s, item);
      ProcessKeepsFinished(process, Enqueue(s, item), id);
    case TimerFires(timer) =>
      ProcessKeepsFinished(process, s, id);
    case WaiterCancelled(_) =>
  }

  // ---------- Preservation ----------

  lemma {:induction false} EnqueueKeeps<I, R>(batchSize: int, process: seq<I> -> Processed<R>, s: State<I, R>, item: I)
    requires Invariant(batchSize, process, s)
    ensures var t := Enqueue(s, item);
            Partitioned(t) && TimerMatches(t) && AllServed(process, t)
            && 1 <= |t.pending| <= Max(1, batchSize)
            && t.batches == s.batches
  {
    var t := Enqueue(s, item);
    forall b, i | 0 <= b < |t.batches| && 0 <= i < |t.batches[b]|
      ensures ServedAt(process, t, b, i)
    {
      assert ServedAt(process, s, b, i);
      assert BatchItems(s.items, s.batches[b]) == BatchItems(t.items, t.batches[b]);
    }
  }

  lemma {:induction false} PendingIsTheRest<I, R>(s: State<I, R>)
    requires Partitioned(s)
    ensures InRange(s)
    ensures var ids := Futures(s.pending);
            && Distinct(ids)
            && (forall i :: 0 <= i < |ids| ==> ids[i] == Dispatched(s) + i)
            && Iota(Dispatched(s)) + ids == Iota(|s.items|)
            && BatchItems(s.items, ids) == Items(s.pending)
  {
  }

  /** `t` is `s` after its pending submissions were dispatched as one batch. */
  ghost predicate DispatchedAsBatch<I, R>(process: seq<I> -> Processed<R>, s: State<I, R>, t: State<I, R>)
    requires InRange(s)
  {
    var ids := Futures(s.pending);
    && t.items == s.items && t.pending == [] && t.timer == None
    && t.live == (if s.timer.Some? then s.live - {s.timer.value} else s.live)
    && t.outcomes == Served(s.outcomes, ids, process(Items(s.pending)), |ids|)
    && t.batches == s.batches + [ids]
  }

  lemma {:induction false} OldBatchesStayServed<I, R>(process: seq<I> -> Processed<R>, s: State<I, R>, t: State<I, R>,
                                                      b: nat, i: nat)
    requires Partitioned(s) && AllServed(process, s) && InRange(s) && DispatchedAsBatch(process, s, t)
    requires b < |s.batches| && i < |s.batches[b]|
    ensures ServedAt(process, t, b, i)
  {
    var ids := Futures(s.pending);
    assert ServedAt(process, s, b, i);
    PendingIsTheRest(s);
    FlattenMembers(s.batches, b, i);
    ServedMeans(s.outcomes, ids, process(Items(s.pending)), |ids|);
    assert s.batches[b][i] !in ids[..|ids|];
  }

  lemma {:induction false} NewBatchIsServed<I, R>(process: seq<I> -> Processed<R>, s: State<I, R>, t: State<I, R>,
                                                  i: nat)
    requires Partitioned(s) && AllServed(process, s) && InRange(s) && DispatchedAsBatch(process, s, t)
    requires i < |s.pending|
    ensures ServedAt(process, t, |s.batches|, i)
  {
    var ids := Futures(s.pending);
    PendingIsTheRest(s);
    ServedMeans(s.outcomes, ids, process(Items(s.pending)), |ids|);
    assert s.outcomes[s.pending[i].1] in {Waiting, Cancelled};
  }

  lemma {:induction false} BatchPartitions<I, R>(process: seq<I> -> Processed<R>, s: State<I, R>, t: State<I, R>)
    requires Partitioned(s) && InRange(s) && DispatchedAsBatch(process, s, t)
    ensures Partitioned(t)
  {
    PendingIsTheRest(s);
    assert t.batches[..|s.batches|] == s.batches;
  }

  lemma {:induction false} BatchKeepsServed<I, R>(process: seq<I> -> Processed<R>, s: State<I, R>, t: State<I, R>)
    requires Partitioned(s) && AllServed(process, s) && InRange(s) && DispatchedAsBatch(process, s, t)
    ensures AllServed(process, t)
  {
    forall b, i | 0 <= b < |t.batches| && 0 <= i < |t.batches[b]|
      ensures ServedAt(process, t, b, i)
    {
      if b < |s.batches| {
        OldBatchesStayServed(process, s, t, b, i);
      } else {
        NewBatchIsServed(process, s, t, i);
      }
    }
  }

  lemma {:induction false} BatchIsBounded<I, R>(batchSize: int, process: seq<I> -> Processed<R>, s: State<I, R>,
                                                t: State<I, R>)
    requires TimerMatches(s) && InRange(s) && DispatchedAsBatch(process, s, t)
    requires 1 <= |s.pending| <= Max(1, batchSize)
    requires forall b :: 0 <= b < |s.batches| ==> 1 <= |s.batches[b]| <= Max(1, batchSize)
    ensures SizesBounded(batchSize, t) && TimerMatches(t)
  {
  }

  lemma {:induction false} ProcessDispatches<I, R>(process: seq<I> -> Processed<R>, s: State<I, R>)
    requires InRange(s) && s.pending != []
    ensures DispatchedAsBatch(process, s, ProcessBatch(s, process))
  {
  }

  lemma {:induction false} PartitionedInRange<I, R>(s: State<I, R>)
    requires Partitioned(s)
    ensures InRange(s)
  {
  }

  lemma {:induction false} BatchKeeps<I, R>(batchSize: int, process: seq<I> -> Processed<R>, s: State<I, R>,
                                            t: State<I, R>)
    requires Partitioned(s) && TimerMatches(s) && AllServed(process, s) && InRange(s)
    requires DispatchedAsBatch(process, s, t)
    requires 1 <= |s.pending| <= Max(1, batchSize)
    requires forall b :: 0 <= b < |s.batches| ==> 1 <= |s.batches[b]| <= Max(1, batchSize)
    ensures Invariant(batchSize, process, t)
  {
    BatchIsBounded(batchSize, process, s, t);
    BatchPartitions(process, s, t);
    BatchKeepsServed(process, s, t);
  }

  lemma {:induction false} ProcessKeeps<I, R>(batchSize: int, process: seq<I> -> Processed<R>, s: State<I, R>)
    requires Partitioned(s) && TimerMatches(s) && AllServed(process, s)
    requires 1 <= |s.pending| <= Max(1, batchSize)
    requires forall b :: 0 <= b < |s.batches| ==> 1 <= |s.batches[b]| <= Max(1, batchSize)
    ensures InRange(s) && Invariant(batchSize, process, ProcessBatch(s, process))
  {
    PartitionedInRange(s);
    ProcessDispatches(process, s);
    BatchKeeps(batchSize, process, s, ProcessBatch(s, process));
  }

  lemma {:induction false} CancelKeeps<I, R>(batchSize: int, process: seq<I> -> Processed<R>, s: State<I, R>, id: nat)
    requires Invariant(batchSize, process, s)
    requires id < |s.outcomes| && s.outcomes[id] == Waiting
    ensures Invariant(batchSize, process, s.(outcomes := s.outcomes[id := Cancelled]))
  {
    var t := s.(outcomes := s.outcomes[id := Cancelled]);
    forall b, i | 0 <= b < |t.batches| && 0 <= i < |t.batches[b]|
      ensures ServedAt(process, t, b, i)
    {
      assert ServedAt(process, s, b, i);
    }
  }

  lemma {:induction false} StepKeeps<I, R>(batchSize: int, process: seq<I> -> Processed<R>, s: State<I, R>, e: Event<I>)
    requires Invariant(batchSize, process, s)
    ensures InRange(s) && Invariant(batchSize, process, Step(batchSize, process, s, e))
  {
    match e
    case Submit(item) =>
      EnqueueKeeps(batchSize, process, s, item);
      if |Enqueue(s, item).pending| >= batchSize {
        ProcessKeeps(batchSize, process, Enqueue(s, item));
      }
    case TimerFires(timer) =>
      if timer in s.live {
        ProcessKeeps(batchSize, process, s);
        var t := ProcessBatch(s, process);
        assert t.live - {timer} == t.live;
      }
    case WaiterCancelled(id) =>
      if id < |s.outcomes| && s.outcomes[id] == Waiting {
        CancelKeeps(batchSize, process, s, id);
      }
  }

  /** The state after any interleaving of submissions, timers and cancelled waiters. */
  function Run<I, R(==)>(batchSize: int, process: seq<I> -> Processed<R>, events: seq<Event<I>>): (s: State<I, R>)
    ensures Invariant(batchSize, process, s)
  {
    if events == [] then Initial() else
    var s := Run(batchSize, process, events[..|events| - 1]);
    StepKeeps(batchSize, process, s, events[|events| - 1]);
    Step(batchSize, process, s, events[|events| - 1])
  }

  // ---------- Guarantees over whole runs ----------

  lemma {:induction false} FlattenFinds(batches: seq<seq<nat>>, id: nat) returns (b: nat, i: nat)
    requires id in Flatten(batches)
    ensures b < |batches| && i < |batches[b]| && batches[b][i] == id
  {
    var front, last := batches[..|batches| - 1], batches[|batches| - 1];
    if i' :| 0 <= i' < |last| && last[i'] == id {
      b, i := |batches| - 1, i';
    } else {
      b, i := FlattenFinds(front, id);
    }
  }

  /** Every dispatched future has, at its own position of its own batch, what the processor
      gave for that position, unless its waiter was cancelled first. */
  lemma {:induction false} DispatchedFutureIsServed<I, R>(batchSize: int, process: seq<I> -> Processed<R>,
                                                          events: seq<Event<I>>, id: nat)
    returns (b: nat, i: nat)
    requires id < Dispatched(Run(batchSize, process, events))
    ensures var s := Run(batchSize, process, events);
            && b < |s.batches| && i < |s.batches[b]| && s.batches[b][i] == id
            && ServedAt(process, s, b, i)
            && |s.batches[b]| <= Max(1, batchSize)
  {
    var s := Run(batchSize, process, events);
    assert Iota(Dispatched(s))[id] == id;
    b, i := FlattenFinds(s.batches, id);
  }

  lemma {:induction false} NextEventKeepsFinished<I, R>(batchSize: int, process: seq<I> -> Processed<R>,
                                                        events: seq<Event<I>>, e: Event<I>, id: nat)
    requires id < |Run(batchSize, process, events).outcomes|
    requires Run(batchSize, process, events).outcomes[id] != Waiting
    ensures id < |Run(batchSize, process, events + [e]).outcomes|
    ensures Run(batchSize, process, events + [e]).outcomes[id] == Run(batchSize, process, events).outcomes[id]
  {
    PartitionedInRange(Run(batchSize, process, events));
    StepKeepsFinished(batchSize, process, Run(batchSize, process, events), e, id);
    RunSnoc(batchSize, process, events, e);
  }

  /** A future is finished once: whatever it holds, no later event changes it. */
  lemma {:induction false} FinishedStaysFinished<I, R>(batchSize: int, process: seq<I> -> Processed<R>,
                                                       events: seq<Event<I>>, more: seq<Event<I>>, id: nat)
    requires id < |Run(batchSize, process, events).outcomes|
    requires Run(batchSize, process, events).outcomes[id] != Waiting
    ensures id < |Run(batchSize, process, events + more).outcomes|
    ensures Run(batchSize, process, events + more).outcomes[id] == Run(batchSize, process, events).outcomes[id]
  {
    if more == [] {
      assert events + more == events;
    } else {
      var front, last := more[..|more| - 1], more[|more| - 1];
      var all := events + front;
      assert events + more == all + [last];
      FinishedStaysFinished(batchSize, process, events, front, id);
      NextEventKeepsFinished(batchSize, process, all, last, id);
    }
  }

  /** The processor answers a whole batch: it raises, or returns at least one result per item. */
  predicate AnswersAll<R>(processed: Processed<R>, n: nat) {
    processed.Success? ==> |processed.value| >= n
  }

  ghost predicate NobodyIsStranded<I(!new), R>(batchSize: int, process: seq<I> -> Processed<R>) {
    forall events: seq<Event<I>>, id: nat ::
      id < Dispatched(Run(batchSize, process, events)) ==> Run(batchSize, process, events).outcomes[id] != Waiting
  }

  function Submits<I>(items: seq<I>): (r: seq<Event<I>>)
    ensures |r| == |items|
  {
    if items == [] then [] else Submits(items[..|items| - 1]) + [Submit(items[|items| - 1])]
  }

  lemma {:induction false} RunSnoc<I, R>(batchSize: int, process: seq<I> -> Processed<R>, events: seq<Event<I>>,
                                         e: Event<I>)
    ensures Run(batchSize, process, events + [e]) == Step(batchSize, process, Run(batchSize, process, events), e)
  {
    assert (events + [e])[..|events|] == events;
  }

  /** Nothing has been dispatched and every waiter still waits. */
  ghost predicate AllWaiting<I, R>(s: State<I, R>, items: seq<I>) {
    && s.items == items && |s.pending| == |items| == |s.outcomes|
    && forall i :: 0 <= i < |items| ==> s.outcomes[i] == Waiting
  }

  lemma {:induction false} SubmitWaits<I, R>(batchSize: int, process: seq<I> -> Processed<R>, s: State<I, R>,
                                             front: seq<I>, last: I)
    requires InRange(s) && AllWaiting(s, front) && |front| + 1 < Max(1, batchSize)
    ensures AllWaiting(Step(batchSize, process, s, Submit(last)), front + [last])
  {
    EnqueueWaits(s, front, last);
  }

  lemma {:induction false} NextSubmitWaits<I, R>(batchSize: int, process: seq<I> -> Processed<R>,
                                                 events: seq<Event<I>>, front: seq<I>, last: I)
    requires AllWaiting(Run(batchSize, process, events), front) && |front| + 1 < Max(1, batchSize)
    ensures AllWaiting(Run(batchSize, process, events + [Submit(last)]), front + [last])
  {
    PartitionedInRange(Run(batchSize, process, events));
    SubmitWaits(batchSize, process, Run(batchSize, process, events), front, last);
    RunSnoc(batchSize, process, events, Submit(last));
  }

  /** Submissions that do not fill a batch just wait behind the timer. */
  lemma {:induction false} SubmitsWait<I, R>(batchSize: int, process: seq<I> -> Processed<R>, items: seq<I>)
    requires |items| < Max(1, batchSize)
    ensures AllWaiting(Run(batchSize, process, Submits(items)), items)
  {
    if items == [] {
      assert Submits(items) == [];
    } else {
      var front, last := items[..|items| - 1], items[|items| - 1];
      var events := Submits(front);
      assert front + [last] == items;
      assert Submits(items) == events + [Submit(last)];
      SubmitsWait(batchSize, process, front);
      NextSubmitWaits(batchSize, process, events, front, last);
    }
  }

  lemma {:induction false} EnqueueWaits<I, R>(s: State<I, R>, front: seq<I>, last: I)
    requires AllWaiting(s, front)
    ensures AllWaiting(Enqueue(s, last), front + [last])
  {
  }

  lemma {:induction false} ServedOne<R>(outcomes: seq<Outcome<R>>, ids: seq<nat>, processed: Processed<R>, i: nat)
    requires i < |ids| && forall j :: 0 <= j < |ids| ==> ids[j] < |outcomes|
    requires Distinct(ids) && outcomes[ids[i]] == Waiting
    ensures Served(outcomes, ids, processed, |ids|)[ids[i]] == OutcomeAt(processed, i)
  {
    ServedMeans(outcomes, ids, processed, |ids|);
  }

  /** The last of `items` has been dispatched, and got what the processor has at its position. */
  ghost predicate LastAnswered<I, R>(process: seq<I> -> Processed<R>, items: seq<I>, s: State<I, R>) {
    && Dispatched(s) == |items| == |s.outcomes| >= 1
    && s.outcomes[|items| - 1] == OutcomeAt(process(items), |items| - 1)
  }

  lemma {:induction false} PendingIsEverything<I, R>(s: State<I, R>, items: seq<I>)
    requires Partitioned(s) && AllWaiting(s, items)
    ensures InRange(s)
    ensures Items(s.pending) == items
    ensures Distinct(Futures(s.pending)) && forall i :: 0 <= i < |items| ==> Futures(s.pending)[i] == i
  {
  }

  lemma {:induction false} BatchAnswersLast<I, R>(process: seq<I> -> Processed<R>, s: State<I, R>, t: State<I, R>,
                                                  items: seq<I>)
    requires InRange(s) && AllWaiting(s, items) && items != []
    requires Items(s.pending) == items && Distinct(Futures(s.pending)) && Futures(s.pending)[|items| - 1] == |items| - 1
    requires DispatchedAsBatch(process, s, t)
    ensures LastAnswered(process, items, t)
  {
    ServedOne(s.outcomes, Futures(s.pending), process(items), |items| - 1);
  }

  lemma {:induction false} ProcessAnswersLast<I, R>(process: seq<I> -> Processed<R>, s: State<I, R>, items: seq<I>)
    requires Partitioned(s) && AllWaiting(s, items) && items != []
    ensures InRange(s)
    ensures LastAnswered(process, items, ProcessBatch(s, process))
  {
    PendingIsEverything(s, items);
    ProcessDispatches(process, s);
    BatchAnswersLast(process, s, ProcessBatch(s, process), items);
  }

  lemma {:induction false} FullBatchAnswers<I, R>(batchSize: int, process: seq<I> -> Processed<R>, s: State<I, R>,
                                                  front: seq<I>, last: I)
    requires Invariant(batchSize, process, s) && InRange(s) && AllWaiting(s, front) && |front| + 1 >= batchSize
    ensures LastAnswered(process, front + [last], Step(batchSize, process, s, Submit(last)))
  {
    EnqueueWaits(s, front, last);
    EnqueueKeeps(batchSize, process, s, last);
    ProcessAnswersLast(process, Enqueue(s, last), front + [last]);
  }

  lemma {:induction false} TimerAnswers<I, R>(batchSize: int, process: seq<I> -> Processed<R>, s: State<I, R>,
                                              items: seq<I>)
    requires Invariant(batchSize, process, s) && InRange(s) && AllWaiting(s, items) && items != []
    ensures s.timer.Some?
    ensures LastAnswered(process, items, Step(batchSize, process, s, TimerFires(s.timer.value)))
  {
    ProcessAnswersLast(process, s, items);
  }

  lemma {:induction false} TimerWitness<I, R>(batchSize: int, process: seq<I> -> Processed<R>, items: seq<I>)
    returns (events: seq<Event<I>>)
    requires 1 <= |items| < batchSize
    ensures LastAnswered(process, items, Run(batchSize, process, events))
  {
    var s := Run(batchSize, process, Submits(items));
    SubmitsWait(batchSize, process, items);
    PartitionedInRange(s);
    TimerAnswers(batchSize, process, s, items);
    RunSnoc(batchSize, process, Submits(items), TimerFires(s.timer.value));
    events := Submits(items) + [TimerFires(s.timer.value)];
  }

  lemma {:induction false} FullBatchWitness<I, R>(batchSize: int, process: seq<I> -> Processed<R>, front: seq<I>,
                                                  last: I)
    returns (events: seq<Event<I>>)
    requires batchSize <= |front| + 1 <= Max(1, batchSize)
    ensures LastAnswered(process, front + [last], Run(batchSize, process, events))
  {
    var s := Run(batchSize, process, Submits(front));
    SubmitsWait(batchSize, process, front);
    PartitionedInRange(s);
    FullBatchAnswers(batchSize, process, s, front, last);
    RunSnoc(batchSize, process, Submits(front), Submit(last));
    events := Submits(front) + [Submit(last)];
  }

  /** A full batch, or a partial one whose timer fires, for any items that fit a batch. */
  lemma {:induction false} DispatchWitness<I, R>(batchSize: int, process: seq<I> -> Processed<R>, items: seq<I>)
    returns (events: seq<Event<I>>)
    requires 1 <= |items| <= Max(1, batchSize)
    ensures LastAnswered(process, items, Run(batchSize, process, events))
  {
    if |items| < batchSize {
      events := TimerWitness(batchSize, process, items);
    } else {
      assert items[..|items| - 1] + [items[|items| - 1]] == items;
      events := FullBatchWitness(batchSize, process, items[..|items| - 1], items[|items| - 1]);
    }
  }

  /** Every dispatched submission is answered, in every interleaving, exactly when the processor
      answers every batch it can be given.  A short result list strands its last submitters. */
  lemma {:induction false} NobodyIsStrandedExactlyWhen<I(!new), R>(batchSize: int, process: seq<I> -> Processed<R>)
    ensures NobodyIsStranded(batchSize, process) <==>
            forall items: seq<I> :: 1 <= |items| <= Max(1, batchSize) ==> AnswersAll(process(items), |items|)
  {
    if forall items: seq<I> :: 1 <= |items| <= Max(1, batchSize) ==> AnswersAll(process(items), |items|) {
      forall events: seq<Event<I>>, id: nat | id < Dispatched(Run(batchSize, process, events))
        ensures Run(batchSize, process, events).outcomes[id] != Waiting
      {
        var b, i := DispatchedFutureIsServed(batchSize, process, events, id);
        var s := Run(batchSize, process, events);
        assert AnswersAll(process(BatchItems(s.items, s.batches[b])), |s.batches[b]|);
      }
    } else {
      var items: seq<I> :| 1 <= |items| <= Max(1, batchSize) && !AnswersAll(process(items), |items|);
      var events := DispatchWitness(batchSize, process, items);
      assert Run(batchSize, process, events).outcomes[|items| - 1] == Waiting;
    }
  }

  /** Whatever is pending is one timer away from being dispatched, and that timer is armed. */
  lemma {:induction false} PendingIsDispatchedByItsTimer<I, R>(batchSize: int, process: seq<I> -> Processed<R>,
      events: seq<Event<I>>)
    requires Run(batchSize, process, events).pending != []
    ensures var s := Run(batchSize, process, events);
            && s.timer.Some? && s.live == {s.timer.value}
            && var t := Run(batchSize, process, events + [TimerFires(s.timer.value)]);
               t.pending == [] && Dispatched(t) == |s.items|
  {
    var s := Run(batchSize, process, events);
    assert (events + [TimerFires(s.timer.value)])[..|events|] == events;
  }

  // ---------- By the trace of events ----------

  /** The items submitted, in order. */
  function Submitted<I>(events: seq<Event<I>>): seq<I> {
    if events == [] then [] else
    var before := Submitted(events[..|events| - 1]);
    match events[|events| - 1]
    case Submit(item) => before + [item]
    case _ => before
  }

  lemma {:induction false} RunItems<I, R>(batchSize: int, process: seq<I> -> Processed<R>, events: seq<Event<I>>)
    ensures Run(batchSize, process, events).items == Submitted(events)
  {
    if events != [] {
      RunItems(batchSize, process, events[..|events| - 1]);
    }
  }

  lemma {:induction false} IotaStarts(n: nat, m: nat)
    requires m <= n
    ensures Iota(n)[..m] == Iota(m)
  {
  }

  lemma {:induction false} BatchesAreRanges(batches: seq<seq<nat>>, n: nat, b: nat, i: nat)
    requires Flatten(batches) == Iota(n) && b < |batches| && i < |batches[b]|
    ensures batches[b][i] == batches[b][0] + i && batches[b][0] + |batches[b]| <= n
  {
    var front, last := batches[..|batches| - 1], batches[|batches| - 1];
    var m := |Flatten(front)|;
    assert Flatten(front) + last == Iota(n);
    assert (Flatten(front) + last)[..m] == Flatten(front);
    if b < |front| {
      IotaStarts(n, m);
      BatchesAreRanges(front, m, b, i);
    } else {
      assert last[i] == (Flatten(front) + last)[m + i] && last[0] == (Flatten(front) + last)[m];
    }
  }

  lemma {:induction false} BatchIsARange<I, R>(s: State<I, R>, b: nat, i: nat)
    requires Partitioned(s) && b < |s.batches| && i < |s.batches[b]|
    ensures var ids := s.batches[b];
            && i <= ids[i] && ids[i] - i + |ids| <= |s.items|
            && (forall j :: 0 <= j < |ids| ==> ids[j] < |s.items|)
            && BatchItems(s.items, ids) == s.items[ids[i] - i..ids[i] - i + |ids|]
  {
    var ids := s.batches[b];
    forall j | 0 <= j < |ids|
      ensures ids[j] == ids[0] + j && ids[0] + |ids| <= |s.items|
    {
      BatchesAreRanges(s.batches, Dispatched(s), b, j);
    }
  }

  /** `outcome` is what the waiter at position `i` of `batch` gets: the result at its position, or the exception,
      and it waits on when the results ran out before; unless it was cancelled. */
  ghost predicate Answered<I, R>(process: seq<I> -> Processed<R>, batch: seq<I>, i: nat, outcome: Outcome<R>) {
    outcome == Cancelled
    || match process(batch)
       case Failure(_) => outcome == Raised
       case Success(results) => outcome == if i < |results| then Resolved(results[i]) else Waiting
  }

  /** What a dispatched submission gets, in terms of the events alone.  It was processed as the item at some
      position of a batch of consecutive submissions, no larger than the batch size. */
  lemma {:induction false} DispatchedFutureHolds<I, R>(batchSize: int, process: seq<I> -> Processed<R>,
                                                       events: seq<Event<I>>, id: nat)
    returns (batch: seq<I>, i: nat)
    requires id < Dispatched(Run(batchSize, process, events))
    ensures i < |batch| <= Max(1, batchSize)
    ensures i <= id && id - i + |batch| <= |Submitted(events)|
    ensures batch == Submitted(events)[id - i..id - i + |batch|]
    ensures id < |Run(batchSize, process, events).outcomes|
    ensures Answered(process, batch, i, Run(batchSize, process, events).outcomes[id])
  {
    var s := Run(batchSize, process, events);
    var b;
    b, i := DispatchedFutureIsServed(batchSize, process, events, id);
    RunItems(batchSize, process, events);
    batch := ServedFutureHolds(process, s, b, i);
  }

  lemma {:induction false} ServedFutureHolds<I, R>(process: seq<I> -> Processed<R>, s: State<I, R>, b: nat, i: nat)
    returns (batch: seq<I>)
    requires Partitioned(s) && b < |s.batches| && i < |s.batches[b]| && ServedAt(process, s, b, i)
    ensures var id := s.batches[b][i];
            && |batch| == |s.batches[b]| && i <= id < |s.outcomes| && id - i + |batch| <= |s.items|
            && batch == s.items[id - i..id - i + |batch|]
            && Answered(process, batch, i, s.outcomes[id])
  {
    BatchIsARange(s, b, i);
    batch := BatchItems(s.items, s.batches[b]);
  }

  /** A submission dispatches the batch it completes, and no other. */
  lemma {:induction false} SubmissionDispatchesExactlyWhenFull<I, R>(batchSize: int, process: seq<I> -> Processed<R>,
      events: seq<Event<I>>, item: I)
    ensures var s, t := Run(batchSize, process, events), Run(batchSize, process, events + [Submit(item)]);
            && |t.items| == |s.items| + 1
            && Dispatched(t) == if |s.pending| + 1 >= batchSize then |t.items| else Dispatched(s)
  {
    RunSnoc(batchSize, process, events, Submit(item));
    PartitionedInRange(Run(batchSize, process, events));
    EnqueueInRange(Run(batchSize, process, events), item);
    StepDispatches(batchSize, process, Run(batchSize, process, events), item);
  }

  lemma {:induction false} StepDispatches<I, R>(batchSize: int, process: seq<I> -> Processed<R>, s: State<I, R>,
                                                item: I)
    requires InRange(s) && InRange(Enqueue(s, item))
    ensures var t := Step(batchSize, process, s, Submit(item));
            && t.items == s.items + [item]
            && t.pending == if |s.pending| + 1 >= batchSize then [] else s.pending + [(item, |s.outcomes|)]
  {
  }

  /** A timer that is not the armed one does nothing. */
  lemma {:induction false} StaleTimerDoesNothing<I, R>(batchSize: int, process: seq<I> -> Processed<R>,
                                                       events: seq<Event<I>>, timer: nat)
    requires Run(batchSize, process, events).timer != Some(timer)
    ensures Run(batchSize, process, events + [TimerFires(timer)]) == Run(batchSize, process, events)
  {
    RunSnoc(batchSize, process, events, TimerFires(timer));
  }

  /** A waiter that is cancelled while it waits stays cancelled for good, and no other future is affected. */
  lemma {:induction false} CancelledWaiterStaysCancelled<I, R>(batchSize: int, process: seq<I> -> Processed<R>,
      events: seq<Event<I>>, more: seq<Event<I>>, id: nat)
    requires id < |Run(batchSize, process, events).outcomes|
    requires Run(batchSize, process, events).outcomes[id] == Waiting
    ensures var s, t := Run(batchSize, process, events), Run(batchSize, process, events + [WaiterCancelled(id)]);
            |t.outcomes| == |s.outcomes|
            && forall k :: 0 <= k < |s.outcomes| && k != id ==> t.outcomes[k] == s.outcomes[k]
    ensures id < |Run(batchSize, process, events + [WaiterCancelled(id)] + more).outcomes|
    ensures Run(batchSize, process, events + [WaiterCancelled(id)] + more).outcomes[id] == Cancelled
  {
    RunSnoc(batchSize, process, events, WaiterCancelled(id));
    FinishedStaysFinished(batchSize, process, events + [WaiterCancelled(id)], more, id);
  }

  // ---------- The optimizer object ----------

  class BatchOptimizer<I, R(==)> {
    const batchSize: int
    const process: seq<I> -> Processed<R>
    var pending: seq<(I, nat)>
    var batchTask: Option<nat>
    var futures: seq<Outcome<R>>
    var liveTimers: set<nat>
    var timersStarted: nat
    ghost var items: seq<I>
    ghost var batches: seq<seq<nat>>

    ghost function View(): State<I, R>
      reads this
    {
      State(items, futures, pending, batchTask, liveTimers, timersStarted, batches)
    }

    ghost predicate Valid()
      reads this
    {
      Invariant(batchSize, process, View())
    }

    constructor (batchSize: int, process: seq<I> -> Processed<R>)
      ensures Valid() && View() == Initial()
      ensures this.batchSize == batchSize && this.process == process
    {
      this.batchSize, this.process := batchSize, process;
      pending, batchTask, futures, liveTimers, timersStarted := [], None, [], {}, 0;
      items, batches := [], [];
    }

    /** The locked region of a submission; the caller then awaits the future it is given. */
    method Enter(item: I) returns (future: nat)
      requires Valid()
      modifies this
      ensures Valid() && future == |old(futures)|
      ensures View() == Step(batchSize, process, old(View()), Submit(item))
    {
      ghost var before := View();
      StepKeeps(batchSize, process, before, Submit(item));
      future := |futures|;
      futures := futures + [Waiting];
      pending := pending + [(item, future)];
      items := items + [item];
      if |pending| == 1 {
        batchTask := Some(timersStarted);
        liveTimers := liveTimers + {timersStarted};
        timersStarted := timersStarted + 1;
      }
      assert View() == Enqueue(before, item);
      if |pending| >= batchSize {
        EnqueueInRange(before, item);
        Process();
      }
      assert View() == Step(batchSize, process, before, Submit(item));
    }

    /** The locked region of timer `timer` after its sleep. */
    method Fire(timer: nat)
      requires Valid()
      modifies this
      ensures Valid()
      ensures View() == Step(batchSize, process, old(View()), TimerFires(timer))
    {
      StepKeeps(batchSize, process, View(), TimerFires(timer));
      if timer in liveTimers {
        if pending != [] {
          Process();
        }
        liveTimers := liveTimers - {timer};
      }
    }

    /** The coroutine awaiting future `id` is cancelled. */
    method CancelWaiter(id: nat)
      requires Valid()
      modifies this
      ensures Valid()
      ensures View() == Step(batchSize, process, old(View()), WaiterCancelled(id))
    {
      StepKeeps(batchSize, process, View(), WaiterCancelled(id));
      if id < |futures| && futures[id] == Waiting {
        futures := futures[id := Cancelled];
      }
    }

    method Process()
      requires InRange(View())
      modifies this
      ensures View() == ProcessBatch(old(View()), process)
    {
      if pending == [] {
        return;
      }
      var taken, ids := Items(pending), Futures(pending);
      var served := futures;
      ghost var before := futures;
      pending := [];
      if batchTask.Some? {
        liveTimers := liveTimers - {batchTask.value};
        batchTask := None;
      }
      batches := batches + [ids];
      var processed := process(taken);
      match processed {
        case Success(results) =>
          var n := if |results| < |ids| then |results| else |ids|;
          for i := 0 to n
            invariant served == Served(before, ids, processed, i)
          {
            if served[ids[i]] == Waiting {
              served := served[ids[i] := Resolved(results[i])];
            }
          }
          ServedBeyondResults(before, ids, processed, n);
        case Failure(_) =>
          for i := 0 to |ids|
            invariant served == Served(before, ids, processed, i)
          {
            if served[ids[i]] == Waiting {
              served := served[ids[i] := Raised];
            }
          }
      }
      futures := served;
    }
  }

  /** Past the last result nothing changes. */
  lemma {:induction false} ServedBeyondResults<R>(outcomes: seq<Outcome<R>>, ids: seq<nat>, processed: Processed<R>,
                                                  n: nat)
    requires processed.Success? && n <= |ids| && forall i :: 0 <= i < |ids| ==> ids[i] < |outcomes|
    requires |processed.value| <= n || n == |ids|
    ensures Served(outcomes, ids, processed, |ids|) == Served(outcomes, ids, processed, n)
    decreases |ids| - n
  {
    if n < |ids| {
      ServedBeyondResults(outcomes, ids, processed, n + 1);
      var before := Served(outcomes, ids, processed, n);
      assert Served(outcomes, ids, processed, n + 1) == before;
    }
  }
}
