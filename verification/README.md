# Supervision, governance and swarm layer: a verified model

This project models the stateful algorithms of MERID's supervision, governance and swarm layer in
Dafny and proves what they guarantee over every input and every run. Each component of the system
has a module of its own (two or three where the state, the runs and the object deserve separate
files):

- **Workflow graphs** (`WorkflowGraphs`, `BlockedWorkflows`, `WorkflowQueues`, `WorkflowSorts`,
  `WorkflowInputs`, `WorkflowDepths`, `Workflows`): Kahn's topological sort with in-degrees and a
  first-in first-out work list, on graphs whose edges may name anything; the order it gives; which inputs
  a node can see; building and executing a workflow.
- **Restart supervisor** (`Watchdogs`, `RestartBudgets`): signals, the decision, the polling loop, and
  the cooldown, miss threshold and restart budget over whole runs, on any clock.
- **Cache, memoiser, batcher** (`Caches`, `CacheTraces`, `CacheEvictions`, `LruOrders`, `InsertionOrders`,
  `CacheObjects`, `Batching`): an ordered dictionary with four eviction strategies, memory accounting and
  expiry; the memoising decorator; submissions batched under a lock with a timer.
- **Governance event bus** (`GovernanceLifecycle`, `GovernanceRecords`, `GovernanceBuses`, `KeyStores`,
  `DeadLetters`, `IdempotencyKeys`, `HandlerDeliveries`): the event lifecycle with shared audit records, what
  the records say, the bounded audit trail, the idempotency store and the replay of dead letters.
- **Quorum** (`QuorumTracking`, `QuorumSilences`, `QuorumRules`, `DecisionAggregation`, `DecisionOutcomes`):
  alert back-off, outages that alert once, the effective quorum, consensus and weighted voting.
- **Indexes, latches, selection** (`DecisionIndexes`, `UserAccounts`, `UserRequests`, `SafeModes`,
  `MarketUniverses`, `MarketListings`, `Drawdowns`).

`Sequences`, `Recency`, `AsciiCases`, `Options` and `RealArithmetic` hold what several components share.

## How the model is built

A class mirrors each object whose methods update its fields; every method is proved equal to a
function on values (`View() == Step(old(View()), op)` or the like), and the properties of whole runs
are proved about those functions. What a function answers is stated apart from it: on the trace of operations,
on the tables, or on the configuration. Loops of the program are loops here. Time is an argument of the
operation that reads the clock; the results of agents, handlers, schema checks and environment
variables are arguments too. A lock-protected region is one step, and steps of different coroutines
interleave freely. An `OrderedDict` is a key sequence with a map. Floats are reals.

Run the proofs with `dafny verify dfyconfig.toml`.

## Where the code and its documentation differ

The model follows the code. In these places that is not what the documentation, a comment or a name
says, and the difference is a theorem:

- `agents/swarm_coordination.py:437` takes a wrong length to mean a cycle. Where every edge endpoint is
  registered, and more generally on an admissible graph, it does. On any graph the test passes exactly
  when as many unregistered identifiers are listed as registered nodes are blocked, so a cyclic
  workflow can get a non-empty answer (`BlockedWorkflows.LengthTestPassesExactlyWhen`,
  `WorkflowGraphs.UnregisteredTargetHidesCycle`).
  That the answer is a topological order is another matter: it is one exactly on admissible acyclic
  graphs (`WorkflowGraphs.OrderExactlyWhenAdmissibleAndAcyclic`).
- Declaring an input of a node does not make the node wait for it, so a declared input can be missed
  (`WorkflowDepths.DeclaredInputIsMissed`).  The sort lists nodes in non-decreasing depth, the length of the
  longest path to them; whatever the order in which nodes and edges are registered, every node sees all
  its inputs exactly when each input is less deep than its node
  (`WorkflowDepths.InputsAlwaysSeenExactlyWhen`).  A path from the input is enough for that.
- The hourly restart budget of `watchdog_15m.py` presumes a clock that never comes back within an hour of
  a restart it was an hour past, because pruned restarts are forgotten for good; the budget is kept on
  exactly those clocks (`RestartBudgets.BudgetKeptExactlyWhen`). The minimum uptime excuses a stale
  heartbeat only, not a closed port or a silent log (`Watchdogs.FailingMeans`).
- The Adaptive cache strategy calls its branch at high hit rates LRU, but only the LRU strategy moves
  a key when it is hit. The order of any other cache is that of last sets, and a full Adaptive cache
  at a high hit rate drops exactly the key set longest ago, also when that was just served
  (`InsertionOrders.OrderIsThatOfLastSets`, `InsertionOrders.AdaptiveEvictsTheOldestSet`).
- A cache with a `max_size` below one is accepted, and its first set never ends
  (`Caches.SizeLoopEndsExactlyWhen`).
- The memoiser computes a cached `None` again, counting a hit (`CacheObjects.CachedNoneIsComputedAgain`),
  and equals the wrapped function exactly when no two arguments with different values share a key
  (`CacheObjects.TransparentExactlyWhenKeysSeparate`).
- A batch processor that returns too few results leaves its last submitters waiting for ever
  (`Batching.NobodyIsStrandedExactlyWhen`).
- Execution of a governance event does not wait for approval, whatever `requires_quorum` says
  (`GovernanceLifecycle.ExecutionNeedsNoApproval`, `GovernanceLifecycle.ExecutedWithDecisionExactlyWhen`).
- The idempotency key is said to keep the same action from being applied twice to a target; it ends in
  the event's own id, so it does that only for ids that end alike
  (`DeadLetters.SameActionSharesKeyExactlyWhen`), and it joins its parts with colons, so that names with
  colons can make different targets share a key (`IdempotencyKeys.ColonsMoveParts`). The store's "FIFO eviction" of the "oldest" keys drops
  the lexicographically smallest, possibly the key just added (`KeyStores.ForgottenExactlyWhen`), and a
  replay then applies a second letter with a forgotten key (`DeadLetters.AppliedAgainExactlyWhen`).
- "Replaying already-applied governance actions will skip them safely" holds of the key, not of the
  handlers: a redelivery goes to every handler again, also to those that accepted the event, unless there
  is only one (`HandlerDeliveries.AtMostOncePerHandlerExactlyWhen`).
- Publication fills in a missing asset or timeframe, and may thereby replace the one that was given
  (`GovernanceLifecycle.FillingReplacesExactlyWhen`).
- A dry-run replay removes leading entries that are already applied (`DeadLetters.DryRunMeans`).
- The "exponential backoff" of quorum alerts is quadratic at its fastest: the shortest time `m` alerts can
  span is attained, and grows with the square of `m` (`QuorumTracking.LeastSpanIsBackoff`). At its slowest
  it is silence: failures that keep coming at least five times in a cooldown never alert again, so the
  "summary alerts for persistent failures" are not sent (`QuorumSilences.AlertsOnceExactlyWhen`,
  `QuorumSilences.SteadyFailuresAlertOnceExactlyWhen`, `QuorumSilences.SummaryIsAdvisedInSilence`).
- The throttle query misses some failures that will not alert (`QuorumTracking.QueryMissesExactlyWhen`),
  and the recovery history is unbounded for a cap below two (`QuorumTracking.HistoryBoundedExactlyWhen`).
- The configured quorum is clamped only when it comes from the environment
  (`QuorumRules.ConfiguredQuorumClampedExactlyWhen`); the effective quorum always is.
- A weighted vote with a tie depends on the order of the contributions
  (`DecisionAggregation.WinnerIgnoresOrderExactlyWhen`).
- Wallets are looked up as typed but stored in lower case, so another spelling of a registered wallet is
  accepted and takes over its index entry (`UserAccounts.WalletsStayUniqueExactlyWhen`).
- A validation can end in an exception and is then not recorded, so an agent that causes it is never put
  into safe mode for it (`SafeModes.JudgementMeans`).
- A losing first trade is no drawdown (`Drawdowns.DrawdownZeroExactlyWhen`).

## Model

| member | source | states |
|---|---|---|
| WorkflowSorts.TopologicalSort | agents/swarm_coordination.py:416-439 | terminates on every graph; returns what the queue lists, or [] where the length is wrong; that is a permutation of the nodes with every edge forward exactly when the graph is admissible and acyclic; on an admissible graph returns [] exactly when there are no nodes or there is a cycle |
| WorkflowGraphs.OrderExactlyWhenAdmissibleAndAcyclic | agents/swarm_coordination.py:436-439 | for any complete run of the work list and any edges, the answer is a topological order if and only if no registered node has an unregistered predecessor, every unregistered target has one, and there is no cycle |
| WorkflowGraphs.EmptyAnswerExactlyOnCycle | agents/swarm_coordination.py:436-439 | the cycle test is exact on admissible graphs, in both directions |
| WorkflowGraphs.UnlistedNodeGivesCycle | agents/swarm_coordination.py:427-437 | a registered node the work list never reaches lies downstream of a cycle (backward walk and pigeonhole) |
| WorkflowGraphs.CycleIsNeverListed | agents/swarm_coordination.py:427-434 | no vertex of a cycle is ever listed |
| WorkflowGraphs.ListedVerticesAreDetermined | agents/swarm_coordination.py:424-434 | every complete run of the work list lists the same vertices, whatever the order of the queue |
| WorkflowGraphs.UnregisteredTargetHidesCycle | agents/swarm_coordination.py:436-437 | a concrete workflow with a cycle for which the length test passes |
| WorkflowSorts.CountInDegrees | agents/swarm_coordination.py:418-422 | the in-degree dictionary counts incoming edges, parallel ones separately, and covers every node and edge target |
| WorkflowSorts.InitialQueue | agents/swarm_coordination.py:424 | the queue starts with exactly the nodes of in-degree zero, each once |
| WorkflowSorts.Release | agents/swarm_coordination.py:431-434 | counting down a node's successors keeps the work list exact: everything ready is queued or listed, once |
| WorkflowSorts.ListReadyNodes | agents/swarm_coordination.py:424-434 | the loop, counting down, ends with the list the queue gives when successors are taken as they become ready: distinct vertices, each ready when listed, nothing ready left out, first in first out |
| WorkflowQueues.KahnIsQueued | agents/swarm_coordination.py:424-434 | that list is first in, first out: nodes without predecessors in the order of registration, a later vertex has a predecessor no earlier than any of an earlier one, and ties go by the last edge from the vertex that released both |
| WorkflowDepths.WalksNeverFall | agents/swarm_coordination.py:424-434 | on every graph, whatever walk ends in a listed vertex, one as long ends in every vertex listed later |
| WorkflowDepths.DepthNeverFalls | agents/swarm_coordination.py:424-434 | an admissible acyclic workflow is listed in non-decreasing depth, the length of the longest path to a node |
| Workflows.WorkflowGraph.AddNode | agents/swarm_coordination.py:342-358 | a node registered again keeps its position but loses its outgoing edges |
| Workflows.WorkflowGraph.AddEdge | agents/swarm_coordination.py:360-365 | the target is appended to the source's list, which is created if missing |
| BlockedWorkflows.ListedExactlyWhenNotBlocked | agents/swarm_coordination.py:424-434 | on every graph the work list reaches exactly the vertices that are not downstream of a cycle or of an unregistered identifier without predecessors |
| BlockedWorkflows.LengthTestPassesExactlyWhen | agents/swarm_coordination.py:436-437 | on every graph the length test passes if and only if as many unregistered identifiers are listed as registered nodes are blocked |
| BlockedWorkflows.AdmissibleBlocking | agents/swarm_coordination.py:436-437 | on an admissible graph no unregistered identifier is listed, and some node is blocked exactly when there is a cycle |
| WorkflowDepths.InputsAlwaysSeenExactlyWhen | agents/swarm_coordination.py:396-400 | whatever the order in which the same nodes and edges are registered, the sort puts every input before its node, if and only if every input is less deep than its node |
| WorkflowDepths.ShallowerInputsAreEarlier | agents/swarm_coordination.py:396-400 | inputs less deep than their nodes come first in the order of the sort |
| WorkflowDepths.DeepInputCanBeLate | agents/swarm_coordination.py:424-434 | for any input not less deep than its node, registering a longest path to it last makes the sort list it after the node |
| WorkflowDepths.DeclaredInputIsMissed | agents/swarm_coordination.py:396-400 | two nodes and no edge, the first with the second as its input: it runs first and misses it |
| WorkflowDepths.ReachingInputsAreShallower | agents/swarm_coordination.py:396-400 | a path from every input to its node is enough |
| WorkflowInputs.InputsEarlierInEveryOrderExactlyWhen | agents/swarm_coordination.py:396-400 | for a sort free to return any topological order a path would be needed: all of them put inputs first if and only if every input has a path to its node |
| WorkflowInputs.EarlierInputsMean | agents/swarm_coordination.py:398-400 | of its inputs a node has left exactly those that come before it in the order |
| Workflows.WorkflowGraph.Execute | agents/swarm_coordination.py:367-414 | an admissible acyclic workflow runs in the order of the sort: for every node there is a context that holds the final results of just those of its inputs that come earlier (of all its inputs where they are less deep), and its result and status are what running it on that context comes to; these are the solution of the dataflow equations; the run fails half-way exactly when an unregistered identifier is in the answer; otherwise nothing runs |
| Workflows.RunInOrder | agents/swarm_coordination.py:380-414 | along any order of the nodes every node was run on a context that holds the final results of exactly those of its inputs that come before it, and its result and status are what that came to; an unknown identifier in the order makes the run fail |
| Workflows.SolutionIsUnique | agents/swarm_coordination.py:396-409 | where some order puts inputs first the dataflow equations have one solution, so the outcome does not depend on which such order is used |
| Watchdogs.FailingMeans | watchdog_15m.py:135-149 | a poll fails exactly when the port is closed, or there is no heartbeat and the log is silent, or the heartbeat is stale and the process is not known to be young |
| Watchdogs.SignalsMean | watchdog_15m.py:135-149 | each signal fails for its own reason, the log being asked only without a heartbeat |
| Watchdogs.Supervise | watchdog_15m.py:258-311 | the polling loop takes the actions of the step function and, on a clock that does not run backwards, follows at every poll the policy stated on the full unpruned history |
| Watchdogs.RunIsSupervised | watchdog_15m.py:152-182 | pruning `restart_times` on some branches only never changes a decision |
| Watchdogs.RunRepresents | watchdog_15m.py:173-182 | after every run the pruned list answers every later window as the full log would, and the miss count and last restart are those of the history |
| RestartBudgets.BudgetKeptExactlyWhen | watchdog_15m.py:173-180 | for any poll times, every configuration keeps every half-open hour within `max_restarts`, whatever fails, if and only if no poll is within an hour of an earlier one that a poll in between was an hour past; likewise without negative cooldowns, looking back only |
| RestartBudgets.RestartBudget | watchdog_15m.py:178-180 | over every run with non-decreasing times, any half-open hour holds at most `max_restarts` restarts |
| RestartBudgets.ForgottenRestartBreaksBudget | watchdog_15m.py:173-180 | for any poll times with such three polls, failures at the first and last make two restarts within the hour on a budget of one |
| RestartBudgets.ClockSetBackBreaksBudget | watchdog_15m.py:173-180 | a concrete run with the clock set back that restarts twice within the hour on a budget of one |
| Watchdogs.RestartEndsAStreak | watchdog_15m.py:174-182 | every restart ends a stretch of at least `miss_threshold` failing polls without a restart in between |
| Watchdogs.StreakMeans | watchdog_15m.py:172-174 | the miss count is the longest run of failing polls, none of them a restart, that ends the history |
| Watchdogs.RestartsRespectCooldown | watchdog_15m.py:180-181 | any two restarts of a run are at least the cooldown apart |
| RestartBudgets.RestartsRespectCooldownOnAnyClock | watchdog_15m.py:180-181 | so are they on any clock, unless the cooldown is negative |
| Watchdogs.OverdueFailureRestarts | watchdog_15m.py:174-182 | a failing poll with auto-restart on, budget at least one, streak at the threshold and an hour and a cooldown since the restarts before it always restarts |
| Caches.CheapestIndex | agents/optimization.py:169-179 | the victim search returns the first key, in dictionary order, of least cost |
| Caches.EvictOneTakesTheFirst | agents/optimization.py:159-182 | one entry goes, the one that goes before all others: first in the dictionary, fewest hits or earliest expiry with ties by the dictionary, by strategy; for Adaptive by whether more than seven lookups in ten hit |
| Caches.EvictToSizeValid | agents/optimization.py:151-153 | the size loop ends with room for one entry, changes no surviving entry and keeps the memory counter exact |
| Caches.EvictToFitValid | agents/optimization.py:155-157 | the memory loop ends with the incoming entry fitting or nothing left |
| Caches.SizeLoopEndsExactlyWhen | agents/optimization.py:151-153 | from any state the size loop ends if and only if `max_size` is at least one |
| Caches.SetValid | agents/optimization.py:115-141 | after a set that ends the new entry is last, the count is within `max_size`, and memory is within its limit unless the entry is alone |
| Caches.CleanupByRemovals | agents/optimization.py:190-196 | removing the expired keys one by one leaves exactly the unexpired entries, in order, with exact memory |
| Caches.CleanupCount | agents/optimization.py:195-196 | the number returned is the number of entries that went |
| CacheTraces.RunWithinCapacity | agents/optimization.py:149-157 | over every run with non-negative sizes the count is within `max_size` and memory within its limit unless one entry is left |
| CacheTraces.EntriesAreFaithful | agents/optimization.py:92-141 | under every strategy each entry holds value, time and size of the latest set of its key and lasts for the ttl given there, or the default where none was given or zero; it counts the hits since and knows when the last was |
| CacheTraces.HitReturnsLatestSet | agents/optimization.py:92-113 | after any run a hit returns the value of the latest set of the key, no older than its ttl |
| CacheTraces.StoredIsHitExactlyWhile | agents/optimization.py:92-141 | right after a set, a lookup returns the value exactly while the ttl given lasts, or the default ttl where none was given or zero |
| CacheTraces.SweepKeepsExactlyTheFresh | agents/optimization.py:190-196 | the cleanup keeps exactly the entries whose ttl has not passed, unchanged, and the statistics |
| CacheTraces.StatisticsCountLookups | agents/optimization.py:92-113 | after every run hits and misses count the lookups of the trace that found their key unexpired, and the others |
| CacheTraces.PlainMapWithoutEvictions | agents/optimization.py:92-113 | as long as nothing was evicted, a lookup hits exactly when the latest set has not expired |
| CacheTraces.LfuVictimHasFewestHits | agents/optimization.py:167-169 | the LFU victim has the fewest hits since its last set, read off the trace |
| CacheTraces.TtlVictimExpiresFirst | agents/optimization.py:170-172 | the TTL victim has the earliest expiry, read off the trace |
| CacheTraces.AdaptiveEvictsExactlyTheFirst | agents/optimization.py:173-182 | a stored key survives a newcomer to a full Adaptive cache at a high hit rate, which fits without the first entry, if and only if it is not the first in the order |
| CacheTraces.AdaptiveEvictsTheKeyJustUsed | agents/optimization.py:106-113 | so the key just served survives if and only if it is not the first, where being served has left it |
| InsertionOrders.OrderIsThatOfLastSets | agents/optimization.py:106-108 | under every strategy but LRU, after every run, the stored keys are in the order of their last sets |
| InsertionOrders.AdaptiveEvictsTheOldestSet | agents/optimization.py:173-182 | on the trace: a stored key survives the newcomer if and only if another stored key was last set before it |
| Recency.LastUsesOrdered | agents/optimization.py:106-108 | the reference order lists the used keys by the position of their last use |
| LruOrders.LruKeepsTheMostRecent | agents/optimization.py:92-182 | under LRU with zero sizes and no expiry the key order is the order of last use and the keys are the `max_size` most recently used of the trace |
| LruOrders.LruHitsExactlyTheMostRecent | agents/optimization.py:92-113 | then a lookup hits exactly when its key is among the `max_size` most recently used |
| CacheEvictions.EvictedWasDueBefore | agents/optimization.py:149-182 | on the trace, for every strategy and however many entries a set evicts: each was last set or hit before, had fewer hits than, or ends sooner than each that stays, with ties by the last set; Adaptive goes by the hits and lookups of the trace |
| CacheEvictions.SetEvictsTheFirst | agents/optimization.py:149-182 | so from any valid state, by the entries |
| CacheEvictions.LastEvictionWasNeeded | agents/optimization.py:149-157 | a set stops evicting as soon as there is room: before its last eviction there was none |
| CacheEvictions.RoomyEvictsNothing | agents/optimization.py:149-157 | with room to begin with nothing is evicted |
| CacheEvictions.LruOrderIsThatOfLastTouches | agents/optimization.py:106-108 | under LRU, after every run, with any sizes and expiry, the stored keys are in the order of their last sets and hits |
| CacheObjects.OptimizedCache.Get | agents/optimization.py:92-113 | the in-place lookup: expiry, touch, move to end and statistics |
| CacheObjects.OptimizedCache.Set | agents/optimization.py:115-141 | the in-place store: removal of the old entry, eviction, insertion at the end of an entry with the value, the time, the size and the ttl given, or the default ttl |
| CacheObjects.OptimizedCache.Remove | agents/optimization.py:143-147 | removal keeps the order, the map and the memory counter consistent |
| CacheObjects.OptimizedCache.EvictIfNeeded | agents/optimization.py:149-157 | the two eviction loops, which terminate |
| CacheObjects.OptimizedCache.EvictOne | agents/optimization.py:159-182 | one entry goes, that which goes before all others under the strategy, and is counted |
| CacheObjects.OptimizedCache.ClearAll | agents/optimization.py:184-188 | empties the cache and keeps the statistics |
| CacheObjects.OptimizedCache.CleanupExpired | agents/optimization.py:190-196 | removes exactly the expired entries and reports how many |
| CacheObjects.TransparentExactlyWhenKeysSeparate | agents/optimization.py:482-498 | in every run the decorated function equals the function if and only if arguments with the same key have the same value |
| CacheObjects.MemoRunRemembers | agents/optimization.py:490-498 | after every run of calls whatever is cached under an argument's key is the function's value there |
| CacheObjects.CollisionIsVisible | agents/optimization.py:484-498 | for any two arguments that share a key, a second call within the ttl gets the first one's value, or its own where the first one's is `None` |
| CacheObjects.CachedNoneIsComputedAgain | agents/optimization.py:490-498 | a cached `None` counts as a hit and is computed again |
| CacheObjects.Memoized.Call | agents/optimization.py:482-498 | the wrapper object computes the memoised call and, with separating keys, the function |
| CacheObjects.Memoized.CacheClear | agents/optimization.py:500-501 | clearing keeps the wrapper correct |
| Batching.Run | agents/optimization.py:348-392 | after every interleaving of submissions, timers and cancellations: batches partition the submissions in order with size at most `batch_size`, a non-empty pending list has the one armed timer, every dispatched future has its own result |
| Batching.StepKeeps | agents/optimization.py:348-392 | every event keeps that invariant |
| Batching.DispatchedFutureIsServed | agents/optimization.py:386-392 | a dispatched future holds what the processor gave at its own position of its own batch, unless its waiter was cancelled |
| Batching.DispatchedFutureHolds | agents/optimization.py:372-397 | in terms of the events alone: every dispatched submission was processed at its position in a batch of consecutive submissions, no larger than `batch_size`, and its future is the result at that position, the exception, or still waiting where results ran out; unless it was cancelled |
| Batching.SubmissionDispatchesExactlyWhenFull | agents/optimization.py:352-361 | a submission dispatches exactly the batch it completes |
| Batching.StaleTimerDoesNothing | agents/optimization.py:365-370 | a timer other than the armed one does nothing |
| Batching.CancelledWaiterStaysCancelled | agents/optimization.py:387-392 | a waiter cancelled while it waits stays cancelled through every later event, and no other future is affected |
| Batching.FinishedStaysFinished | agents/optimization.py:387-392 | a future is finished once; no later event changes it |
| Batching.NobodyIsStrandedExactlyWhen | agents/optimization.py:386-388 | every dispatched submission is answered in every interleaving if and only if the processor answers every batch it can be given |
| Batching.PendingIsDispatchedByItsTimer | agents/optimization.py:353-370 | whatever is pending is dispatched by the one timer that is armed |
| Batching.BatchOptimizer.Enter | agents/optimization.py:348-361 | the locked region of a submission |
| Batching.BatchOptimizer.Fire | agents/optimization.py:365-370 | the locked region of a timer, which may have been cancelled |
| Batching.BatchOptimizer.CancelWaiter | agents/optimization.py:363 | a coroutine awaiting its future may be cancelled at any moment; the future is then finished |
| Batching.BatchOptimizer.Process | agents/optimization.py:372-397 | empties the pending list, disarms the timer, hands out results in order or the exception to all, skipping finished futures |
| GovernanceLifecycle.RunConsistent | agents/governance_event_bus.py:191-223 | over every interleaving: pending and processed ids are disjoint, pending records are pending or approved, audit records terminal, nothing follows an executed or failed record of an event, and the trail is a suffix of the full log |
| GovernanceLifecycle.RunKeepsTrail | agents/governance_event_bus.py:412-415 | the audit trail is always the end of the log, at least its last min(total, 5000) records and never more than 10000 |
| GovernanceLifecycle.EventsDoNotInterfere | agents/governance_event_bus.py:354-410 | the state and log of an event are those of running only the operations about it |
| GovernanceLifecycle.ExecutionNeedsNoApproval | agents/governance_event_bus.py:387-410 | an event can be executed straight after publication |
| GovernanceLifecycle.ExecutedWithDecisionExactlyWhen | agents/governance_event_bus.py:387-410 | an execution carries a decision id if and only if the last operation about the event was an approval |
| GovernanceLifecycle.FillingReplacesExactlyWhen | agents/governance_event_bus.py:196-213 | filling in from the target replaces a given timeframe exactly when the asset was missing and is found with another timeframe, and a given asset likewise |
| GovernanceLifecycle.FillingFillsExactlyWhen | agents/governance_event_bus.py:196-213 | a missing part is filled in exactly when the target names an asset, and nothing but the two parts changes |
| GovernanceRecords.EveryRecordIsFiled | agents/governance_event_bus.py:191-415 | over every interleaving each record in the log is that of its event as last published, with the decision of the last approval since, filed by a rejection with its reason or by an execution: executed if that succeeded, failed if not, with its error and time |
| GovernanceRecords.EveryPendingIsOpened | agents/governance_event_bus.py:191-371 | the record of a pending event is that of its last publication, approved exactly when there was an approval since, with the decision and approver of the last one |
| GovernanceRecords.MarkExecutedFiles | agents/governance_event_bus.py:387-410 | marking a pending event files it as executed if and only if success was reported and as failed otherwise, with the error and the time; other events stay as they were |
| GovernanceRecords.RejectFiles | agents/governance_event_bus.py:373-385 | a rejection files the record with its reason and leaves the id open |
| GovernanceRecords.ApproveMarks | agents/governance_event_bus.py:354-371 | an approval notes decision and approver on the one record |
| GovernanceRecords.PublishOpens | agents/governance_event_bus.py:190-223 | a publication opens a blank record, unless the event was executed before |
| GovernanceRecords.RefusedExactlyWhenNotPending | agents/governance_event_bus.py:361-392 | the other operations are refused, and change nothing, exactly when the event is not pending |
| GovernanceBuses.GovernanceEventBus.Publish | agents/governance_event_bus.py:190-223 | fills in asset and timeframe, suppresses processed ids, otherwise files a fresh record, also for an id already pending; returns the id |
| GovernanceBuses.GovernanceEventBus.ApproveEvent | agents/governance_event_bus.py:354-371 | changes the one shared record in place and no other |
| GovernanceBuses.GovernanceEventBus.RejectEvent | agents/governance_event_bus.py:373-385 | moves the record to the trail; the id stays open for publication |
| GovernanceBuses.GovernanceEventBus.MarkExecuted | agents/governance_event_bus.py:387-410 | moves the record to the trail and closes the id |
| GovernanceBuses.GovernanceEventBus.File | agents/governance_event_bus.py:412-415 | appends and trims the trail without disturbing shared records |
| KeyStores.DropSmallestMeans | agents/governance_event_bus.py:509-514 | eviction keeps exactly the keys with at least 1000 keys lexicographically before them |
| KeyStores.AtMostMeans | agents/governance_event_bus.py:509-514 | the order of keys: a prefix first, otherwise by the first place where they differ |
| KeyStores.MarkWithinCap | agents/governance_event_bus.py:504-514 | the idempotency store never outgrows 10000 keys |
| KeyStores.ForgottenExactlyWhen | agents/governance_event_bus.py:504-514 | marking forgets the very key it marks if and only if the key is new, the store is full and fewer than 1000 stored keys precede it |
| DeadLetters.SameActionSharesKeyExactlyWhen | agents/governance_event_bus.py:464-475 | events that agree in all but the id share an idempotency key if and only if the last eight characters of their ids agree |
| IdempotencyKeys.KeysAgreeExactlyWhen | agents/governance_event_bus.py:464-475 | events without colons in their parts share a key if and only if kind, target, asset, timeframe and action agree (missing, empty and "none" being one) and the ids end alike |
| IdempotencyKeys.ColonsMoveParts | agents/governance_event_bus.py:474 | with colons, different targets can share a key |
| DeadLetters.ReplayMeans | agents/governance_event_bus.py:541-637 | a real replay handles exactly the first min(max_events, length) entries once each; the queue is the untouched rest followed by the failures in order; processed = applied + skipped + failed |
| DeadLetters.FailedAgainMeans | agents/governance_event_bus.py:593-630 | those failures are just the entries whose redelivery failed, in order, each with one retry more |
| DeadLetters.FailedTurnsMean | agents/governance_event_bus.py:593-630 | the turns they failed in are exactly those whose entry was not skipped and not accepted |
| DeadLetters.LoopFollows | agents/governance_event_bus.py:541-637 | after n turns the queue, store and reports are those of one pass over the original queue |
| DeadLetters.AppliedAtMostOnce | agents/governance_event_bus.py:553-578 | with idempotent skipping below the cap, an entry whose key is in the store or was applied earlier in the replay is skipped |
| DeadLetters.AppliedAgainExactlyWhen | agents/governance_event_bus.py:504-578 | of any two letters of a replay with a shared key, the first applied and the second redelivered with success, the second is applied again if and only if a turn from the first on made the store forget the key and none after it marked it anew |
| DeadLetters.AppliedTwiceExactlyWhen | agents/governance_event_bus.py:504-514 | for the first two letters and a new key that is known before the replay: the store is full and the key among its thousand smallest |
| HandlerDeliveries.AtMostOncePerHandlerExactlyWhen | agents/governance_event_bus.py:593-615 | publication and any number of replays make no handler accept the event twice, whatever the handlers do, if and only if there is at most one handler, no letter is kept, or the key was known |
| DeadLetters.DryRunMeans | agents/governance_event_bus.py:556-591 | a dry run applies nothing; where it skips, the leading entries already applied go and are reported as skipped, the next is reported by what would become of it, and no turn follows; the queue stays as it was if and only if no turn is taken, nothing is skipped, or the first entry is not yet applied |
| DeadLetters.StreakOfThree | agents/governance_event_bus.py:242-248 | the failure counter reaches three exactly when the last three deliveries failed |
| DeadLetters.DeliveryState.AfterDelivery | agents/governance_event_bus.py:225-252 | one dead letter per failed handler in the bounded queue, or the key marked when none failed; an alert exactly when the last three deliveries failed |
| DeadLetters.LettersMean | agents/governance_event_bus.py:231-240 | those letters name the event and the handler, in order, with no retries yet |
| DeadLetters.DeliveryState.Mark | agents/governance_event_bus.py:504-514 | the in-place marking of an applied key |
| DeadLetters.DeliveryState.RetryDeadLetter | agents/governance_event_bus.py:516-637 | the replay loop computes the replay; its statistics grow by the turns taken, applied, skipped and failed |
| QuorumTracking.RunTracks | agents/quorum_failure_tracker.py:96-141 | for every trace both dictionaries have a key exactly during its outage, `count` and `consecutive_failures` are the failures of that outage, and its first and last failure, last alert, agents and required quorum are those of the trace |
| QuorumTracking.SameKeyExactlyWhen | agents/quorum_failure_tracker.py:96 | failures share a key if and only if they are of one kind and asset and timeframe agree but for case |
| QuorumTracking.AlertsBackOff | agents/quorum_failure_tracker.py:131-141 | m alerts of one outage span at least cooldown times the sum of 1 + (i+1) div 5 for i from 1 to m-1 |
| QuorumTracking.BackoffIsAttained | agents/quorum_failure_tracker.py:131-141 | for every configuration and every m some outage of m failures alerts m times in exactly that time |
| QuorumTracking.LeastSpanIsBackoff | agents/quorum_failure_tracker.py:134-138 | so that sum times the cooldown is the least span of m alerts, and it is quadratic in m from above and below |
| QuorumSilences.AlertsOnceExactlyWhen | agents/quorum_failure_tracker.py:131-141 | an outage alerts for its first failure alone if and only if every later failure comes before the cooldown that holds by then has passed since the first |
| QuorumSilences.FastFailuresAlertOnce | agents/quorum_failure_tracker.py:134-138 | where the i-th failure after the first comes no later than i fifths of the cooldown after it, there is one alert however long the outage lasts |
| QuorumSilences.SummaryIsAdvisedInSilence | agents/quorum_failure_tracker.py:138-146 | such a failure does not alert although its context advises a summary from the threshold on |
| QuorumSilences.SteadyFailuresAlertOnceExactlyWhen | agents/quorum_failure_tracker.py:134-138 | with one failure every d seconds there is never a second alert if and only if d is at most a fifth of the cooldown |
| QuorumTracking.BackoffIsQuadratic | agents/quorum_failure_tracker.py:134-136 | the bounds on the sum |
| QuorumTracking.ContextReportsTheOutage | agents/quorum_failure_tracker.py:143-162 | the context returned with a failure has the counts, times, cooldown, available agents and required quorum of its outage on the trace, and the advice that goes with the count |
| QuorumTracking.ThrottledFailureDoesNotAlert | agents/quorum_failure_tracker.py:290-302 | when the query says throttle, a failure recorded at that moment does not alert |
| QuorumTracking.QueryMissesExactlyWhen | agents/quorum_failure_tracker.py:290-302 | the query wrongly says not to throttle if and only if the failure stretches the cooldown and the time since the last alert lies between the old and new cooldown |
| QuorumTracking.RecoveryReportsTheOutage | agents/quorum_failure_tracker.py:185-202 | the recovery filed for an outage has its number of failures, the time since its first one, and the agents available in it and after it |
| QuorumTracking.HistoryBoundedExactlyWhen | agents/quorum_failure_tracker.py:198-202 | the recovery history respects its cap in every run if and only if the cap is at least two |
| QuorumTracking.QuorumFailureTracker.Record | agents/quorum_failure_tracker.py:73-162 | the in-place update, the alert decision and the context returned |
| QuorumTracking.QuorumFailureTracker.RecordRecovered | agents/quorum_failure_tracker.py:164-215 | the outage ends, its record and alert time go, the history grows and is halved; the recovery is returned |
| QuorumTracking.QuorumFailureTracker.Throttled | agents/quorum_failure_tracker.py:278-302 | the query on the current state |
| QuorumRules.ConfiguredQuorumClampedExactlyWhen | agents/quorum_hardening.py:126-148 | the configured quorum is in the valid range if and only if the environment sets it or it was in range before |
| QuorumRules.EnvironmentMeans | agents/quorum_hardening.py:126-148 | a number from the environment counts as the nearest in the valid range, and nothing else changes |
| QuorumRules.LoweredIsLeast | agents/quorum_hardening.py:164-176 | the override loops yield the least of the base and the overrides that apply |
| QuorumRules.QuorumIgnoresOrder | agents/quorum_hardening.py:164-182 | order and repetition of assets and timeframes do not matter |
| QuorumRules.EmergencyIsBounded | agents/quorum_hardening.py:178-182 | the effective quorum is in the valid range; an emergency lowers it by at most one and never below two |
| QuorumRules.EffectiveQuorumMeans | agents/quorum_hardening.py:164-182 | with b the least of the configured quorum and the overrides that apply, the quorum is b clamped to the valid range; an emergency lowers it by one if and only if b is above two and above the lower end and not above the upper |
| QuorumRules.ComputeEffectiveQuorum | agents/quorum_hardening.py:150-182 | the loops compute the effective quorum: the least of the configured one and the overrides that apply, less one in an emergency where that is above two, clamped |
| QuorumRules.RequireQuorum | agents/quorum_hardening.py:208-275 | succeeds exactly with enough contributions and every required role; the failure names the contributors and exactly the missing roles |
| DecisionAggregation.FirstMax | agents/unified_decision_layer.py:249-260 | Python's `max`: the first of greatest score in iteration order |
| DecisionAggregation.AgreementIgnoresOrder | agents/unified_decision_layer.py:243-265 | at 70% agreement the winner is unique, so both computations of the most common recommendation agree for every set iteration order |
| DecisionAggregation.AggregateIgnoresSetOrder | agents/unified_decision_layer.py:187-212 | the whole decision is the same for every iteration order of the two sets |
| DecisionAggregation.ConsensusIgnoresContributionOrder | agents/unified_decision_layer.py:243-265 | permuting the contributions changes neither the method nor a consensus decision |
| DecisionAggregation.DecisionNeedsQuorum | agents/unified_decision_layer.py:121-128 | the result is a quorum failure exactly with fewer contributions than the effective quorum; any other result was recommended by someone |
| DecisionAggregation.WinnerIgnoresOrderExactlyWhen | agents/unified_decision_layer.py:284 | the weighted winner is the same for every order of the contributions if and only if one recommendation outweighs all others |
| DecisionAggregation.Tally | agents/unified_decision_layer.py:272-282 | the dictionaries hold each recommendation's weight and confidences, in order of first appearance |
| DecisionAggregation.WeightedDecision | agents/unified_decision_layer.py:267-288 | the winner of greatest weight with the average confidence of its supporters |
| DecisionOutcomes.AggregateMeans | agents/unified_decision_layer.py:187-288 | by counting supporters: a decision fails exactly for too few contributions, is a consensus exactly where 70% agree and then on what those recommend, and otherwise has the greatest total of weight times confidence, ties to the first to appear; its confidence is the average of its supporters, its priority that of its kind and confidence |
| DecisionOutcomes.MissedQuorumIsOneFailure | agents/unified_decision_layer.py:121-160 | a missed quorum is one failure to the tracker, of the first asset and timeframe, with the contributors and the quorum |
| DecisionAggregation.DecisionAggregator.Decide | agents/unified_decision_layer.py:85-212 | counts the decision and returns failure, consensus or weighted vote with its priority; exactly a missed quorum is recorded with the failure tracker, whose answer says whether it is throttled |
| DecisionIndexes.IndexMatchesHistory | agents/explainability.py:116-130 | in every reachable state each agent's list is the filter of the global list, which is the last `max_history` decisions |
| DecisionIndexes.DropKeepsAgreement | agents/explainability.py:126-130 | removal by equality takes the right entry even among duplicates |
| DecisionIndexes.AgentQueryScans | agents/explainability.py:137-144 | a query by agent answers as a scan of the recent history would, for every limit |
| DecisionIndexes.AgentQueryMeans | agents/explainability.py:137-144 | that is the end of the scan, of the length asked for; all of it for zero, and without as many at the start for a negative limit |
| DecisionIndexes.ExplainabilityTracker.RecordDecision | agents/explainability.py:116-130 | the in-place append, index and trim |
| DecisionIndexes.ExplainabilityTracker.GetAgentDecisions | agents/explainability.py:137-144 | the query equals the end of the scan |
| UserAccounts.RunIsSound | auth/user_manager.py:92-147 | after any sequence of requests: referral links point to older users, counters count, codes and users are in bijection, emails are unique, exactly the first user is admin |
| UserAccounts.RunFromEmptyIsSound | auth/user_manager.py:73-147 | so after any sequence of requests to a new manager |
| UserAccounts.CreateUserSound | auth/user_manager.py:92-147 | one request, granted or refused, keeps all of it |
| UserRequests.RefusedExactlyWhenKnown | auth/user_manager.py:92-97 | a request is refused for its email if and only if some user has it, else for its wallet if and only if some user's wallet in lower case is what was typed; a refusal changes nothing |
| UserRequests.GrantedUserIsAsAsked | auth/user_manager.py:99-147 | a granted request adds the user asked for, with a code of six letters of the name and the first free suffix, referred by exactly the user whose code it named, who alone gains a referral |
| UserRequests.LettersMean | auth/user_manager.py:326-339 | the code's letters: the name without spaces in upper case, cut at six |
| UserAccounts.Ancestry | auth/user_manager.py:104-110 | following referral links terminates at a user nobody referred |
| UserAccounts.AncestryDescends | auth/user_manager.py:104-110 | nobody is among their own referrers |
| UserAccounts.WalletsStayUniqueExactlyWhen | auth/user_manager.py:96-138 | a request keeps the wallet index in bijection with the wallets if and only if it is refused, names no wallet, or names one not registered in any spelling; a lower-case wallet always keeps it |
| UserAccounts.UserManager.GenerateReferralCode | auth/user_manager.py:326-339 | the drawing loop returns the first drawn code that is not in use |
| UserAccounts.UserManager.Create | auth/user_manager.py:82-147 | the in-place creation with its two refusals |
| UserAccounts.UserManager.CountReferral | auth/user_manager.py:104-110 | finds the referrer by code and increments their counter |
| SafeModes.LatchMeans | agents/output_validator.py:456-467 | over every trace of all agents the failure count is the agent's run of failures since its last success or reset, and safe mode holds exactly when five failures in a row happened since the last reset |
| SafeModes.HistoryIsRecent | agents/output_validator.py:452-454 | the history is the end of all validations, between the last 5000 and 10000 of them |
| SafeModes.JudgementMeans | agents/output_validator.py:317-373 | a validation raises exactly when JSON was found, nothing forbidden, and the schema stage raises or passes what cannot answer the confidence asked for; it is valid exactly when every stage passes; and each failing verdict is given exactly when its stage is the first to fail |
| SafeModes.OutputValidator.Validate | agents/output_validator.py:290-373 | the first failing stage decides; every exit but an exception records exactly one validation, and an exception records none |
| SafeModes.OutputValidator.RecordValidation | agents/output_validator.py:450-467 | the in-place counting, latching and trimming |
| SafeModes.OutputValidator.ResetAgentSafeMode | agents/output_validator.py:489-493 | clears the latch and the count of the one agent |
| MarketUniverses.ByVolumeSorts | config/kalshi_universe_loader.py:44-50 | the sort is a permutation, descending by volume, and stable |
| MarketUniverses.SelectionWithinLimits | config/kalshi_universe_loader.py:234-242 | pinned markets are always selected, the size is at most max(pinned, limit), a category adds at most its cap |
| MarketUniverses.CategoryGetsAPrefix | config/kalshi_universe_loader.py:235-242 | with distinct tickers a category gets the first k of its list by volume, k the least of bucket, cap and room |
| MarketUniverses.NoBetterMarketLeftOut | config/kalshi_universe_loader.py:238-242 | no market left out has more volume than one selected from its category |
| MarketListings.BucketIsTradable | config/kalshi_universe_loader.py:202-232 | a bucket holds exactly the tickers of the tradable markets listed in its category |
| MarketListings.SelectedIsTradable | config/kalshi_universe_loader.py:202-242 | every market selected is pinned, or open, not excluded, within the volume and expiry limits and listed in an allowed category |
| MarketListings.NoBetterListingLeftOut | config/kalshi_universe_loader.py:202-242 | of two such markets of a category, one selected and one not, the one selected has traded no less, by the last listing of each |
| MarketListings.CategoryAdds | config/kalshi_universe_loader.py:234-242 | a category adds its cap, none without a positive one, as far as it has tradable markets and there is room |
| MarketUniverses.FullShareWhenRoomLeft | config/kalshi_universe_loader.py:235-242 | when the limit is not reached every category gets min(cap, bucket size), the most traded |
| MarketUniverses.FillBuckets | config/kalshi_universe_loader.py:202-232 | the nested loops collect exactly the eligible tickers per category, in catalogue order |
| MarketUniverses.TakeUpTo | config/kalshi_universe_loader.py:239-242 | the inner loop with its break |
| MarketUniverses.SelectUniverse | config/kalshi_universe_loader.py:178-242 | the loops compute the selection |
| Drawdowns.MaxDrawdown | agents/governor_agent.py:121-130 | cumulative sums and running maximum yield the greatest fall from a position to a later one, which is the greatest loss over consecutive positions after the first; zero for no data |
| Drawdowns.MaxDrawdownIsUnique | agents/governor_agent.py:130 | that value is determined by the sequence |
| Drawdowns.DrawdownZeroExactlyWhen | agents/governor_agent.py:127-130 | the drawdown is non-negative and zero if and only if every profit and loss after the first is non-negative |

## Left out

Not modelled at all:

- Sockets, databases, subprocess launch, receipts, HTTP, alert delivery, LLM calls, logging and the parsing of environment variables; their outcomes are arguments.
- Delivery to a handler with retries and back-off (agents/governance_event_bus.py:262-321): whether a handler accepts a delivery is one flag; the parsing of targets, the text of alerts and queries are left out.
- The votes of `SwarmVoting`, `ExpertPanel` and `ConflictResolver`: their tallies repeat the sums and maxima of the weighted decision.
- `DecisionAuditTrail`, decision summaries and the inference of assets from symbols: bookkeeping around the decision.
- Profilers, budgets, schema contents, passwords, sessions and the crypto subsets of the universe: finite data or easy members.

Where the model is narrower than the code:

- Caches.SetValid: is about sets that end, so requires `max_size` of at least one; SizeLoopEndsExactlyWhen has the rest. One clock reading is used for a whole cache operation.
- CacheObjects.Memoized.Call: the wrapped function is deterministic and has one argument; printing and hashing of arguments are a key function.
- LruOrders.LruKeepsTheMostRecent: is about entries of size zero that do not expire during the run; the order in every other run is in CacheEvictions.LruOrderIsThatOfLastTouches.
- Batching.BatchOptimizer.Process: a processor is a function of the batch that returns a list or raises; a missing processor is the identity.
- DeadLetters.ReplayMeans: handlers do not touch the bus during a replay, so no other delivery interleaves with its turns.
- DeadLetters.AppliedAtMostOnce: is about a store that stays within its cap; past the cap see AppliedAgainExactlyWhen and KeyStores.ForgottenExactlyWhen.
- HandlerDeliveries.AtMostOncePerHandlerExactlyWhen: is about one event, published once into an empty queue, and the replays after it.
- UserAccounts.RunIsSound: every request draws a user id not in use, and its code suffixes are drawn until one is fresh; users are values, so a caller's later changes to a returned user are not seen.
- UserAccounts.WalletsStayUniqueExactlyWhen: upper and lower case are those of ASCII, as they are for codes and for quorum keys.
- DecisionAggregation.DecisionAggregator.Decide: contributions are already parsed, and confidences are kept as a sum and a count; a missed quorum is returned without the text and id of its own event.
- SafeModes.OutputValidator.Validate: the stages' findings are arguments, a confidence that is a number is a real, and audit handlers are not called.
- MarketUniverses.NoBetterMarketLeftOut: needs tickers that are distinct across and within categories; selection sizes hold without that.
- Workflows.WorkflowGraph.Execute: an agent is a function of the node and its context, which does not touch the workflow.
