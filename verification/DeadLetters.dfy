/** Delivery of governance events: the bounded dead-letter queue, the store of applied
    idempotency keys, and the replay of dead letters. */
module DeadLetters {
  import Governance = GovernanceLifecycle
  import opened KeyStores
  import opened Options
  import opened Sequences

  /** A dead letter: the event, the handler that failed, and how often it was replayed since. */
  datatype Entry = Entry(event: Governance.Event, handler: string, retries: nat) {
    function Retried(): Entry {
      this.(retries := retries + 1)
    }
  }

  function OrNone(o: Option<string>): string {
    if o.Some? && o.value != "" then o.value else "none"
  }

  /** Type, target, asset, timeframe, action and the last eight characters of the id. */
  function KeyOf(e: Governance.Event): string {
    Joined([e.kind, e.target, OrNone(e.asset), OrNone(e.timeframe), e.action]) + Suffix(e.id, 8)
  }

  /** Each part followed by a colon. */
  function Joined(parts: seq<string>): string {
    if parts == [] then "" else parts[0] + ":" + Joined(parts[1..])
  }

  /** The key is meant to name an action on a target, but it ends in the event's own id: two events
      that ask for the very same action share a key exactly when their ids end alike. */
  lemma {:induction false} SameActionSharesKeyExactlyWhen(e: Governance.Event, other: Governance.EventId)
    ensures KeyOf(e.(id := other)) == KeyOf(e) <==> Suffix(other, 8) == Suffix(e.id, 8)
  {
    var prefix := Joined([e.kind, e.target, OrNone(e.asset), OrNone(e.timeframe), e.action]);
    assert KeyOf(e)[|prefix|..] == Suffix(e.id, 8);
    assert KeyOf(e.(id := other))[|prefix|..] == Suffix(other, 8);
  }

  datatype Outcome = Skipped | WouldApply | WouldSkip | Applied | Failed

  /** The queue, the applied keys, and the outcomes reported so far, one per processed entry. */
  datatype State = State(queue: seq<Entry>, applied: set<string>, reports: seq<Outcome>, stopped: bool)

  /** The options of a replay, and for each turn whether every handler accepts the redelivery. */
  datatype ReplayOptions = ReplayOptions(skipIdempotent: bool, dryRun: bool, succeeds: nat -> bool)

  /** A bounded deque: appending to a full one drops its oldest entry. */
  function Append(queue: seq<Entry>, e: Entry, maxLen: nat): seq<Entry> {
    Suffix(queue + [e], maxLen)
  }

  /** One turn of the replay loop on a non-empty queue. */
  function Turn(opts: ReplayOptions, maxLen: nat, s: State): State
    requires s.queue != []
  {
    var e := s.queue[0];
    var key := KeyOf(e.event);
    if opts.skipIdempotent && key in s.applied then
      s.(queue := s.queue[1..], reports := s.reports + [Skipped])
    else if opts.dryRun then
      s.(reports := s.reports + [if key in s.applied then WouldSkip else WouldApply], stopped := true)
    else if opts.succeeds(|s.reports|) then
      s.(queue := s.queue[1..], applied := MarkApplied(s.applied, key), reports := s.reports + [Applied])
    else
      s.(queue := Append(s.queue[1..], e.Retried(), maxLen), reports := s.reports + [Failed])
  }

  function Loop(opts: ReplayOptions, maxLen: nat, s: State, turns: nat): State {
    if turns == 0 then s else
    var t := Loop(opts, maxLen, s, turns - 1);
    if t.stopped || t.queue == [] then t else Turn(opts, maxLen, t)
  }

  /** `min(max_events, len(queue))` turns; a negative maximum gives none. */
  function Turns(maxEvents: int, queue: seq<Entry>): nat {
    Max(0, Min(maxEvents, |queue|))
  }

  function Replay(opts: ReplayOptions, maxLen: nat, queue: seq<Entry>, applied: set<string>, maxEvents: int): State {
    Loop(opts, maxLen, State(queue, applied, [], false), Turns(maxEvents, queue))
  }

  // ---------- The reference: one pass over the queue as it was ----------

  /** The store after the first `n` entries of the queue have had their turn. */
  function StoreAt(opts: ReplayOptions, queue: seq<Entry>, applied: set<string>, n: nat): set<string>
    requires n <= |queue|
  {
    if n == 0 then applied else
    var before := StoreAt(opts, queue, applied, n - 1);
    if Verdict(opts, queue[n - 1], before, n - 1) == Applied then
      MarkApplied(before, KeyOf(queue[n - 1].event))
    else before
  }

  function Verdict(opts: ReplayOptions, e: Entry, store: set<string>, turn: nat): Outcome {
    if opts.skipIdempotent && KeyOf(e.event) in store then Skipped
    else if opts.succeeds(turn) then Applied
    else Failed
  }

  function OutcomeOf(opts: ReplayOptions, queue: seq<Entry>, applied: set<string>, i: nat): Outcome
    requires i < |queue|
  {
    Verdict(opts, queue[i], StoreAt(opts, queue, applied, i), i)
  }

  /** The entries among the first `n` whose redelivery fails, in order, their counts raised. */
  function FailedAgain(opts: ReplayOptions, queue: seq<Entry>, applied: set<string>, n: nat): (r: seq<Entry>)
    requires n <= |queue|
    ensures |r| <= n
  {
    if n == 0 then [] else
    var before := FailedAgain(opts, queue, applied, n - 1);
    if OutcomeOf(opts, queue, applied, n - 1) == Failed then before + [queue[n - 1].Retried()] else before
  }

  function Count(reports: seq<Outcome>, o: Outcome): nat {
    if reports == [] then 0
    else Count(reports[..|reports| - 1], o) + if reports[|reports| - 1] == o then 1 else 0
  }

  /** One turn takes the head of what is left and puts a failure behind the earlier failures. */
  lemma {:induction false} TurnFollowsReference(opts: ReplayOptions, maxLen: nat, rest: seq<Entry>,
                                                failed: seq<Entry>, s: State)
    requires !opts.dryRun && rest != [] && s.queue == rest + failed && |s.queue| <= maxLen
    ensures var o := Verdict(opts, rest[0], s.applied, |s.reports|);
            var t := Turn(opts, maxLen, s);
            && t.queue == rest[1..] + (if o == Failed then failed + [rest[0].Retried()] else failed)
            && t.applied == (if o == Applied then MarkApplied(s.applied, KeyOf(rest[0].event)) else s.applied)
            && t.reports == s.reports + [o]
            && t.stopped == s.stopped
  {
    assert s.queue[0] == rest[0];
    assert s.queue[1..] == rest[1..] + failed;
    assert rest[1..] + failed + [rest[0].Retried()] == rest[1..] + (failed + [rest[0].Retried()]);
  }

  /** The state after `n` turns, by the reference: the entries of the original queue were handled
      in order, each once, and the queue is the untouched rest followed by the failures. */
  ghost predicate Follows(opts: ReplayOptions, queue: seq<Entry>, applied: set<string>, n: nat, t: State)
    requires n <= |queue|
  {
    && !t.stopped && |t.reports| == n
    && t.queue == queue[n..] + FailedAgain(opts, queue, applied, n)
    && t.applied == StoreAt(opts, queue, applied, n)
    && forall i :: 0 <= i < n ==> t.reports[i] == OutcomeOf(opts, queue, applied, i)
  }

  lemma {:induction false} TurnFollows(opts: ReplayOptions, maxLen: nat, queue: seq<Entry>, applied: set<string>,
                                       n: nat, s: State)
    requires !opts.dryRun && n < |queue| <= maxLen && Follows(opts, queue, applied, n, s)
    ensures s.queue != [] && Follows(opts, queue, applied, n + 1, Turn(opts, maxLen, s))
  {
    TurnFollowsReference(opts, maxLen, queue[n..], FailedAgain(opts, queue, applied, n), s);
    assert queue[n..][1..] == queue[n + 1..] && queue[n..][0] == queue[n];
  }

  lemma {:induction false} LoopFollows(opts: ReplayOptions, maxLen: nat, queue: seq<Entry>, applied: set<string>,
                                       n: nat)
    requires !opts.dryRun && n <= |queue| <= maxLen
    ensures Follows(opts, queue, applied, n, Loop(opts, maxLen, State(queue, applied, [], false), n))
  {
    if n > 0 {
      LoopFollows(opts, maxLen, queue, applied, n - 1);
      TurnFollows(opts, maxLen, queue, applied, n - 1, Loop(opts, maxLen, State(queue, applied, [], false), n - 1));
    }
  }

  lemma {:induction false} CountsAddUp(reports: seq<Outcome>)
    requires forall i :: 0 <= i < |reports| ==> reports[i] in {Skipped, Applied, Failed}
    ensures |reports| == Count(reports, Applied) + Count(reports, Skipped) + Count(reports, Failed)
  {
    if reports != [] {
      CountsAddUp(reports[..|reports| - 1]);
    }
  }

  /** A replay that is not a dry run processes exactly the first `min(max_events, length)`
      entries, and processed = applied + skipped + failed. */
  lemma {:induction false} ReplayMeans(opts: ReplayOptions, maxLen: nat, queue: seq<Entry>, applied: set<string>,
                                       maxEvents: int)
    requires !opts.dryRun && |queue| <= maxLen
    ensures var n := if maxEvents < 0 then 0 else if maxEvents < |queue| then maxEvents else |queue|;
            var t := Replay(opts, maxLen, queue, applied, maxEvents);
            && |t.reports| == n
            && t.queue == queue[n..] + FailedAgain(opts, queue, applied, n)
            && (forall i :: 0 <= i < n ==> t.reports[i] == OutcomeOf(opts, queue, applied, i))
            && n == Count(t.reports, Applied) + Count(t.reports, Skipped) + Count(t.reports, Failed)
  {
    var n := Turns(maxEvents, queue);
    LoopFollows(opts, maxLen, queue, applied, n);
    CountsAddUp(Replay(opts, maxLen, queue, applied, maxEvents).reports);
  }

  /** `again` are the entries at the positions `at` of the queue, in order, each with one retry more. */
  ghost predicate RetriedFrom(queue: seq<Entry>, again: seq<Entry>, at: seq<nat>, n: nat)
    requires n <= |queue|
  {
    && |at| == |again| && (forall k, l :: 0 <= k < l < |at| ==> at[k] < at[l])
    && forall k :: 0 <= k < |at| ==>
         at[k] < n && again[k] == Entry(queue[at[k]].event, queue[at[k]].handler, queue[at[k]].retries + 1)
  }

  lemma {:induction false} OneMoreRetried(queue: seq<Entry>, before: seq<Entry>, turns: seq<nat>, n: nat, failed: bool)
    returns (again: seq<Entry>, at: seq<nat>)
    requires n < |queue| && RetriedFrom(queue, before, turns, n)
    ensures again == (if failed then before + [queue[n].Retried()] else before)
    ensures at == (if failed then turns + [n] else turns)
    ensures RetriedFrom(queue, again, at, n + 1)
  {
    again := if failed then before + [queue[n].Retried()] else before;
    at := if failed then turns + [n] else turns;
  }

  /** The turns whose redelivery failed, in order. */
  function FailedTurns(opts: ReplayOptions, queue: seq<Entry>, applied: set<string>, n: nat): seq<nat>
    requires n <= |queue|
  {
    if n == 0 then [] else
    var before := FailedTurns(opts, queue, applied, n - 1);
    if OutcomeOf(opts, queue, applied, n - 1) == Failed then before + [n - 1] else before
  }

  lemma {:induction false} FailedTurnsMean(opts: ReplayOptions, queue: seq<Entry>, applied: set<string>, n: nat, i: nat)
    requires n <= |queue|
    ensures i in FailedTurns(opts, queue, applied, n) <==> i < n && OutcomeOf(opts, queue, applied, i) == Failed
  {
    if n > 0 {
      FailedTurnsMean(opts, queue, applied, n - 1, i);
    }
  }

  /** The failures behind the untouched rest are just the entries whose redelivery failed, in their order, each with
      one retry more. */
  lemma {:induction false} FailedAgainMeans(opts: ReplayOptions, queue: seq<Entry>, applied: set<string>, n: nat)
    returns (again: seq<Entry>, at: seq<nat>)
    requires n <= |queue|
    ensures again == FailedAgain(opts, queue, applied, n) && at == FailedTurns(opts, queue, applied, n)
    ensures RetriedFrom(queue, again, at, n)
  {
    again, at := [], [];
    if n > 0 {
      var before, turns := FailedAgainMeans(opts, queue, applied, n - 1);
      var failed := OutcomeOf(opts, queue, applied, n - 1) == Failed;
      again, at := OneMoreRetried(queue, before, turns, n - 1, failed);
    }
  }

  // ---------- At most once ----------

  lemma {:induction false} StoreBelowCap(opts: ReplayOptions, queue: seq<Entry>, applied: set<string>, m: nat, n: nat)
    requires m <= n <= |queue|
    requires |applied| + n <= STORE_CAP
    ensures |StoreAt(opts, queue, applied, n)| <= |applied| + n
    ensures StoreAt(opts, queue, applied, m) <= StoreAt(opts, queue, applied, n)
  {
    if n > 0 {
      StoreBelowCap(opts, queue, applied, Min(m, n - 1), n - 1);
      MarkBelowCap(StoreAt(opts, queue, applied, n - 1), KeyOf(queue[n - 1].event));
    }
  }

  /** With idempotent skipping, and while the store stays within its cap, an entry whose key was
      in the store at the start or was applied earlier in the replay is never redelivered; so
      entries that share a key are applied at most once. */
  lemma {:induction false} AppliedAtMostOnce(opts: ReplayOptions, queue: seq<Entry>, applied: set<string>, i: nat,
                                             j: nat)
    requires opts.skipIdempotent && |applied| + |queue| <= STORE_CAP
    requires j < |queue|
    requires KeyOf(queue[j].event) in applied
             || (i < j && KeyOf(queue[i].event) == KeyOf(queue[j].event)
                 && OutcomeOf(opts, queue, applied, i) == Applied)
    ensures OutcomeOf(opts, queue, applied, j) == Skipped
  {
    if KeyOf(queue[j].event) in applied {
      StoreBelowCap(opts, queue, applied, 0, j);
    } else {
      StoreBelowCap(opts, queue, applied, i, i);
      MarkBelowCap(StoreAt(opts, queue, applied, i), KeyOf(queue[i].event));
      StoreBelowCap(opts, queue, applied, i + 1, j);
    }
  }

  /** Turn `t` applies an entry with key `k`. */
  predicate Applies(opts: ReplayOptions, queue: seq<Entry>, applied: set<string>, t: nat, k: string)
    requires t < |queue|
  {
    OutcomeOf(opts, queue, applied, t) == Applied && KeyOf(queue[t].event) == k
  }

  /** Turn `t` applies an entry whose key makes the store drop `k`. */
  predicate Forgets(opts: ReplayOptions, queue: seq<Entry>, applied: set<string>, t: nat, k: string)
    requires t < |queue|
  {
    && OutcomeOf(opts, queue, applied, t) == Applied
    && Drops(StoreAt(opts, queue, applied, t), KeyOf(queue[t].event), k)
  }

  /** Some turn from `i` on forgets `k`, and none after it, before turn `n`, applies it again. */
  ghost predicate ForgottenSince(opts: ReplayOptions, queue: seq<Entry>, applied: set<string>, i: nat, n: nat,
                                 k: string)
    requires n <= |queue|
  {
    exists u: nat {:trigger Forgets(opts, queue, applied, u, k)} ::
      i <= u < n && Forgets(opts, queue, applied, u, k) && NotApplied(opts, queue, applied, u, n, k)
  }

  /** No turn strictly between `u` and `n` applies `k`. */
  ghost predicate NotApplied(opts: ReplayOptions, queue: seq<Entry>, applied: set<string>, u: nat, n: nat, k: string)
    requires n <= |queue|
  {
    forall t: nat {:trigger Applies(opts, queue, applied, t, k)} :: u < t < n ==> !Applies(opts, queue, applied, t, k)
  }

  lemma {:induction false} StoreOneLater(opts: ReplayOptions, queue: seq<Entry>, applied: set<string>, n: nat,
                                         k: string)
    requires n < |queue|
    ensures k in StoreAt(opts, queue, applied, n + 1)
            <==> (k in StoreAt(opts, queue, applied, n) || Applies(opts, queue, applied, n, k))
                 && !Forgets(opts, queue, applied, n, k)
  {
    MarkMeans(StoreAt(opts, queue, applied, n), KeyOf(queue[n].event), k);
  }

  lemma {:induction false} ForgottenOneLater(opts: ReplayOptions, queue: seq<Entry>, applied: set<string>, i: nat,
                                             n: nat, k: string)
    requires i <= n < |queue|
    ensures ForgottenSince(opts, queue, applied, i, n + 1, k)
            <==> Forgets(opts, queue, applied, n, k)
                 || (ForgottenSince(opts, queue, applied, i, n, k) && !Applies(opts, queue, applied, n, k))
  {
    forall u: nat | u < n
      ensures NotApplied(opts, queue, applied, u, n + 1, k)
              <==> NotApplied(opts, queue, applied, u, n, k) && !Applies(opts, queue, applied, n, k)
    {
    }
    assert NotApplied(opts, queue, applied, n, n + 1, k);
  }

  lemma {:induction false} MissingExactlyWhenForgotten(opts: ReplayOptions, queue: seq<Entry>, applied: set<string>,
                                                       i: nat, n: nat, k: string)
    requires i < n <= |queue| && Applies(opts, queue, applied, i, k)
    ensures k !in StoreAt(opts, queue, applied, n) <==> ForgottenSince(opts, queue, applied, i, n, k)
  {
    StoreOneLater(opts, queue, applied, n - 1, k);
    ForgottenOneLater(opts, queue, applied, i, n - 1, k);
    if n == i + 1 {
      assert !ForgottenSince(opts, queue, applied, i, i, k);
    } else {
      MissingExactlyWhenForgotten(opts, queue, applied, i, n - 1, k);
    }
  }

  /** Past the cap the promise can fail.  Of any two letters of a replay that share a key, the first of them
      applied and the redelivery of the second succeeding, the second is applied again if and only if a turn
      from the first on made the store forget the key, and no turn after that marked it anew. */
  lemma {:induction false} AppliedAgainExactlyWhen(opts: ReplayOptions, queue: seq<Entry>, applied: set<string>,
                                                   i: nat, j: nat)
    requires opts.skipIdempotent && i < j < |queue| && KeyOf(queue[i].event) == KeyOf(queue[j].event)
    requires OutcomeOf(opts, queue, applied, i) == Applied && opts.succeeds(j)
    ensures OutcomeOf(opts, queue, applied, j) == Applied
            <==> ForgottenSince(opts, queue, applied, i, j, KeyOf(queue[j].event))
  {
    MissingExactlyWhenForgotten(opts, queue, applied, i, j, KeyOf(queue[j].event));
  }

  /** For the first two letters that can be told before the replay: the store is full and the key, a new one,
      among its smallest, so that it is forgotten as soon as it is marked. */
  lemma {:induction false} AppliedTwiceExactlyWhen(opts: ReplayOptions, queue: seq<Entry>, applied: set<string>)
    requires opts.skipIdempotent && |applied| <= STORE_CAP
    requires |queue| >= 2 && KeyOf(queue[0].event) == KeyOf(queue[1].event)
    requires KeyOf(queue[0].event) !in applied && opts.succeeds(0) && opts.succeeds(1)
    ensures OutcomeOf(opts, queue, applied, 0) == Applied
    ensures OutcomeOf(opts, queue, applied, 1) == Applied
            <==> |applied| == STORE_CAP && Rank(applied, KeyOf(queue[0].event)) < EVICTED
  {
    ForgottenExactlyWhen(applied, KeyOf(queue[0].event));
    assert StoreAt(opts, queue, applied, 0) == applied;
    assert StoreAt(opts, queue, applied, 1) == MarkApplied(applied, KeyOf(queue[0].event));
  }

  // ---------- Dry runs ----------

  /** The leading entries, within the first `n`, that are already applied. */
  function LeadingApplied(queue: seq<Entry>, applied: set<string>, n: nat): (d: nat)
    requires n <= |queue|
    ensures d <= n
  {
    if n == 0 then 0 else
    var d := LeadingApplied(queue, applied, n - 1);
    if d == n - 1 && KeyOf(queue[d].event) in applied then n else d
  }

  lemma {:induction false} LeadingMeans(queue: seq<Entry>, applied: set<string>, n: nat)
    requires n <= |queue|
    ensures var d := LeadingApplied(queue, applied, n);
            && (forall i :: 0 <= i < d ==> KeyOf(queue[i].event) in applied)
            && (d < n ==> KeyOf(queue[d].event) !in applied)
  {
    if n > 0 {
      LeadingMeans(queue, applied, n - 1);
    }
  }

  lemma {:induction false} DryTurn(opts: ReplayOptions, maxLen: nat, queue: seq<Entry>, d: nat, s: State)
    requires opts.dryRun && d < |queue| && s.queue == queue[d..]
    ensures var skip := opts.skipIdempotent && KeyOf(queue[d].event) in s.applied;
            var t := Turn(opts, maxLen, s);
            && t.queue == (if skip then queue[d + 1..] else queue[d..])
            && t.applied == s.applied
            && t.reports == s.reports + [if skip then Skipped
                                         else if KeyOf(queue[d].event) in s.applied then WouldSkip else WouldApply]
            && t.stopped == if skip then s.stopped else true
  {
    assert s.queue[0] == queue[d] && s.queue[1..] == queue[d + 1..];
  }

  /** The state of a dry run after at most `n` turns. */
  ghost predicate Simulated(opts: ReplayOptions, queue: seq<Entry>, applied: set<string>, n: nat, t: State)
    requires n <= |queue|
  {
    var d := if opts.skipIdempotent then LeadingApplied(queue, applied, n) else 0;
    && t.queue == queue[d..] && t.applied == applied
    && (t.stopped <==> d < n)
    && |t.reports| == (if d < n then d + 1 else d)
    && (forall i :: 0 <= i < d ==> t.reports[i] == Skipped)
    && (d < n ==> t.reports[d] == if KeyOf(queue[d].event) in applied then WouldSkip else WouldApply)
  }

  lemma {:induction false} DryTurnSimulates(opts: ReplayOptions, maxLen: nat, queue: seq<Entry>, applied: set<string>,
                                            n: nat, s: State)
    returns (t: State)
    requires opts.dryRun && 0 < n <= |queue| && Simulated(opts, queue, applied, n - 1, s)
    ensures s.stopped || s.queue != []
    ensures t == if s.stopped then s else Turn(opts, maxLen, s)
    ensures Simulated(opts, queue, applied, n, t)
  {
    t := s;
    LeadingMeans(queue, applied, n - 1);
    if !s.stopped {
      DryTurn(opts, maxLen, queue, if opts.skipIdempotent then LeadingApplied(queue, applied, n - 1) else 0, s);
      t := Turn(opts, maxLen, s);
    }
  }

  lemma {:induction false} DryLoop(opts: ReplayOptions, maxLen: nat, queue: seq<Entry>, applied: set<string>, n: nat)
    returns (t: State)
    requires opts.dryRun && n <= |queue|
    ensures t == Loop(opts, maxLen, State(queue, applied, [], false), n)
    ensures Simulated(opts, queue, applied, n, t)
  {
    if n == 0 {
      t := State(queue, applied, [], false);
      assert queue[0..] == queue;
    } else {
      var s := DryLoop(opts, maxLen, queue, applied, n - 1);
      t := DryTurnSimulates(opts, maxLen, queue, applied, n, s);
    }
  }

  /** `t` is how a dry run of at most `n` turns ends: where it skips, the leading entries already applied have gone and
      are reported as skipped; the next one is reported by what would become of it, and no turn follows. */
  ghost predicate DryRunEnds(opts: ReplayOptions, queue: seq<Entry>, applied: set<string>, n: nat, t: State)
    requires n <= |queue|
  {
    var d := |queue| - |t.queue|;
    && 0 <= d <= n && t.queue == queue[d..] && t.applied == applied
    && |t.reports| == (if d < n then d + 1 else n)
    && (forall i :: 0 <= i < d ==> opts.skipIdempotent && KeyOf(queue[i].event) in applied && t.reports[i] == Skipped)
    && (d < n ==>
          && !(opts.skipIdempotent && KeyOf(queue[d].event) in applied)
          && t.reports[d] == if KeyOf(queue[d].event) in applied then WouldSkip else WouldApply)
  }

  /** A dry run delivers nothing and applies nothing, but it is not quite a simulation: it removes
      the leading entries already applied.  It leaves the queue as it was exactly when it takes no
      turn, does not skip, or finds the first entry not yet applied. */
  lemma {:induction false} DryRunMeans(opts: ReplayOptions, maxLen: nat, queue: seq<Entry>, applied: set<string>,
                                       maxEvents: int)
    requires opts.dryRun
    ensures var t := Replay(opts, maxLen, queue, applied, maxEvents);
            && DryRunEnds(opts, queue, applied,
                          if maxEvents < 0 then 0 else if maxEvents < |queue| then maxEvents else |queue|, t)
            && (t.queue == queue <==>
                maxEvents <= 0 || queue == [] || !opts.skipIdempotent || KeyOf(queue[0].event) !in applied)
  {
    var t := DryLoop(opts, maxLen, queue, applied, Turns(maxEvents, queue));
    LeadingMeans(queue, applied, Turns(maxEvents, queue));
  }

  // ---------- First delivery ----------

  function Letters(e: Governance.Event, handlers: seq<string>): seq<Entry> {
    if handlers == [] then [] else Letters(e, handlers[..|handlers| - 1]) + [Entry(e, handlers[|handlers| - 1], 0)]
  }

  /** One letter for each handler, in order, not yet replayed. */
  lemma {:induction false} LettersMean(e: Governance.Event, handlers: seq<string>)
    ensures |Letters(e, handlers)| == |handlers|
    ensures forall i :: 0 <= i < |handlers| ==> Letters(e, handlers)[i] == Entry(e, handlers[i], 0)
  {
    if handlers != [] {
      LettersMean(e, handlers[..|handlers| - 1]);
    }
  }

  lemma {:induction false} OneMoreLetter(queue: seq<Entry>, e: Governance.Event, handlers: seq<string>, i: nat,
                                         maxLen: nat)
    requires i < |handlers|
    ensures Append(Suffix(queue + Letters(e, handlers[..i]), maxLen), Entry(e, handlers[i], 0), maxLen)
            == Suffix(queue + Letters(e, handlers[..i + 1]), maxLen)
  {
    var letter := Entry(e, handlers[i], 0);
    assert handlers[..i + 1][..i] == handlers[..i];
    SuffixOfSuffix(queue + Letters(e, handlers[..i]), letter, maxLen);
    assert queue + Letters(e, handlers[..i]) + [letter] == queue + Letters(e, handlers[..i + 1]);
  }

  // ---------- Delivery failures in a row ----------

  /** How many deliveries, of those that end the history, had a handler fail. */
  function FailureStreak(failed: seq<bool>): nat {
    if failed == [] || !failed[|failed| - 1] then 0 else FailureStreak(failed[..|failed| - 1]) + 1
  }

  predicate LastThreeFailed(failed: seq<bool>) {
    |failed| >= 3 && failed[|failed| - 3] && failed[|failed| - 2] && failed[|failed| - 1]
  }

  lemma {:induction false} StreakOfThree(failed: seq<bool>)
    ensures FailureStreak(failed) >= 3 <==> LastThreeFailed(failed)
  {
    var n := |failed|;
    if n >= 3 {
      assert failed[..n - 1][..n - 2] == failed[..n - 2] && failed[..n - 2][..n - 3] == failed[..n - 3];
      assert failed[..n - 1][n - 2] == failed[n - 2] && failed[..n - 2][n - 3] == failed[n - 3];
      assert FailureStreak(failed[..n - 1]) >= 2 <==> failed[n - 2] && FailureStreak(failed[..n - 2]) >= 1;
    } else if n == 2 {
      assert FailureStreak(failed[..1][..0]) == 0;
    }
  }

  // ---------- Replay statistics ----------

  function TurnsWith(reports: seq<Outcome>, o: Outcome): set<nat> {
    set i: nat | i < |reports| && reports[i] == o
  }

  /** The count of an outcome is the number of turns that had it. */
  lemma {:induction false} CountMeans(reports: seq<Outcome>, o: Outcome)
    ensures Count(reports, o) == |TurnsWith(reports, o)|
  {
    if reports != [] {
      var front, n := reports[..|reports| - 1], |reports| - 1;
      CountMeans(front, o);
      assert TurnsWith(reports, o) == TurnsWith(front, o) + if reports[n] == o then {n} else {};
    }
  }

  datatype Stats = Stats(attempted: nat, applied: nat, skipped: nat, failed: nat)

  /** The totals after the turns that gave `reports`. */
  function StatsAfter(s: Stats, reports: seq<Outcome>): Stats {
    Stats(s.attempted + |reports|, s.applied + Count(reports, Applied), s.skipped + Count(reports, Skipped),
          s.failed + Count(reports, Failed))
  }

  lemma {:induction false} CountSnoc(reports: seq<Outcome>, o: Outcome, p: Outcome)
    ensures Count([o], p) == if o == p then 1 else 0
    ensures Count(reports + [o], p) == Count(reports, p) + Count([o], p)
  {
    assert [o][..0] == [] && Count([o][..0], p) == 0;
    assert (reports + [o])[..|reports|] == reports;
  }

  lemma {:induction false} StatsSnoc(s: Stats, reports: seq<Outcome>, o: Outcome)
    ensures StatsAfter(s, reports + [o]) == StatsAfter(StatsAfter(s, reports), [o])
  {
    CountSnoc(reports, o, Applied);
    CountSnoc(reports, o, Skipped);
    CountSnoc(reports, o, Failed);
  }

  // ---------- The queue object ----------

  class DeliveryState {
    const maxLen: nat
    var queue: seq<Entry>
    var applied: set<string>
    var consecutiveFailures: nat
    var stats: Stats
    ghost var deliveries: seq<bool>

    ghost predicate Valid()
      reads this
    {
      |queue| <= maxLen && |applied| <= STORE_CAP && consecutiveFailures == FailureStreak(deliveries)
    }

    constructor (maxLen: nat)
      ensures Valid() && queue == [] && applied == {} && this.maxLen == maxLen
      ensures deliveries == [] && stats == Stats(0, 0, 0, 0)
    {
      this.maxLen := maxLen;
      queue, applied := [], {};
      consecutiveFailures, deliveries, stats := 0, [], Stats(0, 0, 0, 0);
    }

    /** After the delivery of a published event: one dead letter for each handler that failed,
        or the key marked as applied when none did.  The third failing delivery in a row, and every
        one after it, raises an alert. */
    method AfterDelivery(e: Governance.Event, failedHandlers: seq<string>) returns (alert: bool)
      requires Valid()
      modifies `queue, `applied, `consecutiveFailures, `deliveries
      ensures Valid()
      ensures deliveries == old(deliveries) + [failedHandlers != []]
      ensures alert <==> LastThreeFailed(deliveries)
      ensures queue == Suffix(old(queue) + Letters(e, failedHandlers), maxLen)
      ensures applied == if failedHandlers == [] then MarkApplied(old(applied), KeyOf(e)) else old(applied)
    {
      for i := 0 to |failedHandlers|
        invariant Valid() && applied == old(applied) && deliveries == old(deliveries)
        invariant queue == Suffix(old(queue) + Letters(e, failedHandlers[..i]), maxLen)
      {
        OneMoreLetter(old(queue), e, failedHandlers, i, maxLen);
        queue := Append(queue, Entry(e, failedHandlers[i], 0), maxLen);
      }
      assert failedHandlers[..|failedHandlers|] == failedHandlers;
      alert := CountDelivery(failedHandlers != []);
      if failedHandlers == [] {
        Mark(KeyOf(e));
      }
    }

    method CountDelivery(failed: bool) returns (alert: bool)
      requires consecutiveFailures == FailureStreak(deliveries)
      modifies `consecutiveFailures, `deliveries
      ensures consecutiveFailures == FailureStreak(deliveries)
      ensures deliveries == old(deliveries) + [failed]
      ensures alert <==> LastThreeFailed(deliveries)
    {
      StreakOfThree(deliveries + [failed]);
      assert (deliveries + [failed])[..|deliveries|] == deliveries;
      alert := false;
      deliveries := deliveries + [failed];
      if failed {
        consecutiveFailures := consecutiveFailures + 1;
        if consecutiveFailures >= 3 {
          alert := true;
        }
      } else {
        consecutiveFailures := 0;
      }
    }

    method Mark(key: string)
      requires Valid()
      modifies `applied
      ensures Valid()
      ensures applied == MarkApplied(old(applied), key)
    {
      MarkWithinCap(applied, key);
      applied := MarkApplied(applied, key);
    }

    /** Every handler takes the event again, or the entry goes back to the end of the queue. */
    method Redeliver(e: Entry, key: string, succeeds: bool) returns (outcome: Outcome)
      requires Valid()
      modifies `queue, `applied
      ensures Valid()
      ensures queue == if succeeds then old(queue) else Append(old(queue), e.Retried(), maxLen)
      ensures applied == if succeeds then MarkApplied(old(applied), key) else old(applied)
      ensures outcome == if succeeds then Applied else Failed
    {
      if succeeds {
        Mark(key);
        outcome := Applied;
      } else {
        queue := Append(queue, e.Retried(), maxLen);
        outcome := Failed;
      }
    }

    /** One turn of the replay: the head is skipped, reported by a dry run, or redelivered. */
    method TakeTurn(opts: ReplayOptions, reports: seq<Outcome>) returns (outcome: Outcome, stopped: bool)
      requires Valid() && queue != []
      modifies `queue, `applied, `stats
      ensures Valid()
      ensures stats == StatsAfter(old(stats), [outcome])
      ensures State(queue, applied, reports + [outcome], stopped)
              == Turn(opts, maxLen, State(old(queue), old(applied), reports, false))
    {
      var e := queue[0];
      var key := KeyOf(e.event);
      stopped := false;
      if opts.skipIdempotent && key in applied {
        queue := queue[1..];
        outcome := Skipped;
      } else if opts.dryRun {
        outcome := if key in applied then WouldSkip else WouldApply;
        stopped := true;
      } else {
        queue := queue[1..];
        outcome := Redeliver(e, key, opts.succeeds(|reports|));
      }
      CountTurn(outcome);
    }

    method CountTurn(outcome: Outcome)
      modifies `stats
      ensures stats == StatsAfter(old(stats), [outcome])
    {
      CountSnoc([], outcome, Applied);
      CountSnoc([], outcome, Skipped);
      CountSnoc([], outcome, Failed);
      stats := stats.(attempted := stats.attempted + 1);
      match outcome
      case Skipped => stats := stats.(skipped := stats.skipped + 1);
      case Applied => stats := stats.(applied := stats.applied + 1);
      case Failed => stats := stats.(failed := stats.failed + 1);
      case _ =>
    }

    method RetryDeadLetter(maxEvents: int, opts: ReplayOptions) returns (reports: seq<Outcome>)
      requires Valid()
      modifies `queue, `applied, `stats
      ensures Valid()
      ensures stats == StatsAfter(old(stats), reports)
      ensures stats.attempted == old(stats.attempted) + |reports|
      ensures stats.applied == old(stats.applied) + |TurnsWith(reports, Applied)|
      ensures stats.skipped == old(stats.skipped) + |TurnsWith(reports, Skipped)|
      ensures stats.failed == old(stats.failed) + |TurnsWith(reports, Failed)|
      ensures var t := Replay(opts, maxLen, old(queue), old(applied), maxEvents);
              queue == t.queue && applied == t.applied && reports == t.reports
    {
      reports := [];
      ghost var start := State(queue, applied, [], false);
      var turns := Turns(maxEvents, queue);
      var stopped := false;
      for i := 0 to turns
        invariant Valid() && stats == StatsAfter(old(stats), reports)
        invariant State(queue, applied, reports, stopped) == Loop(opts, maxLen, start, i)
      {
        if !stopped && queue != [] {
          var outcome, last := TakeTurn(opts, reports);
          StatsSnoc(old(stats), reports, outcome);
          reports, stopped := reports + [outcome], last;
        }
      }
      CountMeans(reports, Applied);
      CountMeans(reports, Skipped);
      CountMeans(reports, Failed);
    }
  }
}
