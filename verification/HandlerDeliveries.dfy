/** Publication and replays of one event, handler by handler. */
module HandlerDeliveries {
  import Governance = GovernanceLifecycle
  import opened DeadLetters
  import opened KeyStores
  import opened Sequences

  /** The pairs of a delivery and a handler that accepts it.  Delivery 0 is the publication, delivery
      `i + 1` the redelivery in turn `i`, counted over all replays; a redelivery goes to every handler. */
  type Acceptance = set<(nat, nat)>

  predicate AllAccept(accepted: Acceptance, delivery: nat, handlers: nat) {
    forall h :: 0 <= h < handlers ==> (delivery, h) in accepted
  }

  /** The names of the first `n` handlers that refuse the publication. */
  function Refusing(accepted: Acceptance, handlers: seq<string>, n: nat): (names: seq<string>)
    requires n <= |handlers|
    ensures |names| <= n
    ensures names == [] <==> AllAccept(accepted, 0, n)
  {
    if n == 0 then [] else
    Refusing(accepted, handlers, n - 1) + if (0, n - 1) in accepted then [] else [handlers[n - 1]]
  }

  /** A replay that skips applied keys, after `done` turns of earlier ones. */
  function ReplayAll(accepted: Acceptance, handlers: nat, done: nat): ReplayOptions {
    ReplayOptions(true, false, (turn: nat) => AllAccept(accepted, done + turn + 1, handlers))
  }

  /** The letters a publication into an empty queue leaves. */
  function LettersLeft(accepted: Acceptance, e: Governance.Event, handlers: seq<string>, maxLen: nat): seq<Entry> {
    Suffix(Letters(e, Refusing(accepted, handlers, |handlers|)), maxLen)
  }

  /** The key is marked where every handler accepts the publication. */
  function StoreLeft(accepted: Acceptance, e: Governance.Event, handlers: seq<string>,
                     applied: set<string>): set<string> {
    if Refusing(accepted, handlers, |handlers|) == [] then MarkApplied(applied, KeyOf(e)) else applied
  }

  /** How often handler `h` accepts in the turns of one replay: in every turn not skipped that it accepts. */
  function AcceptedIn(accepted: Acceptance, h: nat, outcomes: seq<Outcome>, done: nat): nat {
    if outcomes == [] then 0 else
    var n := |outcomes| - 1;
    AcceptedIn(accepted, h, outcomes[..n], done)
    + if outcomes[n] != Skipped && (done + n + 1, h) in accepted then 1 else 0
  }

  /** What a replay starts from. */
  datatype Stage = Stage(queue: seq<Entry>, store: set<string>, done: nat)

  function ReplayFrom(accepted: Acceptance, handlers: nat, maxLen: nat, s: Stage, maxEvents: int): State {
    Replay(ReplayAll(accepted, handlers, s.done), maxLen, s.queue, s.store, maxEvents)
  }

  function Later(s: Stage, t: State): Stage {
    Stage(t.queue, t.applied, s.done + |t.reports|)
  }

  /** How often it accepts in all the replays, one for each maximum given. */
  function Reaccepted(accepted: Acceptance, handlers: nat, maxLen: nat, s: Stage, replays: seq<int>, h: nat): nat
    decreases |replays|
  {
    if replays == [] then 0 else
    var t := ReplayFrom(accepted, handlers, maxLen, s, replays[0]);
    AcceptedIn(accepted, h, t.reports, s.done) + Reaccepted(accepted, handlers, maxLen, Later(s, t), replays[1..], h)
  }

  function Published(accepted: Acceptance, e: Governance.Event, handlers: seq<string>, applied: set<string>,
                     maxLen: nat): Stage {
    Stage(LettersLeft(accepted, e, handlers, maxLen), StoreLeft(accepted, e, handlers, applied), 0)
  }

  function TimesAccepted(accepted: Acceptance, e: Governance.Event, handlers: seq<string>, applied: set<string>,
                         maxLen: nat, replays: seq<int>, h: nat): nat {
    Reaccepted(accepted, |handlers|, maxLen, Published(accepted, e, handlers, applied, maxLen), replays, h)
    + if (0, h) in accepted then 1 else 0
  }

  /** Whichever deliveries the handlers accept and however often the queue is replayed, none of them accepts the
      event twice. */
  ghost predicate AtMostOncePerHandler(e: Governance.Event, handlers: seq<string>, applied: set<string>, maxLen: nat) {
    forall accepted: Acceptance, replays: seq<int>, h: nat ::
      h < |handlers| ==> TimesAccepted(accepted, e, handlers, applied, maxLen, replays, h) <= 1
  }

  lemma {:induction false} LettersLeftMean(accepted: Acceptance, e: Governance.Event, handlers: seq<string>,
                                           maxLen: nat)
    ensures var queue := LettersLeft(accepted, e, handlers, maxLen);
            && |queue| <= maxLen && |queue| <= |handlers|
            && (queue == [] <==> maxLen == 0 || AllAccept(accepted, 0, |handlers|))
            && forall i :: 0 <= i < |queue| ==> queue[i].event == e
  {
    LettersMean(e, Refusing(accepted, handlers, |handlers|));
  }

  /** A replay takes a turn for every letter it may, and treats each as the reference says. */
  lemma {:induction false} ReplayFollows(accepted: Acceptance, handlers: nat, maxLen: nat, s: Stage, maxEvents: int)
    returns (n: nat)
    requires |s.queue| <= maxLen
    ensures n == Turns(maxEvents, s.queue) <= |s.queue|
    ensures Follows(ReplayAll(accepted, handlers, s.done), s.queue, s.store, n,
                    ReplayFrom(accepted, handlers, maxLen, s, maxEvents))
  {
    n := Turns(maxEvents, s.queue);
    LoopFollows(ReplayAll(accepted, handlers, s.done), maxLen, s.queue, s.store, n);
  }

  // ---------- When the key is known ----------

  ghost predicate AllKnown(queue: seq<Entry>, store: set<string>) {
    forall i :: 0 <= i < |queue| ==> KeyOf(queue[i].event) in store
  }

  /** Letters whose key is in the store are all skipped, and leave the store alone. */
  lemma {:induction false} KnownKeyIsSkipped(opts: ReplayOptions, queue: seq<Entry>, applied: set<string>, n: nat)
    requires opts.skipIdempotent && n <= |queue| && AllKnown(queue, applied)
    ensures StoreAt(opts, queue, applied, n) == applied && FailedAgain(opts, queue, applied, n) == []
    ensures forall i :: 0 <= i < n ==> OutcomeOf(opts, queue, applied, i) == Skipped
  {
    if n > 0 {
      KnownKeyIsSkipped(opts, queue, applied, n - 1);
      KnownIsSkipped(opts, queue[n - 1], applied, n - 1);
    }
  }

  lemma {:induction false} KnownIsSkipped(opts: ReplayOptions, letter: Entry, store: set<string>, turn: nat)
    requires opts.skipIdempotent && KeyOf(letter.event) in store
    ensures Verdict(opts, letter, store, turn) == Skipped
  {
  }

  lemma {:induction false} SkippedIsNotAccepted(accepted: Acceptance, h: nat, outcomes: seq<Outcome>, done: nat)
    requires forall i :: 0 <= i < |outcomes| ==> outcomes[i] == Skipped
    ensures AcceptedIn(accepted, h, outcomes, done) == 0
  {
    if outcomes != [] {
      SkippedIsNotAccepted(accepted, h, outcomes[..|outcomes| - 1], done);
    }
  }

  ghost predicate Known(s: Stage, maxLen: nat) {
    |s.queue| <= maxLen && AllKnown(s.queue, s.store)
  }

  lemma {:induction false} KnownReplay(accepted: Acceptance, handlers: nat, maxLen: nat, s: Stage, maxEvents: int,
                                       h: nat)
    requires Known(s, maxLen)
    ensures var t := ReplayFrom(accepted, handlers, maxLen, s, maxEvents);
            AcceptedIn(accepted, h, t.reports, s.done) == 0 && Known(Later(s, t), maxLen)
  {
    var n := ReplayFollows(accepted, handlers, maxLen, s, maxEvents);
    var t := ReplayFrom(accepted, handlers, maxLen, s, maxEvents);
    KnownKeyIsSkipped(ReplayAll(accepted, handlers, s.done), s.queue, s.store, n);
    SkippedIsNotAccepted(accepted, h, t.reports, s.done);
    assert t.queue == s.queue[n..];
  }

  /** Then no replay redelivers anything. */
  lemma {:induction false} KnownIsNeverRedelivered(accepted: Acceptance, handlers: nat, maxLen: nat, s: Stage,
                                                   replays: seq<int>, h: nat)
    requires Known(s, maxLen)
    ensures Reaccepted(accepted, handlers, maxLen, s, replays, h) == 0
    decreases |replays|
  {
    if replays != [] {
      KnownReplay(accepted, handlers, maxLen, s, replays[0], h);
      var t := ReplayFrom(accepted, handlers, maxLen, s, replays[0]);
      KnownIsNeverRedelivered(accepted, handlers, maxLen, Later(s, t), replays[1..], h);
    }
  }

  // ---------- When there is one handler ----------

  lemma {:induction false} OneTurn(accepted: Acceptance, h: nat, outcomes: seq<Outcome>, done: nat)
    requires |outcomes| == 1
    ensures AcceptedIn(accepted, h, outcomes, done)
            == if outcomes[0] != Skipped && (done + 1, h) in accepted then 1 else 0
  {
    assert outcomes[..0] == [];
  }

  /** One replay of at most one letter for the one handler: it keeps the letter or accepts it, not both. */
  lemma {:induction false} AloneAcceptsOrKeeps(accepted: Acceptance, s: Stage, n: nat, t: State)
    requires n <= |s.queue| <= 1 && Follows(ReplayAll(accepted, 1, s.done), s.queue, s.store, n, t)
    ensures AcceptedIn(accepted, 0, t.reports, s.done) + |t.queue| <= |s.queue|
  {
    if n > 0 {
      var opts := ReplayAll(accepted, 1, s.done);
      var o := OutcomeOf(opts, s.queue, s.store, 0);
      OneTurn(accepted, 0, t.reports, s.done);
      assert FailedAgain(opts, s.queue, s.store, 1) == if o == Failed then [s.queue[0].Retried()] else [];
      assert s.queue[1..] == [];
      assert o == Failed ==> !AllAccept(accepted, s.done + 1, 1);
    }
  }

  lemma {:induction false} AloneAcceptsOnce(accepted: Acceptance, maxLen: nat, s: Stage, replays: seq<int>)
    requires |s.queue| <= 1 && |s.queue| <= maxLen
    ensures Reaccepted(accepted, 1, maxLen, s, replays, 0) <= |s.queue|
    decreases |replays|
  {
    if replays != [] {
      var t := ReplayFrom(accepted, 1, maxLen, s, replays[0]);
      var n := ReplayFollows(accepted, 1, maxLen, s, replays[0]);
      AloneAcceptsOrKeeps(accepted, s, n, t);
      AloneAcceptsOnce(accepted, maxLen, Later(s, t), replays[1..]);
    }
  }

  // ---------- At most once per handler ----------

  /** Nothing is redelivered where no letter is left, or the key was known. */
  lemma {:induction false} KnownAcceptedOnce(accepted: Acceptance, e: Governance.Event, handlers: seq<string>,
                                             applied: set<string>, maxLen: nat, replays: seq<int>, h: nat)
    requires LettersLeft(accepted, e, handlers, maxLen) == [] || KeyOf(e) in applied
    ensures TimesAccepted(accepted, e, handlers, applied, maxLen, replays, h) <= 1
  {
    LettersLeftMean(accepted, e, handlers, maxLen);
    KnownIsNeverRedelivered(accepted, |handlers|, maxLen, Published(accepted, e, handlers, applied, maxLen),
                            replays, h);
  }

  /** The one handler that left a letter has not accepted yet. */
  lemma {:induction false} AloneAcceptedOnce(accepted: Acceptance, e: Governance.Event, handlers: seq<string>,
                                             applied: set<string>, maxLen: nat, replays: seq<int>)
    requires |handlers| == 1 && LettersLeft(accepted, e, handlers, maxLen) != []
    ensures TimesAccepted(accepted, e, handlers, applied, maxLen, replays, 0) <= 1
  {
    LettersLeftMean(accepted, e, handlers, maxLen);
    AloneAcceptsOnce(accepted, maxLen, Published(accepted, e, handlers, applied, maxLen), replays);
    assert !AllAccept(accepted, 0, 1);
  }

  /** Two handlers: the first accepts the publication, the second does not, so there is a letter; its replay
      reaches the first handler again. */
  lemma {:induction false} SecondHandlerCausesRedelivery(e: Governance.Event, handlers: seq<string>,
                                                         applied: set<string>, maxLen: nat)
    requires |handlers| >= 2 && maxLen >= 1 && KeyOf(e) !in applied
    ensures TimesAccepted({(0, 0), (1, 0)}, e, handlers, applied, maxLen, [1], 0) == 2
  {
    var accepted: Acceptance := {(0, 0), (1, 0)};
    assert (0, 1) !in accepted && (1, 1) !in accepted;
    assert !AllAccept(accepted, 0, |handlers|) && !AllAccept(accepted, 1, |handlers|);
    var s := Published(accepted, e, handlers, applied, maxLen);
    LettersLeftMean(accepted, e, handlers, maxLen);
    var n := ReplayFollows(accepted, |handlers|, maxLen, s, 1);
    var t := ReplayFrom(accepted, |handlers|, maxLen, s, 1);
    assert |t.reports| == 1
           && t.reports[0] == OutcomeOf(ReplayAll(accepted, |handlers|, 0), s.queue, applied, 0) == Failed;
    OneTurn(accepted, 0, t.reports, 0);
    assert Reaccepted(accepted, |handlers|, maxLen, s, [1], 0) == 1 by {
      assert [1][1..] == [];
    }
  }

  /** Redelivery goes to every handler, also to those that accepted the event before.  So publication and any
      number of replays that skip applied keys make no handler accept an event twice, whatever the handlers
      do, if and only if there is at most one handler, no letter is kept, or the key was in the store to
      begin with. */
  lemma {:induction false} AtMostOncePerHandlerExactlyWhen(e: Governance.Event, handlers: seq<string>,
                                                           applied: set<string>, maxLen: nat)
    ensures AtMostOncePerHandler(e, handlers, applied, maxLen)
            <==> |handlers| <= 1 || maxLen == 0 || KeyOf(e) in applied
  {
    if |handlers| <= 1 || maxLen == 0 || KeyOf(e) in applied {
      forall accepted: Acceptance, replays: seq<int>, h: nat | h < |handlers|
        ensures TimesAccepted(accepted, e, handlers, applied, maxLen, replays, h) <= 1
      {
        LettersLeftMean(accepted, e, handlers, maxLen);
        if LettersLeft(accepted, e, handlers, maxLen) == [] || KeyOf(e) in applied {
          KnownAcceptedOnce(accepted, e, handlers, applied, maxLen, replays, h);
        } else {
          AloneAcceptedOnce(accepted, e, handlers, applied, maxLen, replays);
        }
      }
    } else {
      SecondHandlerCausesRedelivery(e, handlers, applied, maxLen);
    }
  }
}
