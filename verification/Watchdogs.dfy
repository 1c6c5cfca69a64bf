/** The restart supervisor: forward-progress signals, the decision, and the polling loop. */
module Watchdogs {
  import opened Options
  import opened Sequences

  const HOUR: real := 3600.0

  datatype Signal = PortClosed | HeartbeatStale | LogSilent

  datatype Action = Ok | Wait | Observe | BudgetExhausted | Restart

  datatype Config = Config(missThreshold: int, maxRestarts: int, cooldown: real, autoRestart: bool,
                           staleAfter: real, minUptime: real)

  /** One poll: the clock, the three signals and the age of the server's pid file. */
  datatype Poll = Poll(now: real, portListening: bool, heartbeatAge: Option<real>, logAge: Option<real>,
                       uptime: Option<real>)

  function SignalsFailed(poll: Poll, staleAfter: real): seq<Signal> {
    (if poll.portListening then [] else [PortClosed])
    + (if poll.heartbeatAge.Some? then
         if poll.heartbeatAge.value > staleAfter then [HeartbeatStale] else []
       else if poll.logAge.None? || poll.logAge.value > staleAfter then [LogSilent] else [])
  }

  /** Each signal fails for its own reason, the log being asked only where there is no heartbeat. */
  lemma {:induction false} SignalsMean(poll: Poll, staleAfter: real)
    ensures PortClosed in SignalsFailed(poll, staleAfter) <==> !poll.portListening
    ensures HeartbeatStale in SignalsFailed(poll, staleAfter)
            <==> poll.heartbeatAge.Some? && poll.heartbeatAge.value > staleAfter
    ensures LogSilent in SignalsFailed(poll, staleAfter)
            <==> poll.heartbeatAge.None? && (poll.logAge.None? || poll.logAge.value > staleAfter)
  {
  }

  /** What the loop passes to the decision: a young process is excused a stale heartbeat. */
  function CountedFailures(cfg: Config, poll: Poll): seq<Signal> {
    var failed := SignalsFailed(poll, cfg.staleAfter);
    if failed != [] && poll.uptime.Some? && poll.uptime.value < cfg.minUptime
    then Filter(failed, (s: Signal) => s != HeartbeatStale)
    else failed
  }

  predicate Failing(cfg: Config, poll: Poll) {
    CountedFailures(cfg, poll) != []
  }

  /** A poll fails exactly when the port is closed, or there is no heartbeat to read and the
      log is silent, or the heartbeat is stale and the process is not known to be young. */
  lemma {:induction false} FailingMeans(cfg: Config, poll: Poll)
    ensures Failing(cfg, poll) <==>
            || !poll.portListening
            || (poll.heartbeatAge.None? && (poll.logAge.None? || poll.logAge.value > cfg.staleAfter))
            || (poll.heartbeatAge.Some? && poll.heartbeatAge.value > cfg.staleAfter
                && (poll.uptime.None? || poll.uptime.value >= cfg.minUptime))
  {
    var failed := SignalsFailed(poll, cfg.staleAfter);
    var keep := (s: Signal) => s != HeartbeatStale;
    FilterMembers(failed, keep, PortClosed);
    FilterMembers(failed, keep, LogSilent);
    if failed == [HeartbeatStale] {
      FilterNone(failed, keep);
    }
  }

  /** All the loop uses of a poll: its time and whether it failed. */
  datatype Tick = Tick(now: real, failing: bool)

  function Digest(cfg: Config, poll: Poll): Tick {
    Tick(poll.now, Failing(cfg, poll))
  }

  // ---------- The decision and the loop ----------

  /** The three loop variables of the supervisor. */
  datatype State = State(misses: int, restartTimes: seq<real>, lastRestart: Option<real>)

  const INITIAL := State(0, [], None)

  /** Restarts less than an hour old at `now`. */
  function Recent(now: real): real -> bool {
    t => now - t < HOUR
  }

  function Decide(cfg: Config, failing: bool, s: State, now: real): (Action, seq<real>, int) {
    if !failing then (Ok, Filter(s.restartTimes, Recent(now)), 0) else
    var misses := s.misses + 1;
    if misses < cfg.missThreshold then (Wait, s.restartTimes, misses)
    else if !cfg.autoRestart then (Observe, s.restartTimes, misses)
    else
      var window := Filter(s.restartTimes, Recent(now));
      if |window| >= cfg.maxRestarts then (BudgetExhausted, window, misses)
      else if s.lastRestart.Some? && now - s.lastRestart.value < cfg.cooldown then (Wait, window, misses)
      else (Restart, window, misses)
  }

  function Step(cfg: Config, s: State, tick: Tick): (State, Action) {
    var (action, times, misses) := Decide(cfg, tick.failing, s, tick.now);
    if action == Restart
    then (State(0, times + [tick.now], Some(tick.now)), action)
    else (State(misses, times, s.lastRestart), action)
  }

  function Run(cfg: Config, ticks: seq<Tick>): (r: (State, seq<Action>))
    ensures |r.1| == |ticks|
  {
    if ticks == [] then (INITIAL, []) else
    var (s, actions) := Run(cfg, ticks[..|ticks| - 1]);
    var (s', action) := Step(cfg, s, ticks[|ticks| - 1]);
    (s', actions + [action])
  }

  function Digests(cfg: Config, polls: seq<Poll>): (ticks: seq<Tick>)
    ensures |ticks| == |polls|
    ensures forall i :: 0 <= i < |polls| ==> ticks[i] == Digest(cfg, polls[i])
  {
    if polls == [] then []
    else Digests(cfg, polls[..|polls| - 1]) + [Digest(cfg, polls[|polls| - 1])]
  }

  /** The polling loop over a finite run, with the actions it takes. */
  method Supervise(cfg: Config, polls: seq<Poll>) returns (actions: seq<Action>)
    ensures actions == Run(cfg, Digests(cfg, polls)).1
    ensures NonDecreasing(Digests(cfg, polls)) ==> Supervised(cfg, Digests(cfg, polls), actions)
  {
    actions := [];
    var misses, restartTimes, lastRestart := 0, [], None;
    ghost var ticks := Digests(cfg, polls);
    for i := 0 to |polls|
      invariant Run(cfg, ticks[..i]) == (State(misses, restartTimes, lastRestart), actions)
    {
      var now := polls[i].now;
      assert ticks[..i + 1][..i] == ticks[..i];
      var (action, times, missed) :=
        Decide(cfg, Failing(cfg, polls[i]), State(misses, restartTimes, lastRestart), now);
      restartTimes, misses := times, missed;
      if action == Restart {
        lastRestart := Some(now);
        restartTimes := restartTimes + [now];
        misses := 0;
      }
      actions := actions + [action];
    }
    assert ticks[..|polls|] == ticks;
    if NonDecreasing(ticks) {
      RunIsSupervised(cfg, ticks);
    }
  }

  // ---------- The reference: decisions read off the whole history ----------

  ghost predicate NonDecreasing(ticks: seq<Tick>) {
    forall i, j :: 0 <= i < j < |ticks| ==> ticks[i].now <= ticks[j].now
  }

  /** The times of all restarts of a history, nothing pruned. */
  function RestartLog(ticks: seq<Tick>, actions: seq<Action>): seq<real>
    requires |ticks| == |actions|
  {
    if ticks == [] then [] else
    var n := |ticks| - 1;
    var log := RestartLog(ticks[..n], actions[..n]);
    if actions[n] == Restart then log + [ticks[n].now] else log
  }

  /** How many failing ticks end the history, none of them a restart. */
  function Streak(cfg: Config, ticks: seq<Tick>, actions: seq<Action>): nat
    requires |ticks| == |actions|
  {
    if ticks == [] then 0 else
    var n := |ticks| - 1;
    if !ticks[n].failing || actions[n] == Restart then 0
    else Streak(cfg, ticks[..n], actions[..n]) + 1
  }

  /** The documented policy, stated on the unpruned history. */
  function Policy(cfg: Config, ticks: seq<Tick>, actions: seq<Action>, tick: Tick): Action
    requires |ticks| == |actions|
  {
    var log := RestartLog(ticks, actions);
    if !tick.failing then Ok
    else if Streak(cfg, ticks, actions) + 1 < cfg.missThreshold then Wait
    else if !cfg.autoRestart then Observe
    else if |Filter(log, Recent(tick.now))| >= cfg.maxRestarts then BudgetExhausted
    else if log != [] && tick.now - log[|log| - 1] < cfg.cooldown then Wait
    else Restart
  }

  /** Poll `i` was answered by the policy, given the history before it. */
  ghost predicate FollowsPolicy(cfg: Config, ticks: seq<Tick>, actions: seq<Action>, i: nat)
    requires |ticks| == |actions| && i < |ticks|
  {
    actions[i] == Policy(cfg, ticks[..i], actions[..i], ticks[i])
  }

  ghost predicate Supervised(cfg: Config, ticks: seq<Tick>, actions: seq<Action>) {
    && |ticks| == |actions|
    && forall i :: 0 <= i < |ticks| ==> FollowsPolicy(cfg, ticks, actions, i)
  }

  /** The pruned state answers every later question as the full history would. */
  ghost predicate Represents(cfg: Config, s: State, ticks: seq<Tick>, actions: seq<Action>)
    requires |ticks| == |actions|
  {
    var log := RestartLog(ticks, actions);
    && s.misses == Streak(cfg, ticks, actions)
    && s.lastRestart == (if log == [] then None else Some(log[|log| - 1]))
    && forall now {:trigger Recent(now)} :: (forall i :: 0 <= i < |ticks| ==> ticks[i].now <= now) ==>
         Filter(s.restartTimes, Recent(now)) == Filter(log, Recent(now))
  }

  lemma {:induction false} RunRepresents(cfg: Config, ticks: seq<Tick>)
    requires NonDecreasing(ticks)
    ensures Represents(cfg, Run(cfg, ticks).0, ticks, Run(cfg, ticks).1)
  {
    if ticks != [] {
      var n := |ticks| - 1;
      RunRepresents(cfg, ticks[..n]);
      StepRepresents(cfg, Run(cfg, ticks[..n]).0, ticks[..n], Run(cfg, ticks[..n]).1, ticks[n]);
      assert ticks == ticks[..n] + [ticks[n]];
    }
  }

  lemma {:induction false} StepRepresents(cfg: Config, s: State, ticks: seq<Tick>, actions: seq<Action>, tick: Tick)
    requires |ticks| == |actions| && NonDecreasing(ticks + [tick])
    requires Represents(cfg, s, ticks, actions)
    ensures Step(cfg, s, tick).1 == Policy(cfg, ticks, actions, tick)
    ensures Represents(cfg, Step(cfg, s, tick).0, ticks + [tick], actions + [Step(cfg, s, tick).1])
  {
    var (s', action) := Step(cfg, s, tick);
    var log, log' := RestartLog(ticks, actions), RestartLog(ticks + [tick], actions + [action]);
    assert (ticks + [tick])[..|ticks|] == ticks && (actions + [action])[..|ticks|] == actions;
    assert forall i :: 0 <= i < |ticks| ==> (ticks + [tick])[i].now <= (ticks + [tick])[|ticks|].now;
    assert log' == if action == Restart then log + [tick.now] else log;
    forall now {:trigger Recent(now)} | forall i :: 0 <= i < |ticks + [tick]| ==> (ticks + [tick])[i].now <= now
      ensures Filter(s'.restartTimes, Recent(now)) == Filter(log', Recent(now))
    {
      assert tick.now == (ticks + [tick])[|ticks|].now <= now;
      assert forall i :: 0 <= i < |ticks| ==> ticks[i].now == (ticks + [tick])[i].now;
      StepKeepsWindow(cfg, s, tick, log, Recent(now));
    }
  }

  /** A window cannot tell the loop's restart times from a log, before or after a step, unless the
      step is an hour past a restart in the window. */
  lemma {:induction false} StepKeepsWindow(cfg: Config, s: State, tick: Tick, log: seq<real>, window: real -> bool)
    requires Filter(s.restartTimes, window) == Filter(log, window)
    requires forall t :: t in s.restartTimes && window(t) ==> tick.now - t < HOUR
    ensures var (s', action) := Step(cfg, s, tick);
            Filter(s'.restartTimes, window) == Filter(if action == Restart then log + [tick.now] else log, window)
  {
    var (s', action) := Step(cfg, s, tick);
    var kept := Filter(s.restartTimes, Recent(tick.now));
    FilterTwice(s.restartTimes, Recent(tick.now), window, window);
    if action == Restart {
      assert s'.restartTimes == kept + [tick.now];
      FilterConcat(kept, [tick.now], window);
      FilterConcat(log, [tick.now], window);
    } else {
      assert s'.restartTimes == kept || s'.restartTimes == s.restartTimes;
    }
  }

  /** On a clock that does not run backwards the loop follows the policy at every poll,
      although it forgets restarts on four of its branches and keeps stale ones on the others. */
  lemma {:induction false} RunIsSupervised(cfg: Config, ticks: seq<Tick>)
    requires NonDecreasing(ticks)
    ensures Supervised(cfg, ticks, Run(cfg, ticks).1)
  {
    if ticks != [] {
      var n := |ticks| - 1;
      RunIsSupervised(cfg, ticks[..n]);
      RunRepresents(cfg, ticks[..n]);
      assert ticks == ticks[..n] + [ticks[n]];
      var before, actions := Run(cfg, ticks[..n]).1, Run(cfg, ticks).1;
      StepRepresents(cfg, Run(cfg, ticks[..n]).0, ticks[..n], before, ticks[n]);
      forall i | 0 <= i < |ticks|
        ensures FollowsPolicy(cfg, ticks, actions, i)
      {
        assert ticks[..i] == ticks[..n][..i] && actions[..i] == before[..i];
        if i < n {
          assert FollowsPolicy(cfg, ticks[..n], before, i);
        } else {
          assert before[..n] == before && ticks[..n][..n] == ticks[..n];
        }
      }
    }
  }

  // ---------- Guarantees over whole runs ----------

  /** What the streak counts: the ticks of the streak fail, none of them restarts, and the
      streak is as long as it can be. */
  lemma {:induction false} StreakMeans(cfg: Config, ticks: seq<Tick>, actions: seq<Action>)
    requires |ticks| == |actions|
    ensures var s := Streak(cfg, ticks, actions);
            && s <= |ticks|
            && (forall i :: |ticks| - s <= i < |ticks| ==> ticks[i].failing && actions[i] != Restart)
            && (s < |ticks| ==> !ticks[|ticks| - s - 1].failing || actions[|ticks| - s - 1] == Restart)
  {
    if ticks != [] {
      StreakMeans(cfg, ticks[..|ticks| - 1], actions[..|ticks| - 1]);
    }
  }

  /** Polls `start` to `i` all fail and none before `i` restarts. */
  ghost predicate FailingStretch(cfg: Config, ticks: seq<Tick>, actions: seq<Action>, start: int, i: nat)
    requires |ticks| == |actions| && i < |ticks|
  {
    && 0 <= start <= i
    && (forall j :: start <= j <= i ==> ticks[j].failing)
    && (forall j :: start <= j < i ==> actions[j] != Restart)
  }

  /** Every restart ends a run of at least `missThreshold` failing ticks since the restart before it. */
  lemma {:induction false} RestartEndsAStreak(cfg: Config, ticks: seq<Tick>, actions: seq<Action>, i: nat)
    requires Supervised(cfg, ticks, actions) && i < |ticks| && actions[i] == Restart
    ensures exists start :: FailingStretch(cfg, ticks, actions, start, i) && i - start + 1 >= cfg.missThreshold
  {
    var s := Streak(cfg, ticks[..i], actions[..i]);
    StreakMeans(cfg, ticks[..i], actions[..i]);
    assert FollowsPolicy(cfg, ticks, actions, i);
    assert forall j :: i - s <= j < i ==> ticks[..i][j].failing && actions[..i][j] != Restart;
    var start := i - s;
    assert forall j :: start <= j < i ==> ticks[j] == ticks[..i][j] && actions[j] == actions[..i][j];
    assert FailingStretch(cfg, ticks, actions, start, i);
  }

  lemma {:induction false} RestartLogHas(ticks: seq<Tick>, actions: seq<Action>, i: nat)
    requires |ticks| == |actions| && NonDecreasing(ticks)
    requires i < |ticks| && actions[i] == Restart
    ensures var log := RestartLog(ticks, actions); log != [] && log[|log| - 1] >= ticks[i].now
  {
    var n := |ticks| - 1;
    if i < n && actions[n] != Restart {
      RestartLogHas(ticks[..n], actions[..n], i);
    }
  }

  /** Any two restarts are at least the cooldown apart. */
  lemma {:induction false} RestartsRespectCooldown(cfg: Config, ticks: seq<Tick>, actions: seq<Action>, i: nat, j: nat)
    requires NonDecreasing(ticks) && Supervised(cfg, ticks, actions)
    requires i < j < |ticks| && actions[i] == Restart && actions[j] == Restart
    ensures ticks[j].now - ticks[i].now >= cfg.cooldown
  {
    assert FollowsPolicy(cfg, ticks, actions, j);
    RestartLogHas(ticks[..j], actions[..j], i);
  }

  /** Conversely the supervisor does act: a failing poll whose streak has reached the threshold,
      an hour and a cooldown after the last restart, restarts. */
  lemma {:induction false} OverdueFailureRestarts(cfg: Config, ticks: seq<Tick>, actions: seq<Action>, i: nat)
    requires Supervised(cfg, ticks, actions) && i < |ticks|
    requires cfg.autoRestart && cfg.maxRestarts >= 1
    requires ticks[i].failing && Streak(cfg, ticks[..i], actions[..i]) + 1 >= cfg.missThreshold
    requires forall t :: t in RestartLog(ticks[..i], actions[..i]) ==>
               ticks[i].now - t >= HOUR && ticks[i].now - t >= cfg.cooldown
    ensures actions[i] == Restart
  {
    var log := RestartLog(ticks[..i], actions[..i]);
    FilterNone(log, Recent(ticks[i].now));
    assert log != [] ==> log[|log| - 1] in log;
    assert FollowsPolicy(cfg, ticks, actions, i);
  }
}
