/** The hourly restart budget of the supervisor, on any clock: exactly which poll times keep it. */
module RestartBudgets {
  import opened Options
  import opened Sequences
  import opened Watchdogs

  function HalfOpen(start: real): real -> bool {
    t => start <= t < start + HOUR
  }

  function Ticks(times: seq<real>, failing: seq<bool>): (ticks: seq<Tick>)
    requires |times| == |failing|
    ensures |ticks| == |times|
    ensures forall i :: 0 <= i < |times| ==> ticks[i] == Tick(times[i], failing[i])
  {
    if times == [] then []
    else Ticks(times[..|times| - 1], failing[..|times| - 1]) + [Tick(times[|times| - 1], failing[|times| - 1])]
  }

  /** Every configuration, whatever fails, restarts at most `maxRestarts` times in any half-open
      hour when it polls at `times`.  `forward` leaves out negative cooldowns. */
  ghost predicate BudgetKept(times: seq<real>, forward: bool) {
    forall cfg: Config, failing: seq<bool>, start: real ::
      |failing| == |times| && (forward ==> cfg.cooldown >= 0.0) ==> WithinBudget(cfg, Ticks(times, failing), start)
  }

  ghost predicate WithinBudget(cfg: Config, ticks: seq<Tick>, start: real) {
    |Filter(RestartLog(ticks, Run(cfg, ticks).1), HalfOpen(start))| <= Max(0, cfg.maxRestarts)
  }

  /** Less than an hour from `now`; `forward` looks back only. */
  function Near(now: real, forward: bool): real -> bool {
    t => now - t < HOUR && if forward then t <= now else t - now < HOUR
  }

  /** A restart at poll `i` is an hour old at poll `j`, but not at the later poll `k`. */
  ghost predicate Forgets(times: seq<real>, forward: bool, i: nat, j: nat, k: nat)
    requires i < j < k < |times|
  {
    times[j] - times[i] >= HOUR && Near(times[k], forward)(times[i])
  }

  ghost predicate NeverForgets(times: seq<real>, forward: bool) {
    forall i: nat, j: nat, k: nat :: i < j < k < |times| ==> !Forgets(times, forward, i, j, k)
  }

  // ---------- Clocks that keep the budget ----------

  lemma {:induction false} RestartTimesArePolled(cfg: Config, ticks: seq<Tick>, t: real)
    requires t in Run(cfg, ticks).0.restartTimes
    ensures exists i :: 0 <= i < |ticks| && ticks[i].now == t
  {
    var front, last := ticks[..|ticks| - 1], ticks[|ticks| - 1];
    var s := Run(cfg, front).0;
    FilterMembers(s.restartTimes, Recent(last.now), t);
    if t in s.restartTimes {
      RestartTimesArePolled(cfg, front, t);
      var i :| 0 <= i < |front| && front[i].now == t;
      assert ticks[i].now == t;
    } else {
      assert ticks[|ticks| - 1].now == t;
    }
  }

  /** A restart in the window that no later poll has seen an hour old has not been pruned. */
  lemma {:induction false} WindowKept(cfg: Config, ticks: seq<Tick>, window: real -> bool)
    requires forall i, j :: 0 <= i < j < |ticks| && window(ticks[i].now) ==> ticks[j].now - ticks[i].now < HOUR
    ensures Filter(Run(cfg, ticks).0.restartTimes, window) == Filter(RestartLog(ticks, Run(cfg, ticks).1), window)
  {
    if ticks != [] {
      var front, last := ticks[..|ticks| - 1], ticks[|ticks| - 1];
      var (s, actions) := Run(cfg, front);
      WindowKept(cfg, front, window);
      forall t | t in s.restartTimes && window(t)
        ensures last.now - t < HOUR
      {
        RestartTimesArePolled(cfg, front, t);
      }
      StepKeepsWindow(cfg, s, last, RestartLog(front, actions), window);
      assert Run(cfg, ticks).1[..|front|] == actions;
    }
  }

  /** Without negative cooldowns a restart is never before an earlier one. */
  lemma {:induction false} RestartsMoveForward(cfg: Config, ticks: seq<Tick>, t: real)
    requires cfg.cooldown >= 0.0
    requires t in RestartLog(ticks, Run(cfg, ticks).1)
    ensures Run(cfg, ticks).0.lastRestart.Some? && t <= Run(cfg, ticks).0.lastRestart.value
  {
    var front, last := ticks[..|ticks| - 1], ticks[|ticks| - 1];
    var (s, actions) := Run(cfg, front);
    assert Run(cfg, ticks).1[..|front|] == actions;
    if t in RestartLog(front, actions) {
      RestartsMoveForward(cfg, front, t);
    }
  }

  /** At a restart, the restarts within an hour of it are all still known, so there is room. */
  lemma {:induction false} RoomAtRestart(cfg: Config, ticks: seq<Tick>, tick: Tick, forward: bool, start: real)
    requires forward ==> cfg.cooldown >= 0.0
    requires Step(cfg, Run(cfg, ticks).0, tick).1 == Restart
    requires HalfOpen(start)(tick.now)
    requires forall i, j :: 0 <= i < j < |ticks| && Near(tick.now, forward)(ticks[i].now) ==>
               ticks[j].now - ticks[i].now < HOUR
    ensures |Filter(RestartLog(ticks, Run(cfg, ticks).1), HalfOpen(start))| < cfg.maxRestarts
  {
    var (s, actions) := Run(cfg, ticks);
    var log, near := RestartLog(ticks, actions), Near(tick.now, forward);
    WindowKept(cfg, ticks, near);
    FilterMonotone(s.restartTimes, near, Recent(tick.now));
    forall t | t in log && HalfOpen(start)(t)
      ensures near(t)
    {
      if forward {
        RestartsMoveForward(cfg, ticks, t);
      }
    }
    FilterMonotone(log, HalfOpen(start), near);
  }

  lemma {:induction false} NeverForgettingKeepsBudget(cfg: Config, ticks: seq<Tick>, forward: bool, start: real)
    requires forward ==> cfg.cooldown >= 0.0
    requires forall i: nat, j: nat, k: nat :: i < j < k < |ticks| && Near(ticks[k].now, forward)(ticks[i].now)
               ==> ticks[j].now - ticks[i].now < HOUR
    ensures WithinBudget(cfg, ticks, start)
  {
    if ticks != [] {
      var front, last := ticks[..|ticks| - 1], ticks[|ticks| - 1];
      var (s, actions) := Run(cfg, front);
      var log := RestartLog(front, actions);
      NeverForgettingKeepsBudget(cfg, front, forward, start);
      assert Run(cfg, ticks).1[..|front|] == actions;
      if Step(cfg, s, last).1 == Restart {
        assert (log + [last.now])[..|log|] == log;
        if HalfOpen(start)(last.now) {
          assert forall i, j :: 0 <= i < j < |front| && Near(last.now, forward)(front[i].now)
                   ==> ticks[j].now - ticks[i].now < HOUR;
          RoomAtRestart(cfg, front, last, forward, start);
        }
      }
    }
  }

  // ---------- The cooldown needs no clock ----------

  lemma {:induction false} RunPrefix(cfg: Config, ticks: seq<Tick>, n: nat)
    requires n < |ticks|
    ensures Run(cfg, ticks).1[..n] == Run(cfg, ticks[..n]).1
    ensures Run(cfg, ticks).1[n] == Step(cfg, Run(cfg, ticks[..n]).0, ticks[n]).1
  {
    var front := ticks[..|ticks| - 1];
    if n < |front| {
      RunPrefix(cfg, front, n);
      assert front[..n] == ticks[..n];
    }
  }

  lemma {:induction false} RestartIsLogged(ticks: seq<Tick>, actions: seq<Action>, i: nat)
    requires |ticks| == |actions| && i < |ticks| && actions[i] == Restart
    ensures ticks[i].now in RestartLog(ticks, actions)
  {
    if i < |ticks| - 1 {
      RestartIsLogged(ticks[..|ticks| - 1], actions[..|ticks| - 1], i);
    }
  }

  /** On any clock, any two restarts are at least the cooldown apart unless it is negative. */
  lemma {:induction false} RestartsRespectCooldownOnAnyClock(cfg: Config, ticks: seq<Tick>, i: nat, j: nat)
    requires cfg.cooldown >= 0.0 && i < j < |ticks|
    requires Run(cfg, ticks).1[i] == Restart && Run(cfg, ticks).1[j] == Restart
    ensures ticks[j].now - ticks[i].now >= cfg.cooldown
  {
    RunPrefix(cfg, ticks, j);
    RestartIsLogged(ticks[..j], Run(cfg, ticks[..j]).1, i);
    RestartsMoveForward(cfg, ticks[..j], ticks[i].now);
  }

  // ---------- Clocks that break it ----------

  /** The configuration that restarts most readily on a budget of one. */
  function Eager(cooldown: real): Config {
    Config(1, 1, cooldown, true, 90.0, 120.0)
  }

  /** Failures at polls `i` and `k` only. */
  ghost predicate FailsOnlyAt(ticks: seq<Tick>, i: nat, k: nat) {
    forall m :: 0 <= m < |ticks| ==> (ticks[m].failing <==> m == i || m == k)
  }

  /** What such a run has done after `n` polls, when the restart at `i` is pruned at `j`. */
  ghost predicate Forgotten(ticks: seq<Tick>, i: nat, j: nat, k: nat, n: nat, s: State, log: seq<real>)
    requires i < j < k < |ticks|
  {
    if n <= i then s == INITIAL && log == []
    else if n <= k then
      && s.misses == 0 && s.lastRestart == Some(ticks[i].now) && log == [ticks[i].now]
      && (s.restartTimes == [] || (s.restartTimes == [ticks[i].now] && n <= j))
    else log == [ticks[i].now, ticks[k].now]
  }

  lemma {:induction false} NextIsForgotten(ticks: seq<Tick>, i: nat, j: nat, k: nat, n: nat, cooldown: real, s: State,
                                           log: seq<real>)
    requires i < j < k < |ticks| && n < |ticks| && FailsOnlyAt(ticks, i, k)
    requires ticks[j].now - ticks[i].now >= HOUR && cooldown <= ticks[k].now - ticks[i].now
    requires Forgotten(ticks, i, j, k, n, s, log)
    ensures var (s', action) := Step(Eager(cooldown), s, ticks[n]);
            Forgotten(ticks, i, j, k, n + 1, s', if action == Restart then log + [ticks[n].now] else log)
  {
    var tick, t := ticks[n], ticks[i].now;
    if n == i {
      EagerStep(cooldown, s, tick);
      assert log + [t] == [t];
    } else if n == k {
      EagerStep(cooldown, s, tick);
      assert log + [tick.now] == [t, tick.now];
    } else {
      HealthyStepForgets(ticks, i, j, k, n, cooldown, s, log);
    }
  }

  lemma {:induction false} HealthyStepForgets(ticks: seq<Tick>, i: nat, j: nat, k: nat, n: nat, cooldown: real,
                                              s: State, log: seq<real>)
    requires i < j < k < |ticks| && n < |ticks| && FailsOnlyAt(ticks, i, k) && n != i && n != k
    requires ticks[j].now - ticks[i].now >= HOUR
    requires Forgotten(ticks, i, j, k, n, s, log)
    ensures var (s', action) := Step(Eager(cooldown), s, ticks[n]);
            action != Restart && Forgotten(ticks, i, j, k, n + 1, s', log)
  {
    assert !ticks[n].failing;
    HealthyStep(Eager(cooldown), s, ticks[n]);
    if i < n < k && s.restartTimes != [] {
      FilterSingle(ticks[i].now, Recent(ticks[n].now));
    }
  }

  lemma {:induction false} HealthyStep(cfg: Config, s: State, tick: Tick)
    requires !tick.failing
    ensures Step(cfg, s, tick) == (State(0, Filter(s.restartTimes, Recent(tick.now)), s.lastRestart), Ok)
  {
  }

  lemma {:induction false} EagerStep(cooldown: real, s: State, tick: Tick)
    requires tick.failing && s.misses == 0 && s.restartTimes == []
    requires s.lastRestart.Some? ==> cooldown <= tick.now - s.lastRestart.value
    ensures Step(Eager(cooldown), s, tick) == (State(0, [tick.now], Some(tick.now)), Restart)
  {
    assert s.restartTimes + [tick.now] == [tick.now];
  }

  lemma {:induction false} RunSnoc(cfg: Config, ticks: seq<Tick>, tick: Tick)
    ensures var (s, actions) := Run(cfg, ticks);
            var (s', action) := Step(cfg, s, tick);
            && Run(cfg, ticks + [tick]) == (s', actions + [action])
            && RestartLog(ticks + [tick], actions + [action])
               == (if action == Restart then RestartLog(ticks, actions) + [tick.now] else RestartLog(ticks, actions))
  {
    var (s, actions) := Run(cfg, ticks);
    assert (ticks + [tick])[..|ticks|] == ticks;
    assert (actions + [Step(cfg, s, tick).1])[..|ticks|] == actions;
  }

  lemma {:induction false} RunIsForgotten(ticks: seq<Tick>, i: nat, j: nat, k: nat, n: nat, cooldown: real)
    requires i < j < k < |ticks| && n <= |ticks| && FailsOnlyAt(ticks, i, k)
    requires ticks[j].now - ticks[i].now >= HOUR && cooldown <= ticks[k].now - ticks[i].now
    ensures var (s, actions) := Run(Eager(cooldown), ticks[..n]);
            Forgotten(ticks, i, j, k, n, s, RestartLog(ticks[..n], actions))
  {
    if n == 0 {
      assert ticks[..0] == [];
    } else {
      var front, tick := ticks[..n - 1], ticks[n - 1];
      RunIsForgotten(ticks, i, j, k, n - 1, cooldown);
      assert ticks[..n] == front + [tick];
      ForgottenSnoc(ticks, i, j, k, front, cooldown);
    }
  }

  lemma {:induction false} ForgottenSnoc(ticks: seq<Tick>, i: nat, j: nat, k: nat, front: seq<Tick>, cooldown: real)
    requires i < j < k < |ticks| && |front| < |ticks| && FailsOnlyAt(ticks, i, k)
    requires ticks[j].now - ticks[i].now >= HOUR && cooldown <= ticks[k].now - ticks[i].now
    requires var (s, actions) := Run(Eager(cooldown), front);
             Forgotten(ticks, i, j, k, |front|, s, RestartLog(front, actions))
    ensures var (s, actions) := Run(Eager(cooldown), front + [ticks[|front|]]);
            Forgotten(ticks, i, j, k, |front| + 1, s, RestartLog(front + [ticks[|front|]], actions))
  {
    var (s, actions) := Run(Eager(cooldown), front);
    NextIsForgotten(ticks, i, j, k, |front|, cooldown, s, RestartLog(front, actions));
    RunSnoc(Eager(cooldown), front, ticks[|front|]);
  }

  /** A pruned restart that a later poll is within an hour of does not count against the budget. */
  lemma {:induction false} ForgottenRestartBreaksBudget(ticks: seq<Tick>, i: nat, j: nat, k: nat, cooldown: real,
                                                        start: real)
    requires i < j < k < |ticks| && FailsOnlyAt(ticks, i, k)
    requires ticks[j].now - ticks[i].now >= HOUR && cooldown <= ticks[k].now - ticks[i].now
    requires HalfOpen(start)(ticks[i].now) && HalfOpen(start)(ticks[k].now)
    ensures |Filter(RestartLog(ticks, Run(Eager(cooldown), ticks).1), HalfOpen(start))| == 2
    ensures !WithinBudget(Eager(cooldown), ticks, start)
  {
    RunIsForgotten(ticks, i, j, k, |ticks|, cooldown);
    assert ticks[..|ticks|] == ticks;
    FilterAll([ticks[i].now, ticks[k].now], HalfOpen(start));
  }

  // ---------- The exact condition ----------

  lemma {:induction false} BudgetNeedsMemory(times: seq<real>, forward: bool, i: nat, j: nat, k: nat)
    requires i < j < k < |times| && Forgets(times, forward, i, j, k)
    ensures !BudgetKept(times, forward)
  {
    var failing := seq(|times|, m => m == i || m == k);
    var start := if times[i] <= times[k] then times[i] else times[k];
    var cooldown := if forward then 0.0 else -HOUR;
    ForgottenRestartBreaksBudget(Ticks(times, failing), i, j, k, cooldown, start);
  }

  /** For a list of poll times, every configuration keeps at most `maxRestarts` restarts in every
      half-open hour, whatever fails, if and only if no poll is within an hour of an earlier one that
      some poll in between was an hour or more past.  When negative cooldowns are left out, only an
      earlier poll that is not later by the clock counts. */
  lemma {:induction false} BudgetKeptExactlyWhen(times: seq<real>, forward: bool)
    ensures BudgetKept(times, forward) <==> NeverForgets(times, forward)
  {
    if NeverForgets(times, forward) {
      forall cfg: Config, failing: seq<bool>, start: real
        | |failing| == |times| && (forward ==> cfg.cooldown >= 0.0)
        ensures WithinBudget(cfg, Ticks(times, failing), start)
      {
        forall i: nat, j: nat, k: nat | i < j < k < |times| && Near(times[k], forward)(times[i])
          ensures times[j] - times[i] < HOUR
        {
          assert !Forgets(times, forward, i, j, k);
        }
        NeverForgettingKeepsBudget(cfg, Ticks(times, failing), forward, start);
      }
    } else {
      var i: nat, j: nat, k: nat :| i < j < k < |times| && Forgets(times, forward, i, j, k);
      BudgetNeedsMemory(times, forward, i, j, k);
    }
  }

  /** In particular, over every run with non-decreasing poll times every half-open hour has at most
      `maxRestarts` restarts. */
  lemma {:induction false} RestartBudget(cfg: Config, ticks: seq<Tick>, start: real)
    requires NonDecreasing(ticks)
    ensures |Filter(RestartLog(ticks, Run(cfg, ticks).1), HalfOpen(start))| <= Max(0, cfg.maxRestarts)
  {
    NeverForgettingKeepsBudget(cfg, ticks, false, start);
  }

  /** And when the clock is set back, pruned restarts are forgotten for good.  With a budget of one,
      restarts at 0 s and 10 s follow when a healthy poll at 3600 s comes between them. */
  lemma {:induction false} ClockSetBackBreaksBudget()
    ensures var cfg := Config(1, 1, 0.0, true, 90.0, 120.0);
            var ticks := [Tick(0.0, true), Tick(3600.0, false), Tick(10.0, true)];
            |Filter(RestartLog(ticks, Run(cfg, ticks).1), HalfOpen(0.0))| == 2 > cfg.maxRestarts
  {
    ForgottenRestartBreaksBudget([Tick(0.0, true), Tick(3600.0, false), Tick(10.0, true)], 0, 1, 2, 0.0, 0.0);
  }
}
