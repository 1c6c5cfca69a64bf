/** Outages that alert only once, however long they last. */
module QuorumSilences {
  import opened QuorumTracking

  /** The times of the failures of `key` since its last recovery. */
  function FailureTimes(ops: seq<Op>, key: Key): seq<real> {
    if ops == [] then [] else
    var before := FailureTimes(ops[..|ops| - 1], key);
    match ops[|ops| - 1]
    case Fail(k, _, _, now) => if k == key then before + [now] else before
    case Recover(k, _, _) => if k == key then [] else before
  }

  /** Failure `i` comes before the cooldown that holds by then has passed since the first failure. */
  predicate Early(cfg: Config, times: seq<real>, i: nat)
    requires i < |times|
  {
    times[i] - times[0] < DynamicCooldown(cfg, i + 1)
  }

  predicate AllEarly(cfg: Config, times: seq<real>) {
    forall i :: 1 <= i < |times| ==> Early(cfg, times, i)
  }

  lemma {:induction false} FirstFailureAlerts(cfg: Config, ops: seq<Op>, key: Key)
    ensures var times, alerts := FailureTimes(ops, key), Alerts(cfg, ops, key);
            && |times| == FailuresInOutage(ops, key)
            && (times != [] ==> alerts != [] && alerts[0] == times[0])
  {
    if ops != [] {
      FirstFailureAlerts(cfg, ops[..|ops| - 1], key);
      RunTracks(cfg, ops[..|ops| - 1], key);
    }
  }

  /** After one alert so far, the next failure alerts exactly when it is not early. */
  lemma {:induction false} SecondAlert(cfg: Config, ops: seq<Op>, op: Op)
    requires op.Fail? && FailuresInOutage(ops, op.key) > 0 && |Alerts(cfg, ops, op.key)| == 1
    ensures var times := FailureTimes(ops, op.key) + [op.now];
            Step(cfg, Run(cfg, ops), op).1 <==> !Early(cfg, times, |times| - 1)
  {
    RunTracks(cfg, ops, op.key);
    FirstFailureAlerts(cfg, ops, op.key);
    RepeatedFailureAlertsWhen(cfg, Run(cfg, ops), op.key, op.available, op.required, op.now);
  }

  lemma {:induction false} EarlyOneMore(cfg: Config, times: seq<real>, now: real)
    requires times != []
    ensures AllEarly(cfg, times + [now]) <==> AllEarly(cfg, times) && Early(cfg, times + [now], |times|)
  {
    forall i | 1 <= i < |times|
      ensures Early(cfg, times + [now], i) <==> Early(cfg, times, i)
    {
    }
  }

  /** An outage alerts for its first failure alone if and only if every later failure is early. */
  lemma {:induction false} AlertsOnceExactlyWhen(cfg: Config, ops: seq<Op>, key: Key)
    requires FailuresInOutage(ops, key) > 0
    ensures |Alerts(cfg, ops, key)| == 1 <==> AllEarly(cfg, FailureTimes(ops, key))
  {
    var front, op := ops[..|ops| - 1], ops[|ops| - 1];
    RunTracks(cfg, front, key);
    FirstFailureAlerts(cfg, front, key);
    if FailuresInOutage(front, key) > 0 {
      AlertsOnceExactlyWhen(cfg, front, key);
      if op.key == key {
        EarlyOneMore(cfg, FailureTimes(front, key), op.now);
        if |Alerts(cfg, front, key)| == 1 {
          SecondAlert(cfg, front, op);
        }
      }
    }
  }

  // ---------- Fast failures ----------

  function Times(d: real, i: nat): real {
    d * i as real
  }

  predicate FastAt(cfg: Config, times: seq<real>, i: nat)
    requires i < |times|
  {
    5.0 * (times[i] - times[0]) <= Times(cfg.cooldown, i)
  }

  /** The `i`-th failure after the first comes no later than `i` fifths of the cooldown after it. */
  predicate Fast(cfg: Config, times: seq<real>) {
    forall i :: 1 <= i < |times| ==> FastAt(cfg, times, i)
  }

  lemma {:induction false} FastIsEarly(cfg: Config, times: seq<real>, i: nat)
    requires cfg.cooldown > 0.0 && i < |times| && FastAt(cfg, times, i)
    ensures Early(cfg, times, i)
  {
    ProductsCompare(cfg.cooldown, i as real, (1 + (i + 1) / 5) as real);
  }

  lemma {:induction false} ProductsCompare(c: real, n: real, u: real)
    requires c > 0.0 && n < 5.0 * u
    ensures c * n < 5.0 * (c * u)
  {
    assert c * (5.0 * u - n) > 0.0;
    assert c * (5.0 * u - n) == 5.0 * (c * u) - c * n;
  }

  /** Failures that keep coming this fast never alert again, however long the outage lasts. */
  lemma {:induction false} FastFailuresAlertOnce(cfg: Config, ops: seq<Op>, key: Key)
    requires cfg.cooldown > 0.0 && FailuresInOutage(ops, key) > 0 && Fast(cfg, FailureTimes(ops, key))
    ensures |Alerts(cfg, ops, key)| == 1
  {
    var times := FailureTimes(ops, key);
    forall i | 1 <= i < |times|
      ensures Early(cfg, times, i)
    {
      FastIsEarly(cfg, times, i);
    }
    AlertsOnceExactlyWhen(cfg, ops, key);
  }

  lemma {:induction false} FastOneFewer(cfg: Config, times: seq<real>, now: real)
    requires times != [] && Fast(cfg, times + [now])
    ensures Fast(cfg, times) && FastAt(cfg, times + [now], |times|)
  {
    forall i | 1 <= i < |times|
      ensures FastAt(cfg, times, i)
    {
      assert FastAt(cfg, times + [now], i);
      assert (times + [now])[i] == times[i] && (times + [now])[0] == times[0];
    }
    assert FastAt(cfg, times + [now], |times|);
  }

  /** Each of them from `summaryThreshold` on comes with the advice to send a summary, and does not alert. */
  lemma {:induction false} SummaryIsAdvisedInSilence(cfg: Config, ops: seq<Op>, op: Op)
    requires op.Fail? && cfg.cooldown > 0.0 && FailuresInOutage(ops, op.key) > 0
    requires Fast(cfg, FailureTimes(ops, op.key) + [op.now])
    ensures !Step(cfg, Run(cfg, ops), op).1
    ensures var context := FailureContext(cfg, Run(cfg, ops), op.key, op.available, op.required, op.now);
            context.Repeated?
            && (context.advice == SendSummary <==> FailuresInOutage(ops, op.key) + 1 >= cfg.summaryThreshold)
  {
    var times := FailureTimes(ops, op.key);
    FirstFailureAlerts(cfg, ops, op.key);
    FastOneFewer(cfg, times, op.now);
    FastFailuresAlertOnce(cfg, ops, op.key);
    FastIsEarly(cfg, times + [op.now], |times|);
    SecondAlert(cfg, ops, op);
    ContextReportsTheOutage(cfg, ops, op.key, op.available, op.required, op.now);
  }

  // ---------- Failures at a steady rate ----------

  /** `n` failures, one every `d` seconds. */
  function Steady(key: Key, d: real, n: nat): seq<Op> {
    if n == 0 then [] else Steady(key, d, n - 1) + [Fail(key, [], 0, Times(d, n - 1))]
  }

  lemma {:induction false} SteadyTimes(key: Key, d: real, n: nat)
    ensures |FailureTimes(Steady(key, d, n), key)| == n == FailuresInOutage(Steady(key, d, n), key)
    ensures forall i :: 0 <= i < n ==> FailureTimes(Steady(key, d, n), key)[i] == Times(d, i)
  {
    if n > 0 {
      SteadyTimes(key, d, n - 1);
      FailureSnoc(Steady(key, d, n - 1), key, Times(d, n - 1));
    }
  }

  lemma {:induction false} FailureSnoc(ops: seq<Op>, key: Key, now: real)
    ensures FailureTimes(ops + [Fail(key, [], 0, now)], key) == FailureTimes(ops, key) + [now]
    ensures FailuresInOutage(ops + [Fail(key, [], 0, now)], key) == FailuresInOutage(ops, key) + 1
  {
    assert (ops + [Fail(key, [], 0, now)])[..|ops|] == ops;
  }

  /** Slower than that, some failure is late. */
  lemma {:induction false} LateFailure(cfg: Config, d: real) returns (i: nat)
    requires cfg.cooldown > 0.0 && 5.0 * d > cfg.cooldown
    ensures i >= 1 && Times(d, i) >= DynamicCooldown(cfg, i + 1)
  {
    var excess := 5.0 * d - cfg.cooldown;
    var k := (cfg.cooldown / excess).Floor + 1;
    assert k as real * excess >= cfg.cooldown by {
      var q := cfg.cooldown / excess;
      assert q * excess == cfg.cooldown && k as real >= q;
      assert (k as real - q) * excess >= 0.0;
    }
    i := 5 * k;
    assert (i + 1) / 5 == k;
    assert d * i as real == (5.0 * d) * k as real == cfg.cooldown * k as real + excess * k as real;
    assert DynamicCooldown(cfg, i + 1) == cfg.cooldown * k as real + cfg.cooldown;
  }

  lemma {:induction false} SteadyFailuresAreFast(cfg: Config, key: Key, d: real, n: nat)
    requires 5.0 * d <= cfg.cooldown && n >= 1
    ensures FailuresInOutage(Steady(key, d, n), key) > 0
    ensures Fast(cfg, FailureTimes(Steady(key, d, n), key))
  {
    SteadyTimes(key, d, n);
    var times := FailureTimes(Steady(key, d, n), key);
    forall i | 1 <= i < |times|
      ensures FastAt(cfg, times, i)
    {
      FifthsAreFast(cfg, d, i);
    }
  }

  lemma {:induction false} FifthsAreFast(cfg: Config, d: real, i: nat)
    requires 5.0 * d <= cfg.cooldown
    ensures 5.0 * (Times(d, i) - Times(d, 0)) <= Times(cfg.cooldown, i)
  {
    var spare, n := cfg.cooldown - 5.0 * d, i as real;
    assert spare * n >= 0.0;
    assert spare * n == cfg.cooldown * n - 5.0 * (d * n);
  }

  /** One failure every `d` seconds: the outage never alerts again if and only if `d` is at most a fifth of
      the cooldown (twelve seconds by default). */
  lemma {:induction false} SteadyFailuresAlertOnceExactlyWhen(cfg: Config, key: Key, d: real)
    requires cfg.cooldown > 0.0
    ensures (forall n: nat :: n >= 1 ==> |Alerts(cfg, Steady(key, d, n), key)| == 1) <==> 5.0 * d <= cfg.cooldown
  {
    if 5.0 * d <= cfg.cooldown {
      forall n: nat | n >= 1
        ensures |Alerts(cfg, Steady(key, d, n), key)| == 1
      {
        SteadyFailuresAreFast(cfg, key, d, n);
        FastFailuresAlertOnce(cfg, Steady(key, d, n), key);
      }
    } else {
      var i := LateFailure(cfg, d);
      SteadyTimes(key, d, i + 1);
      AlertsOnceExactlyWhen(cfg, Steady(key, d, i + 1), key);
      assert !Early(cfg, FailureTimes(Steady(key, d, i + 1), key), i);
    }
  }
}
