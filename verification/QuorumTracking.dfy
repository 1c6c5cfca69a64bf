/** The quorum-failure tracker: which failures alert, and how alerts back off in an outage. */
module QuorumTracking {
  import opened AsciiCases
  import opened Options
  import opened Sequences

  datatype Config = Config(cooldown: real, maxHistory: int, summaryThreshold: int)

  datatype Key = Key(asset: string, timeframe: string, kind: string)

  datatype Outage = Outage(firstFailure: real, lastFailure: real, count: nat, consecutive: nat,
                           available: seq<string>, required: int)

  /** What a recovery tells of the outage it ends. */
  datatype Recovery = Recovery(key: Key, failures: nat, consecutive: nat, duration: real,
                               availableBefore: nat, availableAfter: nat, at: real)

  datatype Advice = StandardAlert | Escalate | SendSummary

  /** What the caller is told of a failure beside whether to alert. */
  datatype Context =
    | NewOutage
    | Repeated(consecutive: nat, total: nat, duration: real, sinceLastAlert: real, cooldown: real,
               available: nat, required: int, advice: Advice)

  datatype State = State(failures: map<Key, Outage>, lastAlert: map<Key, real>, recoveries: seq<Recovery>)

  const EMPTY := State(map[], map[], [])

  datatype Op =
    | Fail(key: Key, available: seq<string>, required: int, now: real)
    | Recover(key: Key, available: seq<string>, now: real)

  function MakeKey(asset: string, timeframe: string, kind: string): Key {
    Key(Upper(asset), Lower(timeframe), kind)
  }

  /** Failures share a key if and only if they are of one kind, and asset and timeframe agree but for case. */
  lemma {:induction false} SameKeyExactlyWhen(asset: string, timeframe: string, kind: string, asset': string,
                                              timeframe': string, kind': string)
    ensures MakeKey(asset, timeframe, kind) == MakeKey(asset', timeframe', kind')
            <==> EqualButForCase(asset, asset') && EqualButForCase(timeframe, timeframe') && kind == kind'
  {
    SameUpperExactlyWhen(asset, asset');
    SameLowerExactlyWhen(timeframe, timeframe');
  }

  /** The cooldown stretches by one unit with every five consecutive failures. */
  function DynamicCooldown(cfg: Config, consecutive: nat): real {
    cfg.cooldown * (1 + consecutive / 5) as real
  }

  function Seen(f: Outage, available: seq<string>, required: int, now: real): Outage {
    Outage(f.firstFailure, now, f.count + 1, f.consecutive + 1,
            if available == [] then f.available else available, if required == 0 then f.required else required)
  }

  /** `last_alert.get(key, 0)`. */
  function LastAlert(s: State, key: Key): real {
    if key in s.lastAlert then s.lastAlert[key] else 0.0
  }

  function RecordFailure(cfg: Config, s: State, key: Key, available: seq<string>,
                         required: int, now: real): (State, bool) {
    if key !in s.failures then
      (s.(failures := s.failures[key := Outage(now, now, 1, 1, available, required)],
          lastAlert := s.lastAlert[key := now]), true)
    else
      var f := Seen(s.failures[key], available, required, now);
      var alert := now - LastAlert(s, key) >= DynamicCooldown(cfg, f.consecutive);
      (s.(failures := s.failures[key := f],
          lastAlert := if alert then s.lastAlert[key := now] else s.lastAlert), alert)
  }

  function AdviceAfter(cfg: Config, consecutive: nat): Advice {
    if consecutive >= cfg.summaryThreshold then SendSummary else if consecutive >= 5 then Escalate else StandardAlert
  }

  function FailureContext(cfg: Config, s: State, key: Key, available: seq<string>, required: int, now: real): Context {
    if key !in s.failures then NewOutage else
    var f := Seen(s.failures[key], available, required, now);
    Repeated(f.consecutive, f.count, now - f.firstFailure, now - LastAlert(s, key), DynamicCooldown(cfg, f.consecutive),
             |f.available|, f.required, AdviceAfter(cfg, f.consecutive))
  }

  function RecoveryOf(key: Key, f: Outage, available: seq<string>, now: real): Recovery {
    Recovery(key, f.count, f.consecutive, now - f.firstFailure, |f.available|, |available|, now)
  }

  function RecordRecovery(cfg: Config, s: State, key: Key, available: seq<string>, now: real): State {
    if key !in s.failures then s else
    var recoveries := s.recoveries + [RecoveryOf(key, s.failures[key], available, now)];
    State(s.failures - {key}, s.lastAlert - {key},
          if |recoveries| > cfg.maxHistory then SliceFromEnd(recoveries, cfg.maxHistory / 2) else recoveries)
  }

  predicate ShouldThrottle(cfg: Config, s: State, key: Key, now: real) {
    key in s.failures && now - LastAlert(s, key) < DynamicCooldown(cfg, s.failures[key].consecutive)
  }

  function Step(cfg: Config, s: State, op: Op): (State, bool) {
    match op
    case Fail(key, available, required, now) => RecordFailure(cfg, s, key, available, required, now)
    case Recover(key, available, now) => (RecordRecovery(cfg, s, key, available, now), false)
  }

  function Run(cfg: Config, ops: seq<Op>): State {
    if ops == [] then EMPTY else Step(cfg, Run(cfg, ops[..|ops| - 1]), ops[|ops| - 1]).0
  }

  // ---------- Outages, by the trace ----------

  /** Failures of `key` since its last recovery. */
  function FailuresInOutage(ops: seq<Op>, key: Key): nat {
    if ops == [] then 0 else
    var before := FailuresInOutage(ops[..|ops| - 1], key);
    match ops[|ops| - 1]
    case Fail(k, _, _, _) => if k == key then before + 1 else before
    case Recover(k, _, _) => if k == key then 0 else before
  }

  /** The last list of available agents that a failure of the outage named, if any did. */
  function AvailableInOutage(ops: seq<Op>, key: Key): seq<string> {
    if ops == [] then [] else
    var before := AvailableInOutage(ops[..|ops| - 1], key);
    match ops[|ops| - 1]
    case Fail(k, available, _, _) => if k == key && available != [] then available else before
    case Recover(k, _, _) => if k == key then [] else before
  }

  /** The quorum the last failure of the outage that named one asked for, or zero. */
  function RequiredInOutage(ops: seq<Op>, key: Key): int {
    if ops == [] then 0 else
    var before := RequiredInOutage(ops[..|ops| - 1], key);
    match ops[|ops| - 1]
    case Fail(k, _, required, _) => if k == key && required != 0 then required else before
    case Recover(k, _, _) => if k == key then 0 else before
  }

  /** The time of the last failure of `key`. */
  function LastFailureOf(ops: seq<Op>, key: Key): real {
    if ops == [] then 0.0 else
    var last := ops[|ops| - 1];
    if last.Fail? && last.key == key then last.now else LastFailureOf(ops[..|ops| - 1], key)
  }

  /** The times of the alerts for `key` since its last recovery. */
  function Alerts(cfg: Config, ops: seq<Op>, key: Key): seq<real> {
    if ops == [] then [] else
    var before := Alerts(cfg, ops[..|ops| - 1], key);
    var op := ops[|ops| - 1];
    if op.key != key then before
    else if op.Recover? then []
    else if Step(cfg, Run(cfg, ops[..|ops| - 1]), op).1 then before + [op.now]
    else before
  }

  /** The cooldown units that `m` alerts of one outage span at least. */
  function Backoff(m: nat): nat {
    if m <= 1 then 0 else Backoff(m - 1) + 1 + m / 5
  }

  /** The state is what the trace says: an entry in both dictionaries exactly during an outage,
      `count` and `consecutive` both the failures of that outage, the last alert remembered. */
  ghost predicate Tracks(cfg: Config, ops: seq<Op>, key: Key, s: State) {
    var n, alerts := FailuresInOutage(ops, key), Alerts(cfg, ops, key);
    && (key in s.failures <==> n > 0)
    && (key in s.lastAlert <==> n > 0)
    && |alerts| <= n
    && (n == 0 ==> AvailableInOutage(ops, key) == [] && RequiredInOutage(ops, key) == 0)
    && (n > 0 ==> alerts != [] && s.lastAlert[key] == alerts[|alerts| - 1]
                  && s.failures[key].firstFailure == alerts[0]
                  && s.failures[key].lastFailure == LastFailureOf(ops, key)
                  && s.failures[key].available == AvailableInOutage(ops, key)
                  && s.failures[key].required == RequiredInOutage(ops, key)
                  && s.failures[key].count == s.failures[key].consecutive == n)
  }

  lemma {:induction false} RunTracks(cfg: Config, ops: seq<Op>, key: Key)
    ensures Tracks(cfg, ops, key, Run(cfg, ops))
  {
    if ops != [] {
      RunTracks(cfg, ops[..|ops| - 1], key);
      RunTracks(cfg, ops[..|ops| - 1], ops[|ops| - 1].key);
    }
  }

  ghost predicate ClockMovesForward(ops: seq<Op>) {
    forall i, j :: 0 <= i < j < |ops| ==> ops[i].now <= ops[j].now
  }

  lemma {:induction false} AlertsBounded(cfg: Config, ops: seq<Op>, key: Key, latest: real)
    requires forall i :: 0 <= i < |ops| ==> ops[i].now <= latest
    ensures forall t :: t in Alerts(cfg, ops, key) ==> t <= latest
  {
    if ops != [] {
      AlertsBounded(cfg, ops[..|ops| - 1], key, latest);
    }
  }

  lemma {:induction false} Scale(c: real, a: int, b: int)
    requires a <= b
    ensures c >= 0.0 ==> c * a as real <= c * b as real
    ensures c < 0.0 ==> c * a as real >= c * b as real
  {
    var d := (b - a) as real;
    assert c * b as real == c * a as real + c * d;
    if c >= 0.0 {
      assert c * d >= 0.0;
    } else {
      assert (-c) * d >= 0.0;
    }
  }

  lemma {:induction false} AlertMeans(cfg: Config, ops: seq<Op>, op: Op)
    requires op.Fail? && Step(cfg, Run(cfg, ops), op).1
    ensures var before, n := Alerts(cfg, ops, op.key), FailuresInOutage(ops, op.key);
            before != [] ==> |before| <= n && op.now - before[|before| - 1] >= DynamicCooldown(cfg, n + 1)
  {
    RunTracks(cfg, ops, op.key);
  }

  lemma {:induction false} CooldownGrows(cfg: Config, gap: real, n: nat, m: nat)
    requires gap >= DynamicCooldown(cfg, n) && m <= n
    requires cfg.cooldown >= 0.0 || gap >= 0.0
    ensures gap >= DynamicCooldown(cfg, m)
  {
    Scale(cfg.cooldown, 1 + m / 5, 1 + n / 5);
    Scale(cfg.cooldown, 0, 1 + m / 5);
  }

  /** The gap before alert number `m` of an outage. */
  lemma {:induction false} AlertGap(cfg: Config, ops: seq<Op>, op: Op)
    requires op.Fail? && Step(cfg, Run(cfg, ops), op).1
    requires cfg.cooldown >= 0.0 || forall i :: 0 <= i < |ops| ==> ops[i].now <= op.now
    ensures var before := Alerts(cfg, ops, op.key);
            before != [] ==> op.now - before[|before| - 1] >= DynamicCooldown(cfg, |before| + 1)
  {
    var before, n := Alerts(cfg, ops, op.key), FailuresInOutage(ops, op.key);
    AlertMeans(cfg, ops, op);
    if before != [] {
      var previous := before[|before| - 1];
      if cfg.cooldown < 0.0 {
        AlertsBounded(cfg, ops, op.key, op.now);
        assert previous in before;
      }
      CooldownGrows(cfg, op.now - previous, n + 1, |before| + 1);
    }
  }

  /** The alerts lie at least `cooldown * Backoff(m)` seconds apart, first to last. */
  ghost predicate SpansBackoff(cfg: Config, alerts: seq<real>) {
    alerts != [] ==> alerts[|alerts| - 1] - alerts[0] >= cfg.cooldown * Backoff(|alerts|) as real
  }

  lemma {:induction false} SpanGrows(cfg: Config, alerts: seq<real>, now: real)
    requires SpansBackoff(cfg, alerts)
    requires alerts != [] ==> now - alerts[|alerts| - 1] >= DynamicCooldown(cfg, |alerts| + 1)
    ensures SpansBackoff(cfg, alerts + [now])
  {
    if alerts != [] {
      var m := |alerts| + 1;
      var a, b := Backoff(m - 1) as real, (1 + m / 5) as real;
      assert Backoff(m) as real == a + b;
      assert cfg.cooldown * (a + b) == cfg.cooldown * a + cfg.cooldown * b;
    }
  }

  /** In one outage of a key, `m` alerts span at least `cooldown * Backoff(m)` seconds, whatever
      else the tracker is asked to record meanwhile. */
  lemma {:induction false} AlertsBackOff(cfg: Config, ops: seq<Op>, key: Key)
    requires cfg.cooldown >= 0.0 || ClockMovesForward(ops)
    ensures SpansBackoff(cfg, Alerts(cfg, ops, key))
  {
    if ops != [] {
      var front, op := ops[..|ops| - 1], ops[|ops| - 1];
      AlertsBackOff(cfg, front, key);
      if op.key == key && op.Fail? && Step(cfg, Run(cfg, front), op).1 {
        AlertGap(cfg, front, op);
        SpanGrows(cfg, Alerts(cfg, front, key), op.now);
      }
    }
  }

  /** The back-off is quadratic in the number of alerts. */
  lemma {:induction false} BackoffIsQuadratic(m: nat)
    requires m >= 1
    ensures 10 * Backoff(m) >= (m - 1) * (m + 4)
    ensures 10 * Backoff(m) <= (m - 1) * (m + 12)
  {
    if m > 1 {
      BackoffIsQuadratic(m - 1);
      assert (m - 1) * (m + 4) == (m - 2) * (m + 3) + 2 * m + 2;
      assert (m - 1) * (m + 12) == (m - 2) * (m + 11) + 2 * m + 10;
    }
  }

  // ---------- The back-off is attained ----------

  lemma {:induction false} OutageSnoc(cfg: Config, ops: seq<Op>, op: Op)
    requires op.Fail?
    ensures FailuresInOutage(ops + [op], op.key) == FailuresInOutage(ops, op.key) + 1
    ensures Step(cfg, Run(cfg, ops), op).1 ==> Alerts(cfg, ops + [op], op.key) == Alerts(cfg, ops, op.key) + [op.now]
  {
    assert (ops + [op])[..|ops|] == ops;
  }

  /** The next failure alerts if it comes as late as the stretched cooldown asks. */
  lemma {:induction false} LateFailureAlerts(cfg: Config, ops: seq<Op>, op: Op)
    requires op.Fail?
    requires var n, alerts := FailuresInOutage(ops, op.key), Alerts(cfg, ops, op.key);
             n > 0 ==> alerts != [] && op.now - alerts[|alerts| - 1] >= DynamicCooldown(cfg, n + 1)
    ensures Step(cfg, Run(cfg, ops), op).1
  {
    RunTracks(cfg, ops, op.key);
    if op.key in Run(cfg, ops).failures {
      RepeatedFailureAlertsWhen(cfg, Run(cfg, ops), op.key, op.available, op.required, op.now);
    }
  }

  /** Every failure of the outage has alerted, the first at time zero and the last at `last`. */
  ghost predicate AllAlerted(cfg: Config, ops: seq<Op>, key: Key, m: nat, last: real) {
    var alerts := Alerts(cfg, ops, key);
    FailuresInOutage(ops, key) == m == |alerts| && (m > 0 ==> alerts[0] == 0.0 && alerts[m - 1] == last)
  }

  lemma {:induction false} OneMoreAlert(cfg: Config, ops: seq<Op>, key: Key, m: nat, last: real, now: real)
    requires AllAlerted(cfg, ops, key, m, last)
    requires if m == 0 then now == 0.0 else now - last >= DynamicCooldown(cfg, m + 1)
    ensures AllAlerted(cfg, ops + [Fail(key, [], 0, now)], key, m + 1, now)
  {
    LateFailureAlerts(cfg, ops, Fail(key, [], 0, now));
    OutageSnoc(cfg, ops, Fail(key, [], 0, now));
  }

  function AlertTime(cfg: Config, m: nat): real {
    cfg.cooldown * Backoff(m) as real
  }

  /** Failures of one key, each recorded the moment it may alert. */
  lemma {:induction false} FastestAlerts(cfg: Config, key: Key, m: nat) returns (ops: seq<Op>)
    ensures AllAlerted(cfg, ops, key, m, AlertTime(cfg, m))
  {
    if m == 0 {
      ops := [];
    } else {
      ops := FastestAlerts(cfg, key, m - 1);
      if m > 1 {
        BackoffStep(cfg, m);
      }
      OneMoreAlert(cfg, ops, key, m - 1, AlertTime(cfg, m - 1), AlertTime(cfg, m));
      ops := ops + [Fail(key, [], 0, AlertTime(cfg, m))];
    }
  }

  lemma {:induction false} BackoffStep(cfg: Config, m: nat)
    requires m >= 2
    ensures AlertTime(cfg, m) - AlertTime(cfg, m - 1) == DynamicCooldown(cfg, m)
  {
    var a, b := Backoff(m - 1) as real, (1 + m / 5) as real;
    assert Backoff(m) as real == a + b;
    assert cfg.cooldown * (a + b) == cfg.cooldown * a + cfg.cooldown * b;
  }

  /** The time from the first to the last alert of an outage. */
  function AlertSpan(cfg: Config, ops: seq<Op>, key: Key): real {
    var alerts := Alerts(cfg, ops, key);
    if alerts == [] then 0.0 else alerts[|alerts| - 1] - alerts[0]
  }

  ghost predicate SpansAtLeast(cfg: Config, ops: seq<Op>, key: Key, m: nat, least: real) {
    |Alerts(cfg, ops, key)| == m ==> AlertSpan(cfg, ops, key) >= least
  }

  ghost predicate SpansExactly(cfg: Config, ops: seq<Op>, key: Key, m: nat, span: real) {
    FailuresInOutage(ops, key) == m == |Alerts(cfg, ops, key)| && AlertSpan(cfg, ops, key) == span
  }

  lemma {:induction false} AllAlertedSpans(cfg: Config, ops: seq<Op>, key: Key, m: nat, last: real)
    requires m >= 1 && AllAlerted(cfg, ops, key, m, last)
    ensures SpansExactly(cfg, ops, key, m, last)
  {
  }

  /** For every configuration and every number of alerts, some outage attains the bound. */
  lemma {:induction false} BackoffIsAttained(cfg: Config, key: Key, m: nat)
    requires m >= 1
    ensures exists ops :: SpansExactly(cfg, ops, key, m, AlertTime(cfg, m))
  {
    var ops := FastestAlerts(cfg, key, m);
    AllAlertedSpans(cfg, ops, key, m, AlertTime(cfg, m));
  }

  lemma {:induction false} BackoffIsLeast(cfg: Config, ops: seq<Op>, key: Key, m: nat)
    requires cfg.cooldown >= 0.0 && m >= 1
    ensures SpansAtLeast(cfg, ops, key, m, AlertTime(cfg, m))
  {
    AlertsBackOff(cfg, ops, key);
  }

  /** The `m` alerts of an outage span at least `cooldown * Backoff(m)` seconds, and some outage takes no
      longer.  So the shortest span grows with the square of the number of alerts, not exponentially. */
  lemma {:induction false} LeastSpanIsBackoff(cfg: Config, key: Key, m: nat)
    requires m >= 1 && cfg.cooldown >= 0.0
    ensures forall ops :: SpansAtLeast(cfg, ops, key, m, AlertTime(cfg, m))
    ensures exists ops :: SpansExactly(cfg, ops, key, m, AlertTime(cfg, m))
    ensures (m - 1) * (m + 4) <= 10 * Backoff(m) <= (m - 1) * (m + 12)
  {
    forall ops
      ensures SpansAtLeast(cfg, ops, key, m, AlertTime(cfg, m))
    {
      BackoffIsLeast(cfg, ops, key, m);
    }
    BackoffIsAttained(cfg, key, m);
    BackoffIsQuadratic(m);
  }

  // ---------- What the caller is told ----------

  /** The context of a failure is that of its outage on the trace: how often it has failed, since when,
      how long ago the last alert was, and the advice that goes with the number of failures. */
  lemma {:induction false} ContextReportsTheOutage(cfg: Config, ops: seq<Op>, key: Key, available: seq<string>,
                                                   required: int, now: real)
    ensures var n, alerts := FailuresInOutage(ops, key), Alerts(cfg, ops, key);
            var context := FailureContext(cfg, Run(cfg, ops), key, available, required, now);
            && (context.NewOutage? <==> n == 0)
            && (n > 0 ==>
                  && alerts != []
                  && context.consecutive == context.total == n + 1
                  && context.duration == now - alerts[0]
                  && context.sinceLastAlert == now - alerts[|alerts| - 1]
                  && context.cooldown == DynamicCooldown(cfg, n + 1)
                  && context.available == |if available == [] then AvailableInOutage(ops, key) else available|
                  && context.required == (if required == 0 then RequiredInOutage(ops, key) else required)
                  && (context.advice == SendSummary <==> n + 1 >= cfg.summaryThreshold)
                  && (context.advice == Escalate <==> 5 <= n + 1 < cfg.summaryThreshold))
  {
    RunTracks(cfg, ops, key);
  }

  // ---------- The throttle query ----------

  lemma {:induction false} RepeatedFailureAlertsWhen(cfg: Config, s: State, key: Key, available: seq<string>,
                                                     required: int, now: real)
    requires key in s.failures
    ensures RecordFailure(cfg, s, key, available, required, now).1
            <==> now - LastAlert(s, key) >= DynamicCooldown(cfg, s.failures[key].consecutive + 1)
  {
  }

  /** When a caller is told to throttle, the failure it would have recorded does not alert. */
  lemma {:induction false} ThrottledFailureDoesNotAlert(cfg: Config, s: State, key: Key, available: seq<string>,
                                                        required: int, now: real)
    requires cfg.cooldown >= 0.0 || now >= LastAlert(s, key)
    requires ShouldThrottle(cfg, s, key, now)
    ensures !RecordFailure(cfg, s, key, available, required, now).1
  {
    var c, since := s.failures[key].consecutive, now - LastAlert(s, key);
    RepeatedFailureAlertsWhen(cfg, s, key, available, required, now);
    if since >= DynamicCooldown(cfg, c + 1) {
      CooldownGrows(cfg, since, c + 1, c);
      assert false;
    }
  }

  /** The query is not the exact answer: it says "do not throttle" although the failure will not
      alert exactly when that failure is the one that stretches the cooldown and the time since
      the last alert lies between the old and the new cooldown. */
  lemma {:induction false} QueryMissesExactlyWhen(cfg: Config, s: State, key: Key, available: seq<string>,
                                                  required: int, now: real)
    requires key in s.failures && cfg.cooldown >= 0.0
    ensures var c := s.failures[key].consecutive;
            var since := now - LastAlert(s, key);
            !ShouldThrottle(cfg, s, key, now) && !RecordFailure(cfg, s, key, available, required, now).1
            <==> (c + 1) % 5 == 0 && DynamicCooldown(cfg, c) <= since < DynamicCooldown(cfg, c) + cfg.cooldown
  {
    var c := s.failures[key].consecutive;
    RepeatedFailureAlertsWhen(cfg, s, key, available, required, now);
    if (c + 1) % 5 == 0 {
      assert (c + 1) / 5 == c / 5 + 1;
      assert cfg.cooldown * (2 + c / 5) as real == cfg.cooldown * (1 + c / 5) as real + cfg.cooldown;
    } else {
      assert (c + 1) / 5 == c / 5;
    }
  }

  // ---------- The recovery history ----------

  /** A recovery reports the failures of the outage it ends, the time since the first of them, and the
      agents that were available then and are now. */
  lemma {:induction false} RecoveryReportsTheOutage(cfg: Config, ops: seq<Op>, key: Key, available: seq<string>,
                                                    now: real)
    requires cfg.maxHistory >= 0 && FailuresInOutage(ops, key) > 0
    ensures Alerts(cfg, ops, key) != []
    ensures var recoveries := Run(cfg, ops + [Recover(key, available, now)]).recoveries;
            var n := FailuresInOutage(ops, key);
            recoveries != [] && recoveries[|recoveries| - 1]
                                == Recovery(key, n, n, now - Alerts(cfg, ops, key)[0],
                                            |AvailableInOutage(ops, key)|, |available|, now)
  {
    RunTracks(cfg, ops, key);
    TrackedRecovery(cfg, ops, key, Run(cfg, ops), available, now);
    RecoveryIsFiled(cfg, Run(cfg, ops), key, available, now);
    RunSnoc(cfg, ops, Recover(key, available, now));
  }

  lemma {:induction false} TrackedRecovery(cfg: Config, ops: seq<Op>, key: Key, s: State, available: seq<string>,
                                           now: real)
    requires Tracks(cfg, ops, key, s) && FailuresInOutage(ops, key) > 0
    ensures key in s.failures && Alerts(cfg, ops, key) != []
    ensures var n := FailuresInOutage(ops, key);
            RecoveryOf(key, s.failures[key], available, now)
            == Recovery(key, n, n, now - Alerts(cfg, ops, key)[0], |AvailableInOutage(ops, key)|, |available|, now)
  {
  }

  lemma {:induction false} RecoveryIsFiled(cfg: Config, s: State, key: Key, available: seq<string>, now: real)
    requires cfg.maxHistory >= 0 && key in s.failures
    ensures var recoveries := RecordRecovery(cfg, s, key, available, now).recoveries;
            recoveries != [] && recoveries[|recoveries| - 1] == RecoveryOf(key, s.failures[key], available, now)
  {
  }

  lemma {:induction false} HistoryWithinCap(cfg: Config, ops: seq<Op>)
    requires cfg.maxHistory >= 2
    ensures |Run(cfg, ops).recoveries| <= cfg.maxHistory
  {
    if ops != [] {
      HistoryWithinCap(cfg, ops[..|ops| - 1]);
    }
  }

  ghost predicate HistoryBounded(cfg: Config) {
    forall ops :: HistoryFits(cfg, ops)
  }

  ghost predicate HistoryFits(cfg: Config, ops: seq<Op>) {
    |Run(cfg, ops).recoveries| <= cfg.maxHistory
  }

  lemma {:induction false} RunSnoc(cfg: Config, ops: seq<Op>, op: Op)
    ensures Run(cfg, ops + [op]) == Step(cfg, Run(cfg, ops), op).0
  {
    assert (ops + [op])[..|ops|] == ops;
  }

  /** With a cap of zero or one, nothing is ever dropped: every outage adds to the history. */
  lemma {:induction false} SmallCapOnlyGrows(cfg: Config, ops: seq<Op>, key: Key) returns (more: seq<Op>)
    requires 0 <= cfg.maxHistory < 2
    ensures |Run(cfg, more).recoveries| == |Run(cfg, ops).recoveries| + 1
  {
    var fail, recover := Fail(key, [], 0, 0.0), Recover(key, [], 0.0);
    RunSnoc(cfg, ops, fail);
    RunSnoc(cfg, ops + [fail], recover);
    more := ops + [fail] + [recover];
  }

  /** The halving slice keeps everything when half of the cap is zero, so the history is bounded
      by its cap exactly when the cap is at least two. */
  lemma {:induction false} HistoryBoundedExactlyWhen(cfg: Config)
    requires cfg.maxHistory >= 0
    ensures HistoryBounded(cfg) <==> cfg.maxHistory >= 2
  {
    if cfg.maxHistory >= 2 {
      forall ops
        ensures HistoryFits(cfg, ops)
      {
        HistoryWithinCap(cfg, ops);
      }
    } else {
      var key: Key :| true;
      var once := SmallCapOnlyGrows(cfg, [], key);
      var twice := SmallCapOnlyGrows(cfg, once, key);
      assert !HistoryFits(cfg, twice);
    }
  }

  // ---------- The tracker object ----------

  class QuorumFailureTracker {
    const cfg: Config
    var failures: map<Key, Outage>
    var lastAlertTime: map<Key, real>
    var recoveryEvents: seq<Recovery>

    function View(): State
      reads this
    {
      State(failures, lastAlertTime, recoveryEvents)
    }

    constructor (cfg: Config)
      ensures View() == EMPTY && this.cfg == cfg
    {
      this.cfg := cfg;
      failures, lastAlertTime, recoveryEvents := map[], map[], [];
    }

    method Record(asset: string, timeframe: string, kind: string, available: seq<string>, required: int, now: real)
      returns (shouldAlert: bool, context: Context)
      modifies this
      ensures context == FailureContext(cfg, old(View()), MakeKey(asset, timeframe, kind), available, required, now)
      ensures View() == RecordFailure(cfg, old(View()), MakeKey(asset, timeframe, kind), available, required, now).0
      ensures shouldAlert
              == RecordFailure(cfg, old(View()), MakeKey(asset, timeframe, kind), available, required, now).1
    {
      var key := MakeKey(asset, timeframe, kind);
      if key !in failures {
        failures := failures[key := Outage(now, now, 1, 1, available, required)];
        lastAlertTime := lastAlertTime[key := now];
        return true, NewOutage;
      }
      failures := failures[key := Seen(failures[key], available, required, now)];
      var sinceLast := now - (if key in lastAlertTime then lastAlertTime[key] else 0.0);
      var f := failures[key];
      shouldAlert := sinceLast >= DynamicCooldown(cfg, f.consecutive);
      if shouldAlert {
        lastAlertTime := lastAlertTime[key := now];
      }
      var advice := StandardAlert;
      if f.consecutive >= cfg.summaryThreshold {
        advice := SendSummary;
      } else if f.consecutive >= 5 {
        advice := Escalate;
      }
      context := Repeated(f.consecutive, f.count, now - f.firstFailure, sinceLast, DynamicCooldown(cfg, f.consecutive),
                          |f.available|, f.required, advice);
    }

    method RecordRecovered(asset: string, timeframe: string, kind: string, available: seq<string>, now: real)
      returns (info: Option<Recovery>)
      modifies this
      ensures View() == RecordRecovery(cfg, old(View()), MakeKey(asset, timeframe, kind), available, now)
      ensures var key := MakeKey(asset, timeframe, kind);
              info == if key in old(failures) then Some(RecoveryOf(key, old(failures)[key], available, now)) else None
    {
      var key := MakeKey(asset, timeframe, kind);
      if key !in failures {
        return None;
      }
      info := EndOutage(key, available, now);
    }

    method EndOutage(key: Key, available: seq<string>, now: real) returns (info: Option<Recovery>)
      requires key in failures
      modifies this
      ensures View() == RecordRecovery(cfg, old(View()), key, available, now)
      ensures info == Some(RecoveryOf(key, old(failures)[key], available, now))
    {
      var f := failures[key];
      var recovery := Recovery(key, f.count, f.consecutive, now - f.firstFailure, |f.available|, |available|, now);
      info := Some(recovery);
      var recoveries := recoveryEvents + [recovery];
      if |recoveries| > cfg.maxHistory {
        recoveries := SliceFromEnd(recoveries, cfg.maxHistory / 2);
      }
      failures, lastAlertTime, recoveryEvents := failures - {key}, lastAlertTime - {key}, recoveries;
    }

    method Throttled(asset: string, timeframe: string, kind: string, now: real) returns (throttle: bool)
      ensures throttle == ShouldThrottle(cfg, View(), MakeKey(asset, timeframe, kind), now)
    {
      var key := MakeKey(asset, timeframe, kind);
      if key !in failures {
        return false;
      }
      var sinceLast := now - LastAlert(View(), key);
      throttle := sinceLast < DynamicCooldown(cfg, failures[key].consecutive);
    }
  }
}
