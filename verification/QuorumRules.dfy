/** How many contributions a decision needs, and the check that it has them. */
module QuorumRules {
  import opened Options
  import opened Sequences

  datatype QuorumConfig = QuorumConfig(minQuorum: int, maxQuorum: int, minValid: int,
                                       assetOverrides: map<string, int>, timeframeOverrides: map<string, int>)

  /** The environment can only set the quorum within the valid range; `None` stands for a
      variable that is unset or no integer. */
  function WithEnvironment(cfg: QuorumConfig, env: Option<int>): QuorumConfig {
    match env
    case None => cfg
    case Some(parsed) =>
      if parsed < cfg.minValid then cfg.(minQuorum := cfg.minValid)
      else if parsed > cfg.maxQuorum then cfg.(minQuorum := cfg.maxQuorum)
      else cfg.(minQuorum := parsed)
  }

  /** The configured quorum is documented as clamped to the valid range.  It is so exactly when the
      environment sets it to an integer or it was in that range to begin with. */
  lemma {:induction false} ConfiguredQuorumClampedExactlyWhen(cfg: QuorumConfig, env: Option<int>)
    requires cfg.minValid <= cfg.maxQuorum
    ensures cfg.minValid <= WithEnvironment(cfg, env).minQuorum <= cfg.maxQuorum
            <==> env.Some? || cfg.minValid <= cfg.minQuorum <= cfg.maxQuorum
  {
    match env
    case None =>
    case Some(_) =>
  }

  /** A number set in the environment counts as the number in the valid range that is nearest to it, and nothing
      else of the configuration changes. */
  lemma {:induction false} EnvironmentMeans(cfg: QuorumConfig, parsed: int, q: int)
    requires cfg.minValid <= q <= cfg.maxQuorum
    ensures var read := WithEnvironment(cfg, Some(parsed));
            && cfg.minValid <= read.minQuorum <= cfg.maxQuorum
            && Distance(parsed, read.minQuorum) <= Distance(parsed, q)
            && (Distance(parsed, read.minQuorum) == Distance(parsed, q) ==> q == read.minQuorum)
            && read == cfg.(minQuorum := read.minQuorum)
    ensures WithEnvironment(cfg, None) == cfg
  {
  }

  function Distance(a: int, b: int): nat {
    if a <= b then b - a else a - b
  }

  /** `base` lowered by the overrides of `names`, in turn. */
  function Lowered(base: int, names: seq<string>, overrides: map<string, int>): int {
    if names == [] then base else
    var before := Lowered(base, names[..|names| - 1], overrides);
    var name := names[|names| - 1];
    if name in overrides then Min(before, overrides[name]) else before
  }

  function Clamp(cfg: QuorumConfig, quorum: int): int {
    Max(cfg.minValid, Min(quorum, cfg.maxQuorum))
  }

  /** The quorum before clamping. */
  function BaseQuorum(cfg: QuorumConfig, assets: seq<string>, timeframes: seq<string>): int {
    Lowered(Lowered(cfg.minQuorum, assets, cfg.assetOverrides), timeframes, cfg.timeframeOverrides)
  }

  function EffectiveQuorum(cfg: QuorumConfig, assets: seq<string>, timeframes: seq<string>, emergency: bool): int {
    var base := BaseQuorum(cfg, assets, timeframes);
    Clamp(cfg, if emergency && base > 2 then base - 1 else base)
  }

  /** The lowered quorum is the least of the base and the overrides that apply. */
  lemma {:induction false} LoweredIsLeast(base: int, names: seq<string>, overrides: map<string, int>)
    ensures var q := Lowered(base, names, overrides);
            && q <= base
            && (forall n :: n in names && n in overrides ==> q <= overrides[n])
            && (q == base || exists n :: n in names && n in overrides && q == overrides[n])
  {
    if names != [] {
      var front, last := names[..|names| - 1], names[|names| - 1];
      LoweredIsLeast(base, front, overrides);
      assert names == front + [last];
      var q := Lowered(base, names, overrides);
      if q == Lowered(base, front, overrides) && q != base {
        var n :| n in front && n in overrides && q == overrides[n];
        assert n in names;
      } else if q != base {
        assert last in names;
      }
    }
  }

  /** So neither the order nor repetitions of assets and timeframes matter. */
  lemma {:induction false} QuorumIgnoresOrder(cfg: QuorumConfig, a: seq<string>, a': seq<string>, t: seq<string>,
                                              t': seq<string>, emergency: bool)
    requires forall n :: n in a <==> n in a'
    requires forall n :: n in t <==> n in t'
    ensures EffectiveQuorum(cfg, a, t, emergency) == EffectiveQuorum(cfg, a', t', emergency)
  {
    LoweredIsLeast(cfg.minQuorum, a, cfg.assetOverrides);
    LoweredIsLeast(cfg.minQuorum, a', cfg.assetOverrides);
    var base := Lowered(cfg.minQuorum, a, cfg.assetOverrides);
    assert base == Lowered(cfg.minQuorum, a', cfg.assetOverrides);
    LoweredIsLeast(base, t, cfg.timeframeOverrides);
    LoweredIsLeast(base, t', cfg.timeframeOverrides);
  }

  /** The quorum lies in the valid range whatever the overrides say; an emergency lowers it by at
      most one, and never to less than two. */
  lemma {:induction false} EmergencyIsBounded(cfg: QuorumConfig, assets: seq<string>, timeframes: seq<string>)
    requires cfg.minValid <= cfg.maxQuorum
    ensures var usual := EffectiveQuorum(cfg, assets, timeframes, false);
            var urgent := EffectiveQuorum(cfg, assets, timeframes, true);
            && cfg.minValid <= usual <= cfg.maxQuorum
            && cfg.minValid <= urgent <= cfg.maxQuorum
            && usual - 1 <= urgent <= usual
            && (urgent < usual ==> urgent >= 2)
  {
  }

  /** `b` is the least of the configured quorum and the overrides that apply to the decision. */
  ghost predicate IsLeastQuorum(cfg: QuorumConfig, assets: seq<string>, timeframes: seq<string>, b: int) {
    && b <= cfg.minQuorum
    && (forall n :: n in assets && n in cfg.assetOverrides ==> b <= cfg.assetOverrides[n])
    && (forall n :: n in timeframes && n in cfg.timeframeOverrides ==> b <= cfg.timeframeOverrides[n])
    && (b == cfg.minQuorum
        || (exists n :: n in assets && n in cfg.assetOverrides && b == cfg.assetOverrides[n])
        || (exists n :: n in timeframes && n in cfg.timeframeOverrides && b == cfg.timeframeOverrides[n]))
  }

  lemma {:induction false} BaseIsLeast(cfg: QuorumConfig, assets: seq<string>, timeframes: seq<string>)
    ensures IsLeastQuorum(cfg, assets, timeframes, BaseQuorum(cfg, assets, timeframes))
  {
    LoweredIsLeast(cfg.minQuorum, assets, cfg.assetOverrides);
    LoweredIsLeast(Lowered(cfg.minQuorum, assets, cfg.assetOverrides), timeframes, cfg.timeframeOverrides);
  }

  /** `q` is `b`, or the end of the valid range that is nearer to it. */
  ghost predicate IsClamped(cfg: QuorumConfig, b: int, q: int) {
    && cfg.minValid <= q <= cfg.maxQuorum
    && (q < b ==> q == cfg.maxQuorum)
    && (b < q ==> q == cfg.minValid)
  }

  /** What a decision needs, read off the configuration: with `b` the least of the configured quorum and the
      overrides that apply, `b` clamped to the valid range; an emergency lowers that by one if and only if
      `b` is above two and above the range's lower end, and not above its upper end. */
  lemma {:induction false} EffectiveQuorumMeans(cfg: QuorumConfig, assets: seq<string>, timeframes: seq<string>, b: int)
    requires cfg.minValid <= cfg.maxQuorum && IsLeastQuorum(cfg, assets, timeframes, b)
    ensures var usual := EffectiveQuorum(cfg, assets, timeframes, false);
            var urgent := EffectiveQuorum(cfg, assets, timeframes, true);
            && IsClamped(cfg, b, usual)
            && (urgent == usual - 1 <==> 2 < b && cfg.minValid < b <= cfg.maxQuorum)
            && (urgent == usual <==> !(2 < b && cfg.minValid < b <= cfg.maxQuorum))
  {
    BaseIsLeast(cfg, assets, timeframes);
    LeastQuorumIsUnique(cfg, assets, timeframes, b, BaseQuorum(cfg, assets, timeframes));
  }

  lemma {:induction false} LeastQuorumIsUnique(cfg: QuorumConfig, assets: seq<string>, timeframes: seq<string>,
                                               a: int, b: int)
    requires IsLeastQuorum(cfg, assets, timeframes, a) && IsLeastQuorum(cfg, assets, timeframes, b)
    ensures a == b
  {
  }

  /** The loops of the quorum computation. */
  method ComputeEffectiveQuorum(cfg: QuorumConfig, assets: seq<string>, timeframes: seq<string>, emergency: bool)
    returns (quorum: int)
    ensures quorum == EffectiveQuorum(cfg, assets, timeframes, emergency)
    ensures cfg.minValid <= cfg.maxQuorum ==>
              exists b :: IsLeastQuorum(cfg, assets, timeframes, b)
                          && IsClamped(cfg, if emergency && b > 2 then b - 1 else b, quorum)
  {
    BaseIsLeast(cfg, assets, timeframes);
    var base := cfg.minQuorum;
    for i := 0 to |assets|
      invariant base == Lowered(cfg.minQuorum, assets[..i], cfg.assetOverrides)
    {
      assert assets[..i + 1][..i] == assets[..i];
      if assets[i] in cfg.assetOverrides {
        base := Min(base, cfg.assetOverrides[assets[i]]);
      }
    }
    assert assets[..|assets|] == assets;
    ghost var byAsset := base;
    for i := 0 to |timeframes|
      invariant base == Lowered(byAsset, timeframes[..i], cfg.timeframeOverrides)
    {
      assert timeframes[..i + 1][..i] == timeframes[..i];
      if timeframes[i] in cfg.timeframeOverrides {
        base := Min(base, cfg.timeframeOverrides[timeframes[i]]);
      }
    }
    assert timeframes[..|timeframes|] == timeframes;
    if emergency && base > 2 {
      base := base - 1;
    }
    quorum := Clamp(cfg, base);
  }

  datatype Participant = Participant(agent: string, role: Option<string>)

  datatype QuorumFailure = QuorumFailure(required: int, actual: nat, agents: seq<string>, missingRoles: set<string>)

  /** Succeeds exactly when there are enough contributions and every required role is present;
      otherwise the failure names the contributors and exactly the missing roles. */
  method RequireQuorum(cfg: QuorumConfig, contributions: seq<Participant>, assets: seq<string>,
                       timeframes: seq<string>, requiredRoles: set<string>, emergency: bool)
    returns (r: Result<(), QuorumFailure>)
    ensures r.Success? <==>
            && |contributions| >= EffectiveQuorum(cfg, assets, timeframes, emergency)
            && forall role :: role in requiredRoles ==>
                 exists i :: 0 <= i < |contributions| && contributions[i].role == Some(role)
    ensures r.Failure? ==>
            && r.error.required == EffectiveQuorum(cfg, assets, timeframes, emergency)
            && r.error.actual == |contributions| == |r.error.agents|
            && (forall i :: 0 <= i < |contributions| ==> r.error.agents[i] == contributions[i].agent)
            && forall role :: role in r.error.missingRoles <==>
                 role in requiredRoles && forall i :: 0 <= i < |contributions| ==> contributions[i].role != Some(role)
  {
    var quorum := ComputeEffectiveQuorum(cfg, assets, timeframes, emergency);
    var agents: seq<string> := [];
    var present: set<string> := {};
    for i := 0 to |contributions|
      invariant |agents| == i && forall j :: 0 <= j < i ==> agents[j] == contributions[j].agent
      invariant forall role :: role in present <==> exists j :: 0 <= j < i && contributions[j].role == Some(role)
    {
      agents := agents + [contributions[i].agent];
      if contributions[i].role.Some? {
        present := present + {contributions[i].role.value};
      }
    }
    var missing := requiredRoles - present;
    if |contributions| >= quorum && missing == {} {
      assert forall role :: role in requiredRoles && role !in present ==> role in missing;
      return Success(());
    }
    r := Failure(QuorumFailure(quorum, |contributions|, agents, missing));
    if missing != {} {
      var role :| role in missing;
      assert role in requiredRoles && role !in present;
    }
  }
}
