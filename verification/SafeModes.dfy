/** The output validator's stages, failure counts and safe-mode latch. */
module SafeModes {
  import opened Options
  import opened Sequences

  const SAFE_MODE_THRESHOLD := 5
  const HISTORY_CAP := 10000
  const HISTORY_KEPT := 5000

  datatype Verdict = Valid | InvalidJson | SchemaMismatch | ForbiddenContent | ConfidenceTooLow

  datatype Validation = Validation(agent: string, verdict: Verdict) {
    predicate IsValid() {
      verdict == Valid
    }
  }

  /** The JSON in an output: an object, with its confidence (1.0 when absent), or something else. */
  datatype Json = Object(confidence: Confidence) | NoObject

  datatype Confidence = Number(value: real) | Incomparable

  /** The schema stage.  Without the schema library it looks for required names in the parsed value, and
      raises where that is no container. */
  datatype SchemaCheck = Unknown | Errors | Clean | Raises

  /** What the stages of a validation find in an output. */
  datatype Findings = Findings(forbidden: bool, parsed: Option<Json>, schema: SchemaCheck)

  /** The verdict, or `None` when a stage raises. */
  function Judge(f: Findings, minConfidence: real): Option<Verdict> {
    if f.forbidden then Some(ForbiddenContent)
    else if f.parsed.None? then Some(InvalidJson)
    else match f.schema
      case Unknown => Some(SchemaMismatch)
      case Errors => Some(SchemaMismatch)
      case Raises => None
      case Clean =>
        if minConfidence <= 0.0 then Some(Valid)
        else if f.parsed.value.NoObject? || f.parsed.value.confidence.Incomparable? then None
        else if f.parsed.value.confidence.value < minConfidence then Some(ConfidenceTooLow)
        else Some(Valid)
  }

  /** A validation raises, and then records nothing, exactly when the output has JSON, no forbidden content,
      and either the schema stage raises or it passes while a confidence is asked for that the JSON, being
      no object or holding no number, cannot answer.  It is valid exactly when every stage passes. */
  lemma {:induction false} JudgementMeans(f: Findings, minConfidence: real)
    ensures Judge(f, minConfidence).None? <==>
            && !f.forbidden && f.parsed.Some?
            && (f.schema == Raises
                || (f.schema == Clean && minConfidence > 0.0 && forall c :: f.parsed.value != Object(Number(c))))
    ensures Judge(f, minConfidence) == Some(Valid) <==>
            && !f.forbidden && f.parsed.Some? && f.schema == Clean
            && (minConfidence > 0.0 ==> exists c :: f.parsed.value == Object(Number(c)) && c >= minConfidence)
    ensures Judge(f, minConfidence) == Some(ForbiddenContent) <==> f.forbidden
    ensures Judge(f, minConfidence) == Some(InvalidJson) <==> !f.forbidden && f.parsed.None?
    ensures Judge(f, minConfidence) == Some(SchemaMismatch) <==>
            !f.forbidden && f.parsed.Some? && (f.schema == Unknown || f.schema == Errors)
    ensures Judge(f, minConfidence) == Some(ConfidenceTooLow) <==>
            && !f.forbidden && f.parsed.Some? && f.schema == Clean && minConfidence > 0.0
            && exists c :: f.parsed.value == Object(Number(c)) && c < minConfidence
  {
    if f.parsed.Some? && f.parsed.value.Object? && f.parsed.value.confidence.Number? {
      assert f.parsed.value == Object(Number(f.parsed.value.confidence.value));
    }
  }

  datatype State = State(failures: map<string, nat>, safeMode: set<string>, history: seq<Validation>)

  const EMPTY := State(map[], {}, [])

  datatype Op = Record(validation: Validation) | Reset(agent: string)

  function Agent(op: Op): string {
    if op.Record? then op.validation.agent else op.agent
  }

  function FailureCount(s: State, agent: string): nat {
    if agent in s.failures then s.failures[agent] else 0
  }

  function Step(s: State, op: Op): State {
    match op
    case Record(v) =>
      var history := s.history + [v];
      var count := if v.IsValid() then 0 else FailureCount(s, v.agent) + 1;
      State(s.failures[v.agent := count],
            if !v.IsValid() && count >= SAFE_MODE_THRESHOLD then s.safeMode + {v.agent} else s.safeMode,
            if |history| > HISTORY_CAP then Suffix(history, HISTORY_KEPT) else history)
    case Reset(agent) => s.(failures := s.failures[agent := 0], safeMode := s.safeMode - {agent})
  }

  function Run(ops: seq<Op>): State {
    if ops == [] then EMPTY else Step(Run(ops[..|ops| - 1]), ops[|ops| - 1])
  }

  // ---------- By the trace of one agent ----------

  function About(agent: string): Op -> bool {
    (op: Op) => Agent(op) == agent
  }

  predicate Fails(op: Op) {
    op.Record? && op.validation.verdict != Valid
  }

  /** The length of the run of failures that ends the trace. */
  function FailureRun(ops: seq<Op>): nat {
    if ops == [] || !Fails(ops[|ops| - 1]) then 0 else FailureRun(ops[..|ops| - 1]) + 1
  }

  /** Operations `i` to `i + n - 1` all fail. */
  ghost predicate FailsThroughout(ops: seq<Op>, i: nat, n: nat) {
    i + n <= |ops| && forall j :: i <= j < i + n ==> Fails(ops[j])
  }

  /** After operation `i` there is no reset. */
  ghost predicate NoResetFrom(ops: seq<Op>, i: nat) {
    forall j :: i <= j < |ops| ==> !ops[j].Reset?
  }

  /** Some five failures in a row have happened since the last reset. */
  ghost predicate Tripped(ops: seq<Op>) {
    exists i: nat :: FailsThroughout(ops, i, SAFE_MODE_THRESHOLD) && NoResetFrom(ops, i)
  }

  lemma {:induction false} FailureRunMeans(ops: seq<Op>)
    ensures var n := FailureRun(ops);
            && n <= |ops| && FailsThroughout(ops, |ops| - n, n)
            && (n < |ops| ==> !Fails(ops[|ops| - n - 1]))
  {
    if ops != [] && Fails(ops[|ops| - 1]) {
      FailureRunMeans(ops[..|ops| - 1]);
    }
  }

  lemma {:induction false} TrippedByLast(ops: seq<Op>, op: Op)
    ensures Tripped(ops + [op]) <==>
            !op.Reset? && (Tripped(ops) || (Fails(op) && FailureRun(ops) + 1 >= SAFE_MODE_THRESHOLD))
  {
    var more, n := ops + [op], FailureRun(ops);
    FailureRunMeans(ops);
    assert more[|ops|] == op;
    if Tripped(more) {
      var i: nat :| FailsThroughout(more, i, SAFE_MODE_THRESHOLD) && NoResetFrom(more, i);
      assert !more[|ops|].Reset?;
      if i + SAFE_MODE_THRESHOLD <= |ops| {
        assert forall j :: i <= j < |ops| ==> ops[j] == more[j];
        assert FailsThroughout(ops, i, SAFE_MODE_THRESHOLD) && NoResetFrom(ops, i);
      } else {
        assert forall j :: i <= j < |ops| ==> Fails(more[j]) && ops[j] == more[j];
      }
    }
    if !op.Reset? && Tripped(ops) {
      var i: nat :| FailsThroughout(ops, i, SAFE_MODE_THRESHOLD) && NoResetFrom(ops, i);
      assert forall j :: i <= j < |ops| ==> ops[j] == more[j];
      assert FailsThroughout(more, i, SAFE_MODE_THRESHOLD) && NoResetFrom(more, i);
    }
    if Fails(op) && n + 1 >= SAFE_MODE_THRESHOLD {
      var i := |more| - SAFE_MODE_THRESHOLD;
      assert forall j :: i <= j < |ops| ==> Fails(ops[j]) && ops[j] == more[j];
      assert FailsThroughout(more, i, SAFE_MODE_THRESHOLD) && NoResetFrom(more, i);
    }
  }

  /** Over every trace of validations and resets of all agents: an agent's count is its run of
      failures since its last success or reset, and it is in safe mode exactly when it has failed
      five times in a row since its last reset.  A success clears the count, never the latch. */
  lemma {:induction false} LatchMeans(ops: seq<Op>, agent: string)
    ensures FailureCount(Run(ops), agent) == FailureRun(Filter(ops, About(agent)))
    ensures agent in Run(ops).safeMode <==> Tripped(Filter(ops, About(agent)))
  {
    if ops == [] {
      assert !Tripped([]);
    } else {
      var front, op := ops[..|ops| - 1], ops[|ops| - 1];
      var mine := Filter(front, About(agent));
      LatchMeans(front, agent);
      if Agent(op) == agent {
        TrippedByLast(mine, op);
        assert (mine + [op])[..|mine|] == mine;
      }
    }
  }

  // ---------- The validation history ----------

  function Validations(ops: seq<Op>): seq<Validation> {
    if ops == [] then [] else
    Validations(ops[..|ops| - 1]) + if ops[|ops| - 1].Record? then [ops[|ops| - 1].validation] else []
  }

  /** The history is the end of all validations, never less than the last 5000 of them. */
  lemma {:induction false} HistoryIsRecent(ops: seq<Op>)
    ensures var all, kept := Validations(ops), Run(ops).history;
            kept == Suffix(all, |kept|) && Min(|all|, HISTORY_KEPT) <= |kept| <= HISTORY_CAP
  {
    if ops != [] {
      var front, op := ops[..|ops| - 1], ops[|ops| - 1];
      HistoryIsRecent(front);
      var all, kept := Validations(front), Run(front).history;
      if op.Record? {
        TrimmedIsRecent(all, kept, op.validation);
      } else {
        assert all + [] == all;
      }
    }
  }

  lemma {:induction false} TrimmedIsRecent(all: seq<Validation>, kept: seq<Validation>, v: Validation)
    requires kept == Suffix(all, |kept|) && Min(|all|, HISTORY_KEPT) <= |kept| <= HISTORY_CAP
    ensures var all', kept' := all + [v],
                if |kept + [v]| > HISTORY_CAP then Suffix(kept + [v], HISTORY_KEPT) else kept + [v];
            kept' == Suffix(all', |kept'|) && Min(|all'|, HISTORY_KEPT) <= |kept'| <= HISTORY_CAP
  {
    assert all + [v] == all[..|all| - |kept|] + (kept + [v]);
  }

  class OutputValidator {
    var failureCounts: map<string, nat>
    var safeModeAgents: set<string>
    var validationHistory: seq<Validation>

    function View(): State
      reads this
    {
      State(failureCounts, safeModeAgents, validationHistory)
    }

    constructor ()
      ensures View() == EMPTY
    {
      failureCounts, safeModeAgents, validationHistory := map[], {}, [];
    }

    /** The result is filled in stage by stage; every exit but an exception records exactly one validation. */
    method Validate(agent: string, f: Findings, minConfidence: real) returns (result: Option<Validation>)
      modifies this
      ensures result.Some? <==> Judge(f, minConfidence).Some?
      ensures result.Some? ==> result.value == Validation(agent, Judge(f, minConfidence).value)
      ensures View() == if result.Some? then Step(old(View()), Record(result.value)) else old(View())
    {
      var r := Validation(agent, InvalidJson);
      if f.forbidden {
        r := r.(verdict := ForbiddenContent);
        RecordValidation(r);
        return Some(r);
      }
      if f.parsed.None? {
        r := r.(verdict := InvalidJson);
        RecordValidation(r);
        return Some(r);
      }
      if f.schema == Unknown {
        r := r.(verdict := SchemaMismatch);
        RecordValidation(r);
        return Some(r);
      }
      if f.schema == Raises {
        return None;
      }
      if f.schema == Errors {
        r := r.(verdict := SchemaMismatch);
        RecordValidation(r);
        return Some(r);
      }
      if minConfidence > 0.0 {
        if f.parsed.value.NoObject? || f.parsed.value.confidence.Incomparable? {
          return None;
        }
        if f.parsed.value.confidence.value < minConfidence {
          r := r.(verdict := ConfidenceTooLow);
          RecordValidation(r);
          return Some(r);
        }
      }
      r := r.(verdict := Valid);
      RecordValidation(r);
      result := Some(r);
    }

    method RecordValidation(v: Validation)
      modifies this
      ensures View() == Step(old(View()), Record(v))
    {
      validationHistory := validationHistory + [v];
      if |validationHistory| > HISTORY_CAP {
        validationHistory := SliceFromEnd(validationHistory, HISTORY_KEPT);
      }
      if !v.IsValid() {
        failureCounts := failureCounts[v.agent := (if v.agent in failureCounts then failureCounts[v.agent] else 0) + 1];
        if failureCounts[v.agent] >= SAFE_MODE_THRESHOLD {
          safeModeAgents := safeModeAgents + {v.agent};
        }
      } else {
        failureCounts := failureCounts[v.agent := 0];
      }
    }

    method ResetAgentSafeMode(agent: string)
      modifies this
      ensures View() == Step(old(View()), Reset(agent))
    {
      safeModeAgents := safeModeAgents - {agent};
      failureCounts := failureCounts[agent := 0];
    }
  }
}
