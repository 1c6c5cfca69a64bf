/** The life of governance events: published, approved, then rejected, executed or failed, and
    kept in a bounded audit trail.  Each operation is one lock-protected region. */
module GovernanceLifecycle {
  import opened Options
  import opened Sequences

  const MAX_AUDIT_HISTORY := 10000

  type EventId = string

  datatype Status = Pending | Approved | Rejected | Executed | Failed

  datatype Event = Event(id: EventId, kind: string, target: string, action: string,
                         asset: Option<string>, timeframe: Option<string>)

  /** The contents of an audit record. */
  datatype Record = Record(event: Event, status: Status, decisionId: Option<string>, executedBy: Option<string>,
                           executedAt: Option<real>, error: Option<string>)

  datatype Op =
    | Publish(event: Event)
    | Approve(id: EventId, decision: string, approver: string)
    | Reject(id: EventId, reason: string)
    | MarkExecuted(id: EventId, success: bool, error: Option<string>, now: real)

  /** The event an operation is about. */
  function Subject(op: Op): EventId {
    if op.Publish? then op.event.id else op.id
  }

  datatype Bus = Bus(pending: map<EventId, Record>, processed: set<EventId>, audit: seq<Record>)

  const EMPTY := Bus(map[], {}, [])

  function NewRecord(e: Event): Record {
    Record(e, Pending, None, None, None, None)
  }

  /** What publication files: an event that lacks its asset or its timeframe takes both from what its
      target was parsed to, provided that names an asset. */
  function Filled(e: Event, asset: Option<string>, timeframe: Option<string>): Event {
    if (e.asset.None? || e.timeframe.None?) && asset.Some? && asset.value != ""
    then e.(asset := asset, timeframe := timeframe)
    else e
  }

  /** So filling in one of the two may replace the other: a given timeframe is lost exactly when the asset
      was missing, the target names one, and not with the same timeframe; a given asset likewise. */
  lemma {:induction false} FillingReplacesExactlyWhen(e: Event, asset: Option<string>, timeframe: Option<string>)
    ensures Filled(e, asset, timeframe).id == e.id
    ensures var found := asset.Some? && asset.value != "";
            && (e.timeframe.Some? && Filled(e, asset, timeframe).timeframe != e.timeframe
                <==> e.timeframe.Some? && e.asset.None? && found && timeframe != e.timeframe)
            && (e.asset.Some? && Filled(e, asset, timeframe).asset != e.asset
                <==> e.asset.Some? && e.timeframe.None? && found && asset != e.asset)
  {
  }

  /** A missing part is filled in exactly when the target names an asset, with what it was parsed to; nothing but
      the two parts is ever changed. */
  lemma {:induction false} FillingFillsExactlyWhen(e: Event, asset: Option<string>, timeframe: Option<string>)
    ensures var found, filled := asset.Some? && asset.value != "", Filled(e, asset, timeframe);
            && (e.asset.None? ==> filled.asset == if found then asset else None)
            && (e.timeframe.None? ==> filled.timeframe == if found then timeframe else None)
            && (e.asset.Some? && e.timeframe.Some? ==> filled == e)
            && filled.id == e.id && filled.kind == e.kind && filled.target == e.target && filled.action == e.action
  {
  }

  function ApprovedRecord(r: Record, decision: string, approver: string): Record {
    r.(status := Approved, decisionId := Some(decision), executedBy := Some(approver))
  }

  function RejectedRecord(r: Record, reason: string): Record {
    r.(status := Rejected, error := Some(reason))
  }

  function ExecutedRecord(r: Record, success: bool, error: Option<string>, now: real): Record {
    r.(status := if success then Executed else Failed, executedAt := Some(now), error := error)
  }

  function Trimmed<T>(audit: seq<T>): seq<T> {
    if |audit| > MAX_AUDIT_HISTORY then SliceFromEnd(audit, MAX_AUDIT_HISTORY / 2) else audit
  }

  /** The next state, the operation's answer, and the record appended to the audit trail, if any.
      Publishing a processed event is suppressed; publishing a pending one starts its record over. */
  function Step(b: Bus, op: Op): (Bus, bool, Option<Record>) {
    match op
    case Publish(e) =>
      if e.id in b.processed then (b, false, None)
      else (b.(pending := b.pending[e.id := NewRecord(e)]), true, None)
    case Approve(id, decision, approver) =>
      if id !in b.pending then (b, false, None)
      else (b.(pending := b.pending[id := ApprovedRecord(b.pending[id], decision, approver)]), true, None)
    case Reject(id, reason) =>
      if id !in b.pending then (b, false, None) else
      var r := RejectedRecord(b.pending[id], reason);
      (b.(pending := b.pending - {id}, audit := Trimmed(b.audit + [r])), true, Some(r))
    case MarkExecuted(id, success, error, now) =>
      if id !in b.pending then (b, false, None) else
      var r := ExecutedRecord(b.pending[id], success, error, now);
      (b.(pending := b.pending - {id}, processed := b.processed + {id}, audit := Trimmed(b.audit + [r])), true, Some(r))
  }

  function Appended(r: Option<Record>): seq<Record> {
    if r.Some? then [r.value] else []
  }

  /** A run from the empty bus: the state, and the log of every record ever appended. */
  function Run(ops: seq<Op>): (Bus, seq<Record>) {
    if ops == [] then (EMPTY, []) else
    var (b, log) := Run(ops[..|ops| - 1]);
    var (b', _, r) := Step(b, ops[|ops| - 1]);
    (b', log + Appended(r))
  }

  // ---------- The invariant of every interleaving ----------

  predicate Final(s: Status) {
    s == Executed || s == Failed
  }

  ghost predicate Consistent(b: Bus, log: seq<Record>) {
    && b.pending.Keys !! b.processed
    && (forall id :: id in b.pending ==> b.pending[id].event.id == id)
    && (forall id :: id in b.pending ==> b.pending[id].status in {Pending, Approved})
    && (forall i :: 0 <= i < |log| ==> log[i].status in {Rejected, Executed, Failed})
    && (forall i :: 0 <= i < |log| && Final(log[i].status) ==> log[i].event.id in b.processed)
    && (forall id :: id in b.processed ==> exists i :: 0 <= i < |log| && log[i].event.id == id && Final(log[i].status))
    && (forall i, j :: 0 <= i < j < |log| && log[i].event.id == log[j].event.id ==> log[i].status == Rejected)
  }

  /** The trail is the end of the log, and never less than half the cap of it. */
  ghost predicate TrailIsRecent(audit: seq<Record>, log: seq<Record>) {
    && audit == Suffix(log, |audit|)
    && Min(|log|, MAX_AUDIT_HISTORY / 2) <= |audit| <= MAX_AUDIT_HISTORY
  }

  lemma {:induction false} TrimKeepsRecent(audit: seq<Record>, log: seq<Record>, r: Record)
    requires TrailIsRecent(audit, log)
    ensures TrailIsRecent(Trimmed(audit + [r]), log + [r])
  {
    assert |audit| <= |log|;
    assert log + [r] == log[..|log| - |audit|] + (audit + [r]);
  }

  lemma {:induction false} StepConsistent(b: Bus, log: seq<Record>, op: Op)
    requires Consistent(b, log)
    ensures var (b', _, r) := Step(b, op); Consistent(b', log + Appended(r))
  {
    var (b', _, r) := Step(b, op);
    if r.Some? {
      var log' := log + [r.value];
      assert log'[|log|] == r.value;
      forall id | id in b'.processed
        ensures exists i :: 0 <= i < |log'| && log'[i].event.id == id && Final(log'[i].status)
      {
        if id in b.processed {
          var i :| 0 <= i < |log| && log[i].event.id == id && Final(log[i].status);
          assert log'[i] == log[i];
        }
      }
    } else {
      assert log + [] == log;
    }
  }

  lemma {:induction false} StepKeepsTrail(b: Bus, log: seq<Record>, op: Op)
    requires TrailIsRecent(b.audit, log)
    ensures var (b', _, r) := Step(b, op); TrailIsRecent(b'.audit, log + Appended(r))
  {
    var r := Step(b, op).2;
    if r.Some? {
      TrimKeepsRecent(b.audit, log, r.value);
    } else {
      assert log + [] == log;
    }
  }

  lemma {:induction false} RunStaysConsistent(ops: seq<Op>)
    ensures Consistent(Run(ops).0, Run(ops).1)
  {
    if ops != [] {
      RunStaysConsistent(ops[..|ops| - 1]);
      StepConsistent(Run(ops[..|ops| - 1]).0, Run(ops[..|ops| - 1]).1, ops[|ops| - 1]);
    }
  }

  lemma {:induction false} RunKeepsTrail(ops: seq<Op>)
    ensures TrailIsRecent(Run(ops).0.audit, Run(ops).1)
  {
    if ops != [] {
      RunKeepsTrail(ops[..|ops| - 1]);
      StepKeepsTrail(Run(ops[..|ops| - 1]).0, Run(ops[..|ops| - 1]).1, ops[|ops| - 1]);
    }
  }

  /** Over every interleaving: pending and processed ids are disjoint, pending records are
      pending or approved, audit records are terminal, nothing follows an executed or failed
      record of an event, and the audit trail is the recent end of the log. */
  lemma {:induction false} RunConsistent(ops: seq<Op>)
    ensures Consistent(Run(ops).0, Run(ops).1)
    ensures TrailIsRecent(Run(ops).0.audit, Run(ops).1)
  {
    RunStaysConsistent(ops);
    RunKeepsTrail(ops);
  }

  // ---------- Every event is a machine of its own ----------

  datatype Life = Absent | Open(record: Record) | Closed

  function LifeOf(b: Bus, id: EventId): Life {
    if id in b.pending then Open(b.pending[id]) else if id in b.processed then Closed else Absent
  }

  /** The life of one event, as an automaton that knows nothing of other events: a rejected
      event may be published again, a closed one is closed for good. */
  function Advance(life: Life, op: Op): (Life, seq<Record>) {
    match (life, op)
    case (Closed, _) => (Closed, [])
    case (_, Publish(e)) => (Open(NewRecord(e)), [])
    case (Absent, _) => (Absent, [])
    case (Open(r), Approve(_, decision, approver)) => (Open(ApprovedRecord(r, decision, approver)), [])
    case (Open(r), Reject(_, reason)) => (Absent, [RejectedRecord(r, reason)])
    case (Open(r), MarkExecuted(_, success, error, now)) => (Closed, [ExecutedRecord(r, success, error, now)])
  }

  function Live(ops: seq<Op>): (Life, seq<Record>) {
    if ops == [] then (Absent, []) else
    var (life, log) := Live(ops[..|ops| - 1]);
    var (life', more) := Advance(life, ops[|ops| - 1]);
    (life', log + more)
  }

  function About(id: EventId): Op -> bool {
    (op: Op) => Subject(op) == id
  }

  function RecordsAbout(id: EventId): Record -> bool {
    (r: Record) => r.event.id == id
  }

  lemma {:induction false} StepIsLocal(b: Bus, log: seq<Record>, op: Op, id: EventId)
    requires Consistent(b, log)
    ensures var (b', _, r) := Step(b, op);
            var (life', more) := Advance(LifeOf(b, id), op);
            && LifeOf(b', id) == (if Subject(op) == id then life' else LifeOf(b, id))
            && Filter(Appended(r), RecordsAbout(id)) == (if Subject(op) == id then more else [])
  {
    var (b', _, r) := Step(b, op);
    if r.Some? {
      assert [r.value][..0] == [];
    }
  }

  /** The bus interleaves independent machines: for every event, its state and its share of the
      log are those of running only the operations about it. */
  lemma {:induction false} EventsDoNotInterfere(ops: seq<Op>, id: EventId)
    ensures LifeOf(Run(ops).0, id) == Live(Filter(ops, About(id))).0
    ensures Filter(Run(ops).1, RecordsAbout(id)) == Live(Filter(ops, About(id))).1
  {
    if ops != [] {
      var front, op := ops[..|ops| - 1], ops[|ops| - 1];
      var (b, log) := Run(front);
      var mine := Filter(front, About(id));
      EventsDoNotInterfere(front, id);
      RunConsistent(front);
      StepIsLocal(b, log, op, id);
      FilterConcat(log, Appended(Step(b, op).2), RecordsAbout(id));
      assert (mine + [op])[..|mine|] == mine;
      assert Filter(log, RecordsAbout(id)) + [] == Filter(log, RecordsAbout(id));
    }
  }

  /** Execution does not wait for approval: a record can be executed straight after publication. */
  lemma {:induction false} ExecutionNeedsNoApproval(e: Event, now: real)
    ensures var (b, log) := Run([Publish(e), MarkExecuted(e.id, true, None, now)]);
            |log| == 1 && log[0].status == Executed && log[0].decisionId == None
  {
    RunSnoc([], Publish(e));
    RunSnoc([Publish(e)], MarkExecuted(e.id, true, None, now));
    assert [] + [Publish(e)] == [Publish(e)];
    assert [Publish(e)] + [MarkExecuted(e.id, true, None, now)] == [Publish(e), MarkExecuted(e.id, true, None, now)];
  }

  lemma {:induction false} RunSnoc(ops: seq<Op>, op: Op)
    ensures var (b', _, r) := Step(Run(ops).0, op); Run(ops + [op]) == (b', Run(ops).1 + Appended(r))
  {
    assert (ops + [op])[..|ops|] == ops;
  }

  /** Exactly when an execution is backed by a decision: when the last operation about the event
      before it was an approval. */
  lemma {:induction false} ExecutedWithDecisionExactlyWhen(ops: seq<Op>, id: EventId, success: bool,
                                                           error: Option<string>, now: real)
    requires id in Run(ops).0.pending
    ensures var mine := Filter(ops, About(id));
            var r := Step(Run(ops).0, MarkExecuted(id, success, error, now)).2;
            mine != [] && r.Some? && (r.value.decisionId.Some? <==> mine[|mine| - 1].Approve?)
  {
    EventsDoNotInterfere(ops, id);
  }
}
