/** What the audit records of governance events say, read off the operations that made them. */
module GovernanceRecords {
  import opened GovernanceLifecycle
  import opened Options
  import opened Sequences

  // ---------- One operation ----------

  /** Operations on an event that is not pending are refused and change nothing. */
  lemma {:induction false} RefusedExactlyWhenNotPending(b: Bus, op: Op)
    requires !op.Publish?
    ensures Step(b, op).1 <==> op.id in b.pending
    ensures op.id !in b.pending ==> Step(b, op) == (b, false, None)
  {
  }

  /** A publication opens a fresh record, unless the event has been executed; other events are untouched. */
  lemma {:induction false} PublishOpens(b: Bus, e: Event)
    ensures var (b', _, r) := Step(b, Publish(e));
            && r == None && b'.processed == b.processed && b'.audit == b.audit
            && (forall id :: id in b'.pending <==> id in b.pending || (id == e.id && e.id !in b.processed))
            && (forall id :: id in b.pending && id != e.id ==> b'.pending[id] == b.pending[id])
            && (e.id !in b.processed ==>
                  var r := b'.pending[e.id];
                  r.event == e && r.status == Pending && r.decisionId.None? && r.executedBy.None?
                  && r.executedAt.None? && r.error.None?)
  {
  }

  /** `r` is about the event of `before`, with the same decision. */
  ghost predicate SameDecision(r: Record, before: Record) {
    r.event == before.event && r.decisionId == before.decisionId && r.executedBy == before.executedBy
  }

  /** `id` is pending no more; the other events are as before. */
  ghost predicate Closes(b: Bus, b': Bus, id: EventId) {
    && (forall other :: other in b'.pending <==> other in b.pending && other != id)
    && (forall other :: other in b'.pending ==> b'.pending[other] == b.pending[other])
  }

  lemma {:induction false} ApproveMarks(b: Bus, id: EventId, decision: string, approver: string)
    requires id in b.pending
    ensures var (b', ok, r) := Step(b, Approve(id, decision, approver));
            && ok && r == None && b'.processed == b.processed && b'.audit == b.audit
            && b'.pending.Keys == b.pending.Keys
            && (forall other :: other in b.pending && other != id ==> b'.pending[other] == b.pending[other])
            && var now := b'.pending[id];
               now.status == Approved && now.decisionId == Some(decision) && now.executedBy == Some(approver)
               && now.event == b.pending[id].event && now.executedAt == b.pending[id].executedAt
               && now.error == b.pending[id].error
  {
  }

  lemma {:induction false} RejectFiles(b: Bus, id: EventId, reason: string)
    requires id in b.pending
    ensures var (b', ok, r) := Step(b, Reject(id, reason));
            && ok && r.Some? && Closes(b, b', id) && b'.processed == b.processed
            && SameDecision(r.value, b.pending[id]) && r.value.executedAt == b.pending[id].executedAt
            && r.value.status == Rejected && r.value.error == Some(reason)
            && b'.audit != [] && b'.audit[|b'.audit| - 1] == r.value
  {
  }

  /** Marking files the record as executed or failed, by the success reported, with the error and the time given. */
  lemma {:induction false} MarkExecutedFiles(b: Bus, id: EventId, success: bool, error: Option<string>, now: real)
    requires id in b.pending
    ensures var (b', ok, r) := Step(b, MarkExecuted(id, success, error, now));
            && ok && r.Some? && Closes(b, b', id) && b'.processed == b.processed + {id}
            && SameDecision(r.value, b.pending[id])
            && (r.value.status == Executed <==> success) && (r.value.status == Failed <==> !success)
            && r.value.error == error && r.value.executedAt == Some(now)
            && b'.audit != [] && b'.audit[|b'.audit| - 1] == r.value
  {
  }

  // ---------- Whole runs ----------

  /** Of the operations before the `i`-th that are about `id`, the `p`-th is a publication and those after it are
      approvals. */
  ghost predicate PublishedAt(ops: seq<Op>, i: nat, id: EventId, p: int)
    requires i <= |ops|
  {
    && 0 <= p < i && ops[p].Publish? && ops[p].event.id == id
    && forall q :: p < q < i && Subject(ops[q]) == id ==> ops[q].Approve?
  }

  /** The `q`-th operation is the last before the `i`-th that is about `id`. */
  ghost predicate LastAbout(ops: seq<Op>, i: nat, id: EventId, q: int)
    requires i <= |ops|
  {
    0 <= q < i && Subject(ops[q]) == id && forall k :: q < k < i ==> Subject(ops[k]) != id
  }

  /** The decision and the approver of a record whose event was last published, or approved, by `op`. */
  ghost predicate DecidedBy(op: Op, r: Record) {
    match op
    case Publish(_) => r.decisionId == None && r.executedBy == None
    case Approve(_, decision, approver) => r.decisionId == Some(decision) && r.executedBy == Some(approver)
    case _ => false
  }

  /** `r` is the record of the event as published last, with the last decision taken since. */
  ghost predicate Recounts(ops: seq<Op>, i: nat, r: Record)
    requires i <= |ops|
  {
    exists p, q :: RecountsFrom(ops, i, r, p, q)
  }

  ghost predicate RecountsFrom(ops: seq<Op>, i: nat, r: Record, p: int, q: int)
    requires i <= |ops|
  {
    && PublishedAt(ops, i, r.event.id, p) && ops[p].event == r.event
    && LastAbout(ops, i, r.event.id, q) && DecidedBy(ops[q], r)
  }

  /** The record of an event that is pending before the `i`-th operation. */
  ghost predicate OpenedBy(ops: seq<Op>, i: nat, id: EventId, r: Record)
    requires i <= |ops|
  {
    && r.event.id == id && Recounts(ops, i, r)
    && r.status == (if r.decisionId.Some? then Approved else Pending)
    && r.executedAt == None && r.error == None
  }

  /** The `i`-th operation filed the record `r`. */
  ghost predicate FiledBy(ops: seq<Op>, i: nat, r: Record)
    requires i < |ops|
  {
    && Subject(ops[i]) == r.event.id && Recounts(ops, i, r)
    && match ops[i]
       case Reject(_, reason) => r.status == Rejected && r.error == Some(reason) && r.executedAt == None
       case MarkExecuted(_, success, error, now) =>
         r.status == (if success then Executed else Failed) && r.error == error && r.executedAt == Some(now)
       case _ => false
  }

  lemma {:induction false} RecountsLater(ops: seq<Op>, i: nat, r: Record)
    requires i < |ops| && Recounts(ops, i, r) && Subject(ops[i]) != r.event.id
    ensures Recounts(ops, i + 1, r)
  {
    var p, q :| RecountsFrom(ops, i, r, p, q);
    assert RecountsFrom(ops, i + 1, r, p, q);
  }

  lemma {:induction false} FreshRecounts(ops: seq<Op>, i: nat)
    requires i < |ops| && ops[i].Publish?
    ensures Recounts(ops, i + 1, Record(ops[i].event, Pending, None, None, None, None))
  {
    assert RecountsFrom(ops, i + 1, Record(ops[i].event, Pending, None, None, None, None), i, i);
  }

  lemma {:induction false} ApprovedRecounts(ops: seq<Op>, i: nat, r: Record, t: Record)
    requires i < |ops| && Recounts(ops, i, r) && ops[i].Approve? && ops[i].id == r.event.id
    requires t.event == r.event && t.decisionId == Some(ops[i].decision) && t.executedBy == Some(ops[i].approver)
    ensures Recounts(ops, i + 1, t)
  {
    var p, q :| RecountsFrom(ops, i, r, p, q);
    assert RecountsFrom(ops, i + 1, t, p, i);
  }

  lemma {:induction false} SameDecisionRecounts(ops: seq<Op>, i: nat, r: Record, before: Record)
    requires i <= |ops| && Recounts(ops, i, before) && SameDecision(r, before)
    ensures Recounts(ops, i, r)
  {
    var p, q :| RecountsFrom(ops, i, before, p, q);
    assert RecountsFrom(ops, i, r, p, q);
  }

  lemma {:induction false} PublishedIsOpened(ops: seq<Op>, i: nat, b: Bus, id: EventId)
    requires i < |ops| && ops[i].Publish? && Subject(ops[i]) == id && b.pending.Keys !! b.processed
    requires id in Step(b, ops[i]).0.pending
    ensures OpenedBy(ops, i + 1, id, Step(b, ops[i]).0.pending[id])
  {
    PublishOpens(b, ops[i].event);
    FreshRecounts(ops, i);
  }

  lemma {:induction false} ApprovedIsOpened(ops: seq<Op>, i: nat, b: Bus, id: EventId)
    requires i < |ops| && ops[i].Approve? && Subject(ops[i]) == id
    requires id in b.pending && OpenedBy(ops, i, id, b.pending[id])
    ensures id in Step(b, ops[i]).0.pending && OpenedBy(ops, i + 1, id, Step(b, ops[i]).0.pending[id])
  {
    ApproveMarks(b, id, ops[i].decision, ops[i].approver);
    ApprovedRecounts(ops, i, b.pending[id], Step(b, ops[i]).0.pending[id]);
  }

  lemma {:induction false} OthersStayPending(b: Bus, op: Op, id: EventId)
    requires id in Step(b, op).0.pending && Subject(op) != id
    ensures id in b.pending && Step(b, op).0.pending[id] == b.pending[id]
  {
  }

  lemma {:induction false} StaysPending(b: Bus, op: Op, id: EventId)
    requires id in Step(b, op).0.pending && Subject(op) == id && !op.Publish?
    ensures op.Approve? && id in b.pending
  {
  }

  lemma {:induction false} NextPendingIsOpened(ops: seq<Op>, i: nat, b: Bus, id: EventId)
    requires i < |ops| && b.pending.Keys !! b.processed
    requires id in b.pending ==> OpenedBy(ops, i, id, b.pending[id])
    requires id in Step(b, ops[i]).0.pending
    ensures OpenedBy(ops, i + 1, id, Step(b, ops[i]).0.pending[id])
  {
    if Subject(ops[i]) != id {
      OthersStayPending(b, ops[i], id);
      RecountsLater(ops, i, b.pending[id]);
    } else if ops[i].Publish? {
      PublishedIsOpened(ops, i, b, id);
    } else {
      StaysPending(b, ops[i], id);
      ApprovedIsOpened(ops, i, b, id);
    }
  }

  lemma {:induction false} PrefixStep(ops: seq<Op>, i: nat)
    requires i < |ops|
    ensures var (b, log) := Run(ops[..i]);
            Run(ops[..i + 1]) == (Step(b, ops[i]).0, log + Appended(Step(b, ops[i]).2))
  {
    assert ops[..i + 1][..i] == ops[..i];
  }

  lemma {:induction false} PendingIsOpenedAt(ops: seq<Op>, i: nat)
    requires i <= |ops|
    ensures forall id :: id in Run(ops[..i]).0.pending ==> OpenedBy(ops, i, id, Run(ops[..i]).0.pending[id])
  {
    if i > 0 {
      var b := Run(ops[..i - 1]).0;
      PendingIsOpenedAt(ops, i - 1);
      RunStaysConsistent(ops[..i - 1]);
      PrefixStep(ops, i - 1);
      forall id | id in Run(ops[..i]).0.pending
        ensures OpenedBy(ops, i, id, Run(ops[..i]).0.pending[id])
      {
        NextPendingIsOpened(ops, i - 1, b, id);
      }
    }
  }

  lemma {:induction false} StepFiles(ops: seq<Op>, i: nat, b: Bus)
    requires i < |ops| && forall id :: id in b.pending ==> OpenedBy(ops, i, id, b.pending[id])
    requires Step(b, ops[i]).2.Some?
    ensures FiledBy(ops, i, Step(b, ops[i]).2.value)
  {
    var id := ops[i].id;
    match ops[i] {
      case Reject(_, reason) => RejectFiles(b, id, reason);
      case MarkExecuted(_, success, error, now) => MarkExecutedFiles(b, id, success, error, now);
    }
    SameDecisionRecounts(ops, i, Step(b, ops[i]).2.value, b.pending[id]);
  }

  lemma {:induction false} LogIsFiledAt(ops: seq<Op>, i: nat, j: nat) returns (filer: nat)
    requires i <= |ops| && j < |Run(ops[..i]).1|
    ensures filer < i && FiledBy(ops, filer, Run(ops[..i]).1[j])
  {
    var (b, log) := Run(ops[..i - 1]);
    PrefixStep(ops, i - 1);
    if j < |log| {
      assert Run(ops[..i]).1[j] == log[j];
      filer := LogIsFiledAt(ops, i - 1, j);
    } else {
      PendingIsOpenedAt(ops, i - 1);
      StepFiles(ops, i - 1, b);
      filer := i - 1;
    }
  }

  /** Every record ever filed is explained by the operations: it is about the event as last published, carries the
      decision and approver of the last approval since, if there was one, and was filed by a rejection, with its
      reason, or by an execution: executed if that reported success and failed if not, with its error and time. */
  lemma {:induction false} EveryRecordIsFiled(ops: seq<Op>, j: nat)
    requires j < |Run(ops).1|
    ensures exists i :: 0 <= i < |ops| && FiledBy(ops, i, Run(ops).1[j])
  {
    assert ops[..|ops|] == ops;
    var i := LogIsFiledAt(ops, |ops|, j);
  }

  /** So is the record of every pending event; it is approved exactly when there was an approval. */
  lemma {:induction false} EveryPendingIsOpened(ops: seq<Op>, id: EventId)
    requires id in Run(ops).0.pending
    ensures OpenedBy(ops, |ops|, id, Run(ops).0.pending[id])
  {
    assert ops[..|ops|] == ops;
    PendingIsOpenedAt(ops, |ops|);
  }
}
