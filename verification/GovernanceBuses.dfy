/** The event bus with its shared, mutable audit records. */
module GovernanceBuses {
  import opened GovernanceLifecycle
  import opened Options
  import opened Sequences

  /** An audit record object: created pending, changed in place, finally kept in the audit trail. */
  class AuditRecord {
    const event: Event
    var status: Status
    var decisionId: Option<string>
    var executedBy: Option<string>
    var executedAt: Option<real>
    var errorMessage: Option<string>

    function View(): Record
      reads this
    {
      Record(event, status, decisionId, executedBy, executedAt, errorMessage)
    }

    constructor (event: Event)
      ensures View() == NewRecord(event)
    {
      this.event := event;
      status := Pending;
      decisionId, executedBy, executedAt, errorMessage := None, None, None, None;
    }
  }

  ghost function Views(records: seq<AuditRecord>): (r: seq<Record>)
    reads records
    ensures |r| == |records| && forall i :: 0 <= i < |r| ==> r[i] == records[i].View()
  {
    if records == [] then [] else Views(records[..|records| - 1]) + [records[|records| - 1].View()]
  }

  lemma {:induction false} TrimmedViews(records: seq<AuditRecord>)
    ensures Views(Trimmed(records)) == Trimmed(Views(records))
    ensures forall r :: r in Trimmed(records) ==> r in records
  {
  }

  lemma {:induction false} ViewsAppend(records: seq<AuditRecord>, last: AuditRecord)
    ensures Views(records + [last]) == Views(records) + [last.View()]
  {
  }

  class GovernanceEventBus {
    var pending: map<EventId, AuditRecord>
    var processed: set<EventId>
    var audit: seq<AuditRecord>

    ghost function PendingView(): map<EventId, Record>
      reads this, pending.Values
    {
      map id | id in pending :: pending[id].View()
    }

    /** The whole state of the bus as a value. */
    ghost function View(): Bus
      reads this, pending.Values, audit
    {
      Bus(PendingView(), processed, Views(audit))
    }

    /** Records are not shared: not between pending events, nor with the audit trail. */
    ghost predicate Valid()
      reads this
    {
      && (forall id, id' :: id in pending && id' in pending && id != id' ==> pending[id] != pending[id'])
      && (forall id :: id in pending ==> pending[id] !in audit)
    }

    constructor ()
      ensures Valid() && View() == EMPTY
    {
      pending, processed, audit := map[], {}, [];
    }

    /** The locked region of a publication.  `asset` and `timeframe` are what the event's target was
        parsed to. */
    method Publish(event: Event, asset: Option<string>, timeframe: Option<string>) returns (id: EventId)
      requires Valid()
      modifies this
      ensures Valid()
      ensures id == event.id
      ensures View() == Step(old(View()), GovernanceLifecycle.Publish(Filled(event, asset, timeframe))).0
    {
      id := event.id;
      if id in processed {
        return;
      }
      var filled := event;
      if event.asset.None? || event.timeframe.None? {
        if asset.Some? && asset.value != "" {
          filled := event.(asset := asset, timeframe := timeframe);
        }
      }
      Open(filled);
    }

    method Open(event: Event)
      requires Valid()
      modifies this
      ensures Valid() && processed == old(processed)
      ensures PendingView() == old(PendingView())[event.id := NewRecord(event)]
      ensures Views(audit) == old(Views(audit))
    {
      var record := new AuditRecord(event);
      pending := pending[event.id := record];
    }

    /** Changes the one record in place; no other record, pending or in the trail, is affected. */
    method ApproveEvent(id: EventId, decision: string, approver: string) returns (ok: bool)
      requires Valid()
      modifies pending.Values
      ensures Valid()
      ensures View() == Step(old(View()), Approve(id, decision, approver)).0
      ensures ok == Step(old(View()), Approve(id, decision, approver)).1
    {
      ok := id in pending;
      if ok {
        var record := pending[id];
        record.status := Approved;
        record.decisionId := Some(decision);
        record.executedBy := Some(approver);
        assert Views(audit) == old(Views(audit));
      }
    }

    method RejectEvent(id: EventId, reason: string) returns (ok: bool)
      requires Valid()
      modifies this, pending.Values
      ensures Valid()
      ensures View() == Step(old(View()), Reject(id, reason)).0
      ensures ok == Step(old(View()), Reject(id, reason)).1
    {
      ok := id in pending;
      if ok {
        Settle(id, Rejected, pending[id].executedAt, Some(reason), {});
      }
    }

    method MarkExecuted(id: EventId, success: bool, error: Option<string>, now: real) returns (ok: bool)
      requires Valid()
      modifies this, pending.Values
      ensures Valid()
      ensures View() == Step(old(View()), GovernanceLifecycle.MarkExecuted(id, success, error, now)).0
      ensures ok == Step(old(View()), GovernanceLifecycle.MarkExecuted(id, success, error, now)).1
    {
      ok := id in pending;
      if ok {
        Settle(id, if success then Executed else Failed, Some(now), error, {id});
      }
    }

    /** Give a pending record its terminal contents, in place, close the ids in `closing`, and
        file the record. */
    method Settle(id: EventId, status: Status, at: Option<real>, error: Option<string>, closing: set<EventId>)
      requires Valid() && id in pending
      modifies this, pending.Values
      ensures Valid()
      ensures processed == old(processed) + closing
      ensures PendingView() == old(PendingView()) - {id}
      ensures Views(audit) == Trimmed(old(Views(audit))
                + [old(pending[id].View()).(status := status, executedAt := at, error := error)])
    {
      var record := pending[id];
      record.status := status;
      record.executedAt := at;
      record.errorMessage := error;
      assert Views(audit) == old(Views(audit));
      assert PendingView() - {id} == old(PendingView()) - {id};
      File(id, record, closing);
    }

    /** Move a pending record to the end of the audit trail, trim the trail, close the ids. */
    method File(id: EventId, record: AuditRecord, closing: set<EventId>)
      requires Valid() && id in pending && pending[id] == record
      modifies this
      ensures Valid()
      ensures processed == old(processed) + closing
      ensures PendingView() == old(PendingView()) - {id}
      ensures Views(audit) == Trimmed(old(Views(audit)) + [record.View()])
    {
      ViewsAppend(audit, record);
      TrimmedViews(audit + [record]);
      var trail := audit + [record];
      if |trail| > MAX_AUDIT_HISTORY {
        trail := SliceFromEnd(trail, MAX_AUDIT_HISTORY / 2);
      }
      pending, audit, processed := pending - {id}, trail, processed + closing;
      assert PendingView() == old(PendingView()) - {id};
    }
  }
}
