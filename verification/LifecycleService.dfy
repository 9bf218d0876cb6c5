/** The workflow as the program runs it: one registry whose records and log are updated in
    place, each operation inside a transaction that is rolled back when it raises. Every
    method is specified by the operation of the same name in `Lifecycle`, so the theorems
    about runs hold of this class. */
module LifecycleService {
  import opened Text
  import opened Lifecycle

  datatype Reply = Done | Refused(error: Error)

  class Service {
    var records: seq<Record>
    var histories: seq<Kind>
    var events: seq<Event>

    constructor ()
      ensures Registry() == EMPTY
    {
      records, histories, events := [], [], [];
    }

    function Registry(): Lifecycle.Registry
      reads this
    {
      Lifecycle.Registry(records, histories, events)
    }

    /** The reply and the new registry are what the operation says; a refusal changes
        nothing. */
    ghost predicate Agrees(reply: Reply, before: Lifecycle.Registry, outcome: Outcome)
      reads this
    {
      match outcome
      case Ok(after) => reply == Done && Registry() == after
      case Raise(e) => reply == Refused(e) && Registry() == before
    }

    /** `append_history_event`; the loop is the aggregate query for the latest number. */
    method AppendHistoryEvent(subject: RecordId, action: Action, actor: Actor, cause: Option<EventId>)
      returns (id: EventId)
      requires subject < |records|
      modifies this`events
      ensures Registry() == Log(old(Registry()), subject, action, actor, cause)
      ensures id == |old(events)|
    {
      var history := records[subject].history;
      var latest := 0;
      for i := 0 to |events|
        invariant latest == Latest(events[..i], history)
      {
        assert events[..i + 1][..i] == events[..i];
        if events[i].history == history && events[i].sequence > latest {
          latest := events[i].sequence;
        }
      }
      assert events[..|events|] == events;
      id := |events|;
      events := events + [Event(history, latest + 1, subject, action, actor, cause, |events|)];
    }

    /** `history_for_new_record`. */
    method HistoryForNewRecord(kind: Kind, predecessor: Option<RecordId>) returns (history: HistoryId)
      requires predecessor.Some? ==> predecessor.value < |records|
      modifies this`histories
      ensures predecessor.Some? ==> history == records[predecessor.value].history && histories == old(histories)
      ensures predecessor.None? ==> history == |old(histories)| && histories == old(histories) + [kind]
    {
      if predecessor.Some? {
        return records[predecessor.value].history;
      }
      history := |histories|;
      histories := histories + [kind];
    }

    /** `create_submission`. */
    method CreateSubmission(kind: Kind, p: Payload, submitter: Account) returns (reply: Reply)
      modifies this
      ensures Agrees(reply, old(Registry()), Create(old(Registry()), kind, p, submitter, false))
    {
      reply := CreateRecord(kind, p, submitter, false);
    }

    /** `_create_submission`. */
    method CreateRecord(kind: Kind, p: Payload, submitter: Account, reapproval: bool) returns (reply: Reply)
      modifies this
      ensures Agrees(reply, old(Registry()), Create(old(Registry()), kind, p, submitter, reapproval))
    {
      if !FormValid(Registry(), kind, p, reapproval) {
        return Refused(ValidationError);
      }
      if !LineageAvailable(Registry(), kind, p, None) {
        return Refused(StateError);
      }
      if !submitter.active {
        return Refused(ValueError);
      }
      if p.predecessor.Some? && !HistoryHasKind(Registry(), p.predecessor.value, kind) {
        return Refused(ValueError);
      }
      var immediate := !RequiresReview(kind, reapproval);
      var id, submission := SubmitRecord(kind, p, submitter, reapproval);
      if immediate {
        PublishRecord(id, Policy, Some(submission));
      }
      return Done;
    }

    /** The new pending record, its history and its submission events. */
    method SubmitRecord(kind: Kind, p: Payload, submitter: Account, reapproval: bool)
      returns (id: RecordId, submission: EventId)
      requires p.predecessor.Some? ==> p.predecessor.value < |records|
      modifies this
      ensures Registry() == Submit(old(Registry()), kind, p, submitter, reapproval)
      ensures id == |old(records)| && submission == |events| - 1
    {
      var history := HistoryForNewRecord(kind, p.predecessor);
      id := |records|;
      var state := if reapproval then PendingReapproval else PendingReview;
      records := records + [Record(kind, history, p.predecessor, p.refs, submitter.id, state, None, None)];
      if p.predecessor.Some? {
        var _ := AppendHistoryEvent(id, RevisionCreated, User(submitter), None);
      }
      submission := AppendHistoryEvent(id, if reapproval then Resubmitted else Submitted, User(submitter), None);
    }

    /** The approval event, the publication event it causes, and the published record. */
    method PublishRecord(id: RecordId, actor: Actor, cause: Option<EventId>)
      requires id < |records|
      modifies this`events, this`records
      ensures Registry() == Publish(old(Registry()), id, actor, cause)
    {
      var approval := AppendHistoryEvent(id, Approved, actor, cause);
      var publication := AppendHistoryEvent(id, PublishedNow, actor, Some(approval));
      records := records[id := records[id].(state := Published,
                                            publishedAt := Some(events[publication].occurredAt),
                                            withdrawnAt := None)];
    }

    /** `update_pending_submission`. */
    method UpdatePending(kind: Kind, id: RecordId, payload: Payload, actor: Account) returns (reply: Reply)
      modifies this
      ensures Agrees(reply, old(Registry()), Update(old(Registry()), kind, id, payload, actor))
    {
      var refused := Managed(Registry(), kind, id, actor);
      if refused.Some? {
        return Refused(refused.value);
      }
      if !IsPending(records[id].state) {
        return Refused(StateError);
      }
      var p := payload;
      if records[id].state == PendingReapproval {
        p := p.(predecessor := records[id].predecessor);
      }
      if !FormValid(Registry(), kind, p, records[id].state == PendingReapproval) {
        return Refused(ValidationError);
      }
      if !LineageAvailable(Registry(), kind, p, Some(id)) {
        return Refused(StateError);
      }
      records := records[id := records[id].(predecessor := p.predecessor, refs := p.refs)];
      var _ := AppendHistoryEvent(id, Edited, User(actor), None);
      return Done;
    }

    /** `withdraw_submission`. */
    method WithdrawRecord(kind: Kind, id: RecordId, actor: Account) returns (reply: Reply)
      modifies this`events, this`records
      ensures Agrees(reply, old(Registry()), Withdraw(old(Registry()), kind, id, actor))
    {
      var refused := Managed(Registry(), kind, id, actor);
      if refused.Some? {
        return Refused(refused.value);
      }
      if records[id].state != Published {
        return Refused(StateError);
      }
      var event := AppendHistoryEvent(id, WithdrawnNow, User(actor), None);
      records := records[id := records[id].(state := Withdrawn, withdrawnAt := Some(events[event].occurredAt))];
      return Done;
    }

    /** `create_successor_submission`: when the successor is refused after the source has been
        withdrawn, the transaction restores what was there before. */
    method CreateSuccessorRecord(kind: Kind, source: RecordId, payload: Payload, actor: Account, withdraw: bool)
      returns (reply: Reply)
      modifies this
      ensures Agrees(reply, old(Registry()),
                     CreateSuccessor(old(Registry()), kind, source, payload, actor, withdraw))
    {
      var savedRecords, savedHistories, savedEvents := records, histories, events;
      var refused := Managed(Registry(), kind, source, actor);
      if refused.Some? {
        return Refused(refused.value);
      }
      if !IsPublic(records[source].state) || !SuccessorAvailable(Registry(), kind, source, None) {
        return Refused(StateError);
      }
      if withdraw {
        if kind != Decoder && kind != Circuit {
          return Refused(StateError);
        }
        reply := WithdrawRecord(kind, source, actor);
        if reply.Refused? {
          return;
        }
      }
      reply := CreateRecord(kind, payload.(predecessor := Some(source)), actor, records[source].state == Withdrawn);
      if reply.Refused? {
        records, histories, events := savedRecords, savedHistories, savedEvents;
      }
    }

    /** `approve_submission`. */
    method ApproveRecord(kind: Kind, id: RecordId, reviewer: Account, otherChecks: bool) returns (reply: Reply)
      modifies this
      ensures Agrees(reply, old(Registry()), Approve(old(Registry()), kind, id, reviewer, otherChecks))
    {
      if !reviewer.active || !reviewer.admin {
        return Refused(PermissionError);
      }
      if id >= |records| || records[id].kind != kind || !IsPending(records[id].state) {
        return Refused(StateError);
      }
      if records[id].state == PendingReview && !RequiresReview(kind, false) {
        return Refused(StateError);
      }
      if !Revalidates(Registry(), id, otherChecks) {
        return Refused(StateError);
      }
      PublishRecord(id, User(reviewer), None);
      return Done;
    }
  }
}
