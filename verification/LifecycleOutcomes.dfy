/** What each operation does, told from its arguments and the registry before it: when it
    succeeds, which error it raises otherwise, and everything it changes. */
module LifecycleOutcomes {
  import opened Text
  import opened Lifecycle
  import opened LifecycleLog
  import opened LifecycleInvariant

  // ---- what has to hold before ----

  /** The record is there, of this kind. */
  predicate Present(r: Registry, id: RecordId, kind: Kind) {
    id < |r.records| && r.records[id].kind == kind
  }

  predicate PublishedRecord(r: Registry, id: RecordId, kind: Kind) {
    Present(r, id, kind) && r.records[id].state == Published
  }

  predicate Owns(r: Registry, id: RecordId, a: Account)
    requires id < |r.records|
  {
    a.admin || r.records[id].submitter == a.id
  }

  /** Results, and only results, refer to a published decoder, circuit and machine. */
  predicate RefersWell(r: Registry, kind: Kind, refs: Option<References>) {
    if kind == Result then
      && refs.Some? && PublishedRecord(r, refs.value.decoder, Decoder)
      && PublishedRecord(r, refs.value.circuit, Circuit) && PublishedRecord(r, refs.value.machine, Machine)
    else refs.None?
  }

  /** The predecessor, if there is one, is public; a withdrawn one will do only where
      `withdrawnToo` says so. */
  predicate FollowsWell(r: Registry, kind: Kind, predecessor: Option<RecordId>, withdrawnToo: bool) {
    predecessor.Some? ==>
      && Present(r, predecessor.value, kind)
      && (if withdrawnToo then IsPublic(r.records[predecessor.value].state)
          else r.records[predecessor.value].state == Published)
  }

  predicate Acceptable(r: Registry, kind: Kind, p: Payload, withdrawnToo: bool) {
    p.valid && RefersWell(r, kind, p.refs) && FollowsWell(r, kind, p.predecessor, withdrawnToo)
  }

  /** No record but `except` already follows the predecessor; machines may share one. */
  ghost predicate Free(r: Registry, kind: Kind, predecessor: Option<RecordId>, except: Option<RecordId>) {
    kind != Machine && predecessor.Some? ==>
      forall i | 0 <= i < |r.records| && r.records[i].predecessor == predecessor :: except == Some(i)
  }

  // ---- what is logged ----

  datatype Entry = Entry(subject: RecordId, action: Action, actor: Actor, cause: Option<EventId>)

  /** The event at `i` is this entry, in the history of its subject, with the next number of
      that history and at its own time. */
  ghost predicate IsEntry(s: Registry, i: EventId, e: Entry) {
    && i < |s.events| && e.subject < |s.records|
    && var h := s.records[e.subject].history;
       s.events[i] == Event(h, Count(s.events[..i], h) + 1, e.subject, e.action, e.actor, e.cause, i)
  }

  /** The log is the old one followed by exactly these entries. */
  ghost predicate Appended(r: Registry, s: Registry, entries: seq<Entry>) {
    && |s.events| == |r.events| + |entries|
    && (forall i | 0 <= i < |r.events| :: s.events[i] == r.events[i])
    && (forall k | 0 <= k < |entries| :: IsEntry(s, |r.events| + k, entries[k]))
  }

  /** One more event. */
  lemma LogAppends(r: Registry, m: Registry, entries: seq<Entry>, e: Entry)
    requires Appended(r, m, entries) && Numbered(m.events) && e.subject < |m.records|
    ensures var s := Log(m, e.subject, e.action, e.actor, e.cause);
            Appended(r, s, entries + [e]) && Numbered(s.events)
  {
    var s := Log(m, e.subject, e.action, e.actor, e.cause);
    LatestIsCount(m.events, m.records[e.subject].history);
    AppendNumbered(m.events, s.events[|m.events|]);
    var all := entries + [e];
    forall k | 0 <= k < |all| ensures IsEntry(s, |r.events| + k, all[k]) {
      if k < |entries| {
        assert IsEntry(m, |r.events| + k, entries[k]);
        assert s.events[..|r.events| + k] == m.events[..|r.events| + k];
      } else {
        assert s.events[..|m.events|] == m.events;
      }
    }
  }

  /** The entries do not depend on what the records hold besides their histories. */
  lemma SameAppended(r: Registry, m: Registry, s: Registry, entries: seq<Entry>)
    requires Appended(r, m, entries) && m.events == s.events && |m.records| <= |s.records|
    requires forall i | 0 <= i < |m.records| :: s.records[i].history == m.records[i].history
    ensures Appended(r, s, entries)
  {
    forall k | 0 <= k < |entries| ensures IsEntry(s, |r.events| + k, entries[k]) {
      assert IsEntry(m, |r.events| + k, entries[k]);
    }
  }

  // ---- edit ----

  lemma EditCondition(r: Registry, kind: Kind, id: RecordId, p: Payload, a: Account)
    ensures var outcome := Update(r, kind, id, p, a);
            var may := a.active && Present(r, id, kind) && Owns(r, id, a) && IsPending(r.records[id].state);
            var again := may && r.records[id].state == PendingReapproval;
            var predecessor := if again then r.records[id].predecessor else p.predecessor;
            var good := p.valid && RefersWell(r, kind, p.refs) && FollowsWell(r, kind, predecessor, again);
            && (outcome.Ok? <==> may && good && Free(r, kind, predecessor, Some(id)))
            && (outcome == Raise(PermissionError) <==> !a.active || (Present(r, id, kind) && !Owns(r, id, a)))
            && (outcome == Raise(ValidationError) <==> may && !good)
            && outcome != Raise(ValueError)
  {
  }

  /** A successful edit stores the references and, for an ordinary candidate, the predecessor
      of the payload, and nothing else, and logs one event. */
  lemma EditEffect(r: Registry, kind: Kind, id: RecordId, p: Payload, a: Account)
    requires Reachable(r) && Perform(r, DoUpdate(kind, id, p, a)).Ok?
    ensures var s := Step(r, DoUpdate(kind, id, p, a));
            && |s.records| == |r.records| && s.histories == r.histories
            && s.records[id].refs == p.refs
            && s.records[id].predecessor
               == (if r.records[id].state == PendingReview then p.predecessor else r.records[id].predecessor)
            && s.records[id] == r.records[id].(refs := s.records[id].refs, predecessor := s.records[id].predecessor)
            && (forall i | 0 <= i < |r.records| && i != id :: s.records[i] == r.records[i])
            && Appended(r, s, [Entry(id, Edited, User(a), None)])
  {
    ReachableInv(r);
    var q := KeepLineage(r.records[id], p);
    var m := SetRecord(r, id, r.records[id].(predecessor := q.predecessor, refs := q.refs));
    var e := Entry(id, Edited, User(a), None);
    assert Appended(r, m, []);
    LogAppends(r, m, [], e);
    assert [] + [e] == [e];
  }

  // ---- withdrawal ----

  lemma WithdrawCondition(r: Registry, kind: Kind, id: RecordId, a: Account)
    ensures var outcome := Withdraw(r, kind, id, a);
            && (outcome.Ok? <==> a.active && PublishedRecord(r, id, kind) && Owns(r, id, a))
            && (outcome == Raise(PermissionError) <==> !a.active || (Present(r, id, kind) && !Owns(r, id, a)))
            && (outcome.Raise? ==> outcome.error in {PermissionError, StateError})
  {
  }

  /** A withdrawal sets the state and the time of the record and logs one event. */
  lemma WithdrawEffect(r: Registry, kind: Kind, id: RecordId, a: Account)
    requires Reachable(r) && Perform(r, DoWithdraw(kind, id, a)).Ok?
    ensures var s := Step(r, DoWithdraw(kind, id, a)); Withdrawal(r, s, id, a)
  {
    ReachableInv(r);
    RetireIs(r, id, a);
  }

  ghost predicate Withdrawal(r: Registry, s: Registry, id: RecordId, a: Account)
    requires id < |r.records|
  {
    && s.histories == r.histories
    && s.records == r.records[id := r.records[id].(state := Withdrawn, withdrawnAt := Some(|r.events|))]
    && Appended(r, s, [Entry(id, WithdrawnNow, User(a), None)])
  }

  lemma RetireIs(r: Registry, id: RecordId, a: Account)
    requires Numbered(r.events) && id < |r.records|
    ensures Withdrawal(r, Retire(r, id, a), id, a) && Numbered(Retire(r, id, a).events)
  {
    assert Appended(r, r, []);
    var entries := [] + [Entry(id, WithdrawnNow, User(a), None)];
    LogAppends(r, r, [], entries[0]);
    SameAppended(r, Log(r, id, WithdrawnNow, User(a), None), Retire(r, id, a), entries);
  }

  // ---- approval ----

  lemma ApprovalErrors(r: Registry, kind: Kind, id: RecordId, reviewer: Account, otherChecks: bool)
    ensures var outcome := Approve(r, kind, id, reviewer, otherChecks);
            && (outcome == Raise(PermissionError) <==> !reviewer.active || !reviewer.admin)
            && (outcome.Raise? ==> outcome.error in {PermissionError, StateError})
  {
  }

  /** An approval publishes the record at the time of its publication event, keeps everything
      else, and logs the approval and the publication that it causes. */
  lemma ApprovalEffect(r: Registry, kind: Kind, id: RecordId, reviewer: Account, otherChecks: bool)
    requires Reachable(r) && Perform(r, DoApprove(kind, id, reviewer, otherChecks)).Ok?
    ensures var s, t := Step(r, DoApprove(kind, id, reviewer, otherChecks)), |r.events|;
            && s.histories == r.histories
            && s.records == r.records[id := r.records[id].(state := Published, publishedAt := Some(t + 1))]
            && Appended(r, s, [Entry(id, Approved, User(reviewer), None),
                               Entry(id, PublishedNow, User(reviewer), Some(t))])
  {
    ReachableInv(r);
    assert RecordOk(r, id);
    assert Appended(r, r, []);
    PublishIs(r, r, [], id, User(reviewer), None);
    assert [] + [Entry(id, Approved, User(reviewer), None), Entry(id, PublishedNow, User(reviewer), Some(|r.events|))]
        == [Entry(id, Approved, User(reviewer), None), Entry(id, PublishedNow, User(reviewer), Some(|r.events|))];
  }

  lemma PublishIs(r: Registry, m: Registry, entries: seq<Entry>, id: RecordId, actor: Actor, cause: Option<EventId>)
    requires Appended(r, m, entries) && Numbered(m.events) && id < |m.records|
    ensures var s, t := Publish(m, id, actor, cause), |m.events|;
            && s.histories == m.histories
            && s.records == m.records[id := m.records[id].(state := Published, publishedAt := Some(t + 1),
                                                           withdrawnAt := None)]
            && Appended(r, s, entries + [Entry(id, Approved, actor, cause), Entry(id, PublishedNow, actor, Some(t))])
  {
    var first, second := Entry(id, Approved, actor, cause), Entry(id, PublishedNow, actor, Some(|m.events|));
    LogAppends(r, m, entries, first);
    var m1 := Log(m, id, Approved, actor, cause);
    LogAppends(r, m1, entries + [first], second);
    assert entries + [first] + [second] == entries + [first, second];
    var m2 := Log(m1, id, PublishedNow, actor, Some(|m.events|));
    SameAppended(r, m2, Publish(m, id, actor, cause), entries + [first, second]);
  }

  // ---- creation ----

  lemma CreateCondition(r: Registry, kind: Kind, p: Payload, a: Account)
    requires Reachable(r)
    ensures var outcome := Perform(r, DoCreate(kind, p, a));
            var good := Acceptable(r, kind, p, false);
            && (outcome.Ok? <==> good && Free(r, kind, p.predecessor, None) && a.active)
            && (outcome == Raise(ValidationError) <==> !good)
            && (outcome == Raise(ValueError) <==> good && Free(r, kind, p.predecessor, None) && !a.active)
            && (outcome.Raise? ==> outcome.error != PermissionError)
  {
    ReachableInv(r);
    if p.predecessor.Some? && p.predecessor.value < |r.records| {
      assert RecordOk(r, p.predecessor.value);
    }
  }

  /** The entries of a new record `id`, the first at time `t`. */
  function Entries(id: RecordId, t: Time, follows: bool, again: bool, immediate: bool, a: Account): seq<Entry> {
    var submission := t + if follows then 1 else 0;
    (if follows then [Entry(id, RevisionCreated, User(a), None)] else [])
    + ([Entry(id, if again then Resubmitted else Submitted, User(a), None)]
       + if immediate then [Entry(id, Approved, Policy, Some(submission)),
                            Entry(id, PublishedNow, Policy, Some(submission + 1))]
         else [])
  }

  /** One record is added. A machine is published at once, by its last event; every other new
      record waits for review or, `again`, for reapproval. It joins the history of its
      predecessor or begins one of its own. */
  ghost predicate Added(r: Registry, s: Registry, kind: Kind, predecessor: Option<RecordId>,
                        refs: Option<References>, a: Account, again: bool) {
    && (predecessor.Some? ==> predecessor.value < |r.records|)
    && |s.records| == |r.records| + 1 && s.records[..|r.records|] == r.records
    && s.histories == r.histories + (if predecessor.Some? then [] else [kind])
    && var x := s.records[|r.records|];
       && x.kind == kind && x.predecessor == predecessor && x.refs == refs && x.submitter == a.id
       && x.history == (if predecessor.Some? then r.records[predecessor.value].history else |r.histories|)
       && x.withdrawnAt == None
       && (if again then x.state == PendingReapproval && x.publishedAt == None
           else if kind == Machine then x.state == Published && x.publishedAt == Some(|s.events| - 1)
           else x.state == PendingReview && x.publishedAt == None)
  }

  /** Creation adds the record, its history and its events, and changes nothing else. */
  lemma CreateEffect(r: Registry, kind: Kind, p: Payload, a: Account)
    requires Reachable(r) && Perform(r, DoCreate(kind, p, a)).Ok?
    ensures Added(r, Step(r, DoCreate(kind, p, a)), kind, p.predecessor, p.refs, a, false)
    ensures Appended(r, Step(r, DoCreate(kind, p, a)),
                     Entries(|r.records|, |r.events|, p.predecessor.Some?, false, kind == Machine, a))
  {
    ReachableInv(r);
    assert Appended(r, r, []);
    CreateIs(r, r, [], kind, p, a, false);
    var all := Entries(|r.records|, |r.events|, p.predecessor.Some?, false, kind == Machine, a);
    assert [] + all == all;
  }

  lemma CreateIs(r: Registry, m: Registry, entries: seq<Entry>, kind: Kind, p: Payload, a: Account, again: bool)
    requires Appended(r, m, entries) && Numbered(m.events) && Create(m, kind, p, a, again).Ok?
    ensures var s := Create(m, kind, p, a, again).registry;
            Added(m, s, kind, p.predecessor, p.refs, a, again)
            && Appended(r, s, entries + Entries(|m.records|, |m.events|, p.predecessor.Some?, again,
                                                kind == Machine && !again, a))
  {
    SubmitIs(r, m, entries, kind, p, a, again);
    CreateAdds(m, kind, p, a, again);
    if kind == Machine && !again {
      MachineIs(r, m, entries, p, a, Submit(m, kind, p, a, again));
    }
  }

  /** The events of a new machine, which is published at once. */
  lemma MachineIs(r: Registry, m: Registry, entries: seq<Entry>, p: Payload, a: Account, submitted: Registry)
    requires Numbered(submitted.events) && |submitted.records| == |m.records| + 1
    requires |submitted.events| == |m.events| + (if p.predecessor.Some? then 2 else 1)
    requires Appended(r, submitted,
                      entries + Entries(|m.records|, |m.events|, p.predecessor.Some?, false, false, a))
    ensures Appended(r, Publish(submitted, |m.records|, Policy, Some(|submitted.events| - 1)),
                     entries + Entries(|m.records|, |m.events|, p.predecessor.Some?, false, true, a))
  {
    var id, t := |m.records|, |submitted.events| - 1;
    var before := Entries(id, |m.events|, p.predecessor.Some?, false, false, a);
    PublishIs(r, submitted, entries + before, id, Policy, Some(t));
    var published := [Entry(id, Approved, Policy, Some(t)), Entry(id, PublishedNow, Policy, Some(t + 1))];
    assert before + published == Entries(id, |m.events|, p.predecessor.Some?, false, true, a);
    Associative(entries, before, published);
  }

  lemma CreateAdds(m: Registry, kind: Kind, p: Payload, a: Account, again: bool)
    requires Create(m, kind, p, a, again).Ok?
    ensures Added(m, Create(m, kind, p, a, again).registry, kind, p.predecessor, p.refs, a, again)
  {
    SubmitAdds(m, kind, p, a, again);
    var submitted := Submit(m, kind, p, a, again);
    if kind == Machine && !again {
      PublishSets(submitted, |m.records|, Policy, Some(|submitted.events| - 1));
    }
  }

  lemma SubmitAdds(m: Registry, kind: Kind, p: Payload, a: Account, again: bool)
    requires p.predecessor.Some? ==> p.predecessor.value < |m.records|
    ensures var s, x := Submit(m, kind, p, a, again), Submit(m, kind, p, a, again).records[|m.records|];
            && |s.records| == |m.records| + 1 && s.records[..|m.records|] == m.records
            && s.histories == m.histories + (if p.predecessor.Some? then [] else [kind])
            && x == Record(kind, if p.predecessor.Some? then m.records[p.predecessor.value].history else |m.histories|,
                           p.predecessor, p.refs, a.id, if again then PendingReapproval else PendingReview, None, None)
            && |s.events| > 0
  {
  }

  lemma PublishSets(m: Registry, id: RecordId, actor: Actor, cause: Option<EventId>)
    requires id < |m.records|
    ensures var s := Publish(m, id, actor, cause);
            && s.histories == m.histories && |s.events| == |m.events| + 2
            && s.records == m.records[id := m.records[id].(state := Published, publishedAt := Some(|m.events| + 1),
                                                           withdrawnAt := None)]
  {
  }

  lemma SubmitIs(r: Registry, m: Registry, entries: seq<Entry>, kind: Kind, p: Payload, a: Account, again: bool)
    requires Appended(r, m, entries) && Numbered(m.events)
    requires p.predecessor.Some? ==> p.predecessor.value < |m.records|
    ensures var s := Submit(m, kind, p, a, again);
            && Numbered(s.events)
            && |s.events| == |m.events| + (if p.predecessor.Some? then 2 else 1)
            && Appended(r, s, entries + Entries(|m.records|, |m.events|, p.predecessor.Some?, again, false, a))
  {
    var shared, id := p.predecessor.Some?, |m.records|;
    var history := if shared then m.records[p.predecessor.value].history else |m.histories|;
    var state := if again then PendingReapproval else PendingReview;
    var m0 := Registry(m.records + [Record(kind, history, p.predecessor, p.refs, a.id, state, None, None)],
                       if shared then m.histories else m.histories + [kind], m.events);
    SameAppended(r, m, m0, entries);
    SubmissionIs(r, m0, entries, id, shared, again, a);
  }

  /** The events of a submission. */
  lemma SubmissionIs(r: Registry, m: Registry, entries: seq<Entry>, id: RecordId, shared: bool, again: bool, a: Account)
    requires Appended(r, m, entries) && Numbered(m.events) && id < |m.records|
    ensures var m1 := if shared then Log(m, id, RevisionCreated, User(a), None) else m;
            var s := Log(m1, id, if again then Resubmitted else Submitted, User(a), None);
            Numbered(s.events) && Appended(r, s, entries + Entries(id, |m.events|, shared, again, false, a))
  {
    var revision := Entry(id, RevisionCreated, User(a), None);
    var submission := Entry(id, if again then Resubmitted else Submitted, User(a), None);
    if shared {
      LogAppends(r, m, entries, revision);
      LogAppends(r, Log(m, id, RevisionCreated, User(a), None), entries + [revision], submission);
      assert entries + [revision] + [submission] == entries + Entries(id, |m.events|, shared, again, false, a);
    } else {
      LogAppends(r, m, entries, submission);
      assert entries + [submission] == entries + Entries(id, |m.events|, shared, again, false, a);
    }
  }

  // ---- successor ----

  lemma SuccessorCondition(r: Registry, kind: Kind, source: RecordId, p: Payload, a: Account, withdraw: bool)
    requires Reachable(r)
    ensures var outcome := Perform(r, DoCreateSuccessor(kind, source, p, a, withdraw));
            var may := && a.active && Present(r, source, kind) && Owns(r, source, a)
                       && IsPublic(r.records[source].state) && Free(r, kind, Some(source), None)
                       && (withdraw ==> kind in {Decoder, Circuit} && r.records[source].state == Published);
            var good := p.valid && RefersWell(r, kind, p.refs);
            && (outcome.Ok? <==> may && good)
            && (outcome == Raise(PermissionError) <==> !a.active || (Present(r, source, kind) && !Owns(r, source, a)))
            && (outcome == Raise(ValidationError) <==> may && !good)
            && outcome != Raise(ValueError)
  {
    ReachableInv(r);
    if source < |r.records| {
      assert RecordOk(r, source);
      if a.active && Present(r, source, kind) && IsPublic(r.records[source].state)
         && Free(r, kind, Some(source), None) {
        CreateAfter(if withdraw then Retire(r, source, a) else r, kind, source, p, a);
      }
    }
  }

  /** Creating a successor of a public record: only the payload can be refused. */
  lemma CreateAfter(m: Registry, kind: Kind, source: RecordId, p: Payload, a: Account)
    requires Present(m, source, kind) && HistoryHasKind(m, source, kind) && IsPublic(m.records[source].state)
    requires a.active && Free(m, kind, Some(source), None)
    ensures var outcome := Create(m, kind, p.(predecessor := Some(source)), a, m.records[source].state == Withdrawn);
            if p.valid && RefersWell(m, kind, p.refs) then outcome.Ok? else outcome == Raise(ValidationError)
  {
  }

  /** The successor follows the source, which is withdrawn before it where asked for. */
  lemma SuccessorEffect(r: Registry, kind: Kind, source: RecordId, p: Payload, a: Account, withdraw: bool)
    requires Reachable(r) && Perform(r, DoCreateSuccessor(kind, source, p, a, withdraw)).Ok?
    ensures var s := Step(r, DoCreateSuccessor(kind, source, p, a, withdraw));
            var again := withdraw || r.records[source].state == Withdrawn;
            var first := if withdraw then [Entry(source, WithdrawnNow, User(a), None)] else [];
            var m := r.(records := if withdraw
                                   then r.records[source := r.records[source].(state := Withdrawn,
                                                                               withdrawnAt := Some(|r.events|))]
                                   else r.records);
            && Added(m, s, kind, Some(source), p.refs, a, again)
            && Appended(r, s, first + Entries(|r.records|, |r.events| + |first|, true, again,
                                              kind == Machine && !again, a))
  {
    ReachableInv(r);
    var again := withdraw || r.records[source].state == Withdrawn;
    assert Appended(r, r, []);
    if withdraw {
      RetireIs(r, source, a);
      CreateIs(r, Retire(r, source, a), [Entry(source, WithdrawnNow, User(a), None)], kind,
               p.(predecessor := Some(source)), a, again);
    } else {
      CreateIs(r, r, [], kind, p.(predecessor := Some(source)), a, again);
    }
  }
}
