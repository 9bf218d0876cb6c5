/** The invariant of the submission workflow and its preservation by every operation. */
module LifecycleInvariant {
  import opened Text
  import opened Lifecycle
  import opened LifecycleLog

  // ---- the invariant ----

  /** Kind, history, and which timestamps go with which state. */
  ghost predicate RecordOk(r: Registry, i: RecordId)
    requires i < |r.records|
  {
    var x := r.records[i];
    && x.history < |r.histories| && r.histories[x.history] == x.kind
    && (IsPending(x.state) ==> x.publishedAt.None? && x.withdrawnAt.None?)
    && (x.state == Published ==> x.publishedAt.Some? && x.withdrawnAt.None?)
    && (x.state == Withdrawn ==> x.publishedAt.Some? && x.withdrawnAt.Some?)
    && (x.publishedAt.Some? ==> x.publishedAt.value < |r.events|)
    && (x.withdrawnAt.Some? ==> x.withdrawnAt.value < |r.events|)
  }

  /** The predecessor is public, of the same kind, and was published first; a record that
      awaits reapproval shares the history of its withdrawn predecessor. */
  ghost predicate LineageOk(r: Registry, i: RecordId)
    requires i < |r.records|
  {
    var x := r.records[i];
    && (x.predecessor.Some? ==>
          var p := x.predecessor.value;
          && p < |r.records| && r.records[p].kind == x.kind && IsPublic(r.records[p].state)
          && (x.publishedAt.Some? && r.records[p].publishedAt.Some? ==>
                r.records[p].publishedAt.value < x.publishedAt.value))
    && (x.state == PendingReapproval ==>
          var p := x.predecessor;
          p.Some? && p.value < |r.records| && r.records[p.value].state == Withdrawn
          && r.records[p.value].history == x.history)
  }

  /** `d` was published before `t` and not withdrawn before `t`. */
  ghost predicate PublishedAtTime(r: Registry, d: RecordId, kind: Kind, t: Time) {
    && d < |r.records| && r.records[d].kind == kind
    && r.records[d].publishedAt.Some? && r.records[d].publishedAt.value < t
    && (r.records[d].withdrawnAt.Some? ==> t < r.records[d].withdrawnAt.value)
  }

  ghost predicate ProvenanceOk(r: Registry, i: RecordId)
    requires i < |r.records|
  {
    var x := r.records[i];
    && x.refs.Some? == (x.kind == Result)
    && (x.refs.Some? && x.publishedAt.Some? ==>
          var t := x.publishedAt.value;
          && PublishedAtTime(r, x.refs.value.decoder, Decoder, t)
          && PublishedAtTime(r, x.refs.value.circuit, Circuit, t)
          && PublishedAtTime(r, x.refs.value.machine, Machine, t))
  }

  /** No two records that are not machines share a predecessor. */
  ghost predicate SingleSuccessors(r: Registry) {
    forall i, j | 0 <= i < j < |r.records| && r.records[i].predecessor.Some? && r.records[i].kind != Machine ::
      r.records[i].predecessor != r.records[j].predecessor
  }

  /** Who approved, and what caused a publication. */
  ghost predicate EventOk(r: Registry, i: EventId)
    requires i < |r.events|
  {
    var e := r.events[i];
    && e.subject < |r.records| && e.history == r.records[e.subject].history
    && (e.action == PublishedNow ==>
          e.causedBy.Some? && e.causedBy.value < i
          && r.events[e.causedBy.value].action == Approved && r.events[e.causedBy.value].subject == e.subject)
    && (e.action == Approved ==>
          (match e.actor
           case User(a) => a.active && a.admin
           case Policy => r.records[e.subject].kind == Machine && !WasResubmitted(r.events, e.subject)))
  }

  ghost predicate RecordsOk(r: Registry) {
    && (forall i | 0 <= i < |r.records| :: RecordOk(r, i))
    && (forall i | 0 <= i < |r.records| :: LineageOk(r, i))
    && (forall i | 0 <= i < |r.records| :: ProvenanceOk(r, i))
    && SingleSuccessors(r)
  }

  /** Every record is in the state its own events give it. */
  ghost predicate StateIsLog(r: Registry) {
    forall i | 0 <= i < |r.records| :: Project(r.events, i) == StatusOf(r.records[i])
  }

  /** Machines publish immediately, so none awaits an ordinary review. */
  ghost predicate NoMachineInReview(r: Registry) {
    forall i | 0 <= i < |r.records| :: r.records[i].kind == Machine ==> r.records[i].state != PendingReview
  }

  /** What holds between the steps of one operation. */
  ghost predicate Core(r: Registry) {
    RecordsOk(r) && LogOk(r) && StateIsLog(r)
  }

  ghost predicate Inv(r: Registry) {
    Core(r) && NoMachineInReview(r)
  }

  // ---- appending one event ----

  ghost predicate LogOk(r: Registry) {
    Numbered(r.events) && forall i | 0 <= i < |r.events| :: EventOk(r, i)
  }

  /** An event that keeps the log in order keeps every earlier event in order. */
  lemma LogKeepsLog(r: Registry, id: RecordId, action: Action, actor: Actor, cause: Option<EventId>)
    requires LogOk(r) && id < |r.records|
    requires action == Resubmitted ==> forall i | 0 <= i < |r.events| :: r.events[i].subject != id
    requires EventOk(Log(r, id, action, actor, cause), |r.events|)
    ensures LogOk(Log(r, id, action, actor, cause))
  {
    var s := Log(r, id, action, actor, cause);
    AppendNumbered(r.events, s.events[|r.events|]);
    forall i | 0 <= i < |s.events| ensures EventOk(s, i) {
      if i < |r.events| {
        assert EventOk(r, i);
        assert s.events[i] == r.events[i];
        if WasResubmitted(s.events, r.events[i].subject) {
          var j :| 0 <= j < |s.events| && s.events[j].subject == r.events[i].subject
                   && s.events[j].action == Resubmitted;
          assert j < |r.events|;
        }
      }
    }
  }

  /** The log depends on the records only through kinds and histories. */
  lemma LogOkSameHistories(r: Registry, s: Registry)
    requires LogOk(r) && r.events == s.events && |r.records| <= |s.records|
    requires forall i | 0 <= i < |r.records| ::
               r.records[i].kind == s.records[i].kind && r.records[i].history == s.records[i].history
    ensures LogOk(s)
  {
    forall i | 0 <= i < |s.events| ensures EventOk(s, i) {
      assert EventOk(r, i);
    }
  }

  lemma ProjectLog(r: Registry, id: RecordId, action: Action, actor: Actor, cause: Option<EventId>, j: RecordId)
    requires id < |r.records|
    ensures var s := Log(r, id, action, actor, cause);
            Project(s.events, j)
            == if j == id then Advance(Project(r.events, j), s.events[|r.events|]) else Project(r.events, j)
  {
    ProjectAppend(r.events, Log(r, id, action, actor, cause).events[|r.events|], j);
  }

  // ---- submission ----

  ghost predicate MaySubmit(r: Registry, kind: Kind, p: Payload, reapproval: bool) {
    && FormValid(r, kind, p, reapproval) && LineageAvailable(r, kind, p, None)
    && (reapproval ==> p.predecessor.Some? && r.records[p.predecessor.value].state == Withdrawn)
  }

  lemma SubmitRecords(r: Registry, kind: Kind, p: Payload, a: Account, reapproval: bool)
    requires Core(r) && MaySubmit(r, kind, p, reapproval)
    ensures RecordsOk(Submit(r, kind, p, a, reapproval))
  {
    var s := Submit(r, kind, p, a, reapproval);
    var id := |r.records|;
    forall i | 0 <= i < |s.records| ensures RecordOk(s, i) && LineageOk(s, i) && ProvenanceOk(s, i) {
      if i < id {
        assert RecordOk(r, i) && LineageOk(r, i) && ProvenanceOk(r, i);
        assert s.records[i] == r.records[i];
      } else if p.predecessor.Some? {
        assert RecordOk(r, p.predecessor.value);
      }
    }
    forall i, j | 0 <= i < j < |s.records| && s.records[i].predecessor.Some? && s.records[i].kind != Machine
      ensures s.records[i].predecessor != s.records[j].predecessor
    {
      assert LineageOk(r, i);
    }
  }

  lemma SubmitLog(r: Registry, kind: Kind, p: Payload, a: Account, reapproval: bool)
    requires Core(r) && MaySubmit(r, kind, p, reapproval)
    ensures LogOk(Submit(r, kind, p, a, reapproval)) && StateIsLog(Submit(r, kind, p, a, reapproval))
    ensures !reapproval ==> !WasResubmitted(Submit(r, kind, p, a, reapproval).events, |r.records|)
  {
    var s := Submit(r, kind, p, a, reapproval);
    var id := |r.records|;
    var r0 := Registry(s.records, s.histories, r.events);
    LogOkSameHistories(r, r0);
    forall i | 0 <= i < |r.events| ensures r.events[i].subject < id {
      assert EventOk(r, i);
    }
    ProjectAbsent(r.events, id);
    var action := if reapproval then Resubmitted else Submitted;
    var r1 := r0;
    if p.predecessor.Some? {
      r1 := Log(r0, id, RevisionCreated, User(a), None);
      LogKeepsLogUnless(r0, id, RevisionCreated, User(a), None);
    }
    FreshSubmission(r1, id, action, a);
    forall i | 0 <= i < |s.records| ensures Project(s.events, i) == StatusOf(s.records[i]) {
      if p.predecessor.Some? {
        ProjectLog(r0, id, RevisionCreated, User(a), None, i);
      }
      ProjectLog(r1, id, action, User(a), None, i);
      if i < id {
        assert s.records[i] == r.records[i];
      }
    }
  }

  /** Events other than approvals, publications and resubmissions need no cause. */
  lemma LogKeepsLogUnless(r: Registry, id: RecordId, action: Action, actor: Actor, cause: Option<EventId>)
    requires LogOk(r) && id < |r.records|
    requires action != Resubmitted && action != Approved && action != PublishedNow
    ensures LogOk(Log(r, id, action, actor, cause))
  {
    LogKeepsLog(r, id, action, actor, cause);
  }

  lemma FreshSubmission(r: Registry, id: RecordId, action: Action, a: Account)
    requires LogOk(r) && id < |r.records| && (action == Submitted || action == Resubmitted)
    requires forall i | 0 <= i < |r.events| :: r.events[i].subject == id ==> r.events[i].action == RevisionCreated
    ensures LogOk(Log(r, id, action, User(a), None))
    ensures action == Submitted ==> !WasResubmitted(Log(r, id, action, User(a), None).events, id)
  {
    var s := Log(r, id, action, User(a), None);
    AppendNumbered(r.events, s.events[|r.events|]);
    forall i | 0 <= i < |s.events| ensures EventOk(s, i) {
      if i < |r.events| {
        assert EventOk(r, i);
        assert s.events[i] == r.events[i];
        if WasResubmitted(s.events, r.events[i].subject) && r.events[i].subject != id {
          var j :| 0 <= j < |s.events| && s.events[j].subject == r.events[i].subject
                   && s.events[j].action == Resubmitted;
          assert r.events[j] == s.events[j];
        }
      }
    }
  }

  // ---- publication ----

  ghost predicate MayPublish(r: Registry, id: RecordId, actor: Actor) {
    && id < |r.records| && IsPending(r.records[id].state)
    && (r.records[id].kind == Result ==> r.records[id].refs.Some? && ReferencesPublished(r, r.records[id].refs.value))
    && (match actor
        case User(a) => a.active && a.admin
        case Policy => r.records[id].kind == Machine && !WasResubmitted(r.events, id))
  }

  lemma PublishRecords(r: Registry, id: RecordId, actor: Actor, cause: Option<EventId>)
    requires Core(r) && MayPublish(r, id, actor)
    ensures RecordsOk(Publish(r, id, actor, cause))
  {
    var s := Publish(r, id, actor, cause);
    forall i | 0 <= i < |s.records| ensures RecordOk(s, i) && LineageOk(s, i) && ProvenanceOk(s, i) {
      assert RecordOk(r, i) && LineageOk(r, i) && ProvenanceOk(r, i);
      var x := r.records[i];
      if x.predecessor.Some? {
        assert RecordOk(r, x.predecessor.value);
      }
      if i == id && x.refs.Some? {
        assert RecordOk(r, x.refs.value.decoder) && RecordOk(r, x.refs.value.circuit)
               && RecordOk(r, x.refs.value.machine);
      }
      assert RecordOk(r, id);
    }
  }

  lemma PublishLog(r: Registry, id: RecordId, actor: Actor, cause: Option<EventId>)
    requires Core(r) && MayPublish(r, id, actor)
    ensures LogOk(Publish(r, id, actor, cause)) && StateIsLog(Publish(r, id, actor, cause))
  {
    var approval := |r.events|;
    var r1 := Log(r, id, Approved, actor, cause);
    NoNewResubmission(r, id, Approved, actor, cause);
    LogKeepsLog(r, id, Approved, actor, cause);
    var r2 := Log(r1, id, PublishedNow, actor, Some(approval));
    LogKeepsLog(r1, id, PublishedNow, actor, Some(approval));
    var s := Publish(r, id, actor, cause);
    LogOkSameHistories(r2, s);
    forall i | 0 <= i < |s.records| ensures Project(s.events, i) == StatusOf(s.records[i]) {
      ProjectLog(r, id, Approved, actor, cause, i);
      ProjectLog(r1, id, PublishedNow, actor, Some(approval), i);
    }
  }

  lemma NoNewResubmission(r: Registry, id: RecordId, action: Action, actor: Actor, cause: Option<EventId>)
    requires id < |r.records| && action != Resubmitted
    ensures WasResubmitted(Log(r, id, action, actor, cause).events, id) ==> WasResubmitted(r.events, id)
  {
    var s := Log(r, id, action, actor, cause);
    if WasResubmitted(s.events, id) {
      var j :| 0 <= j < |s.events| && s.events[j].subject == id && s.events[j].action == Resubmitted;
      assert r.events[j] == s.events[j];
    }
  }

  lemma PublishKeepsCore(r: Registry, id: RecordId, actor: Actor, cause: Option<EventId>)
    requires Core(r) && MayPublish(r, id, actor)
    ensures Core(Publish(r, id, actor, cause))
  {
    PublishRecords(r, id, actor, cause);
    PublishLog(r, id, actor, cause);
  }

  // ---- withdrawal and editing ----

  lemma RetireKeepsCore(r: Registry, id: RecordId, a: Account)
    requires Core(r) && id < |r.records| && r.records[id].state == Published
    ensures Core(Retire(r, id, a))
  {
    var s := Retire(r, id, a);
    var r1 := Log(r, id, WithdrawnNow, User(a), None);
    LogKeepsLogUnless(r, id, WithdrawnNow, User(a), None);
    LogOkSameHistories(r1, s);
    forall i | 0 <= i < |s.records|
      ensures RecordOk(s, i) && LineageOk(s, i) && ProvenanceOk(s, i)
      ensures Project(s.events, i) == StatusOf(s.records[i])
    {
      assert RecordOk(r, i) && LineageOk(r, i) && ProvenanceOk(r, i);
      assert RecordOk(r, id);
      ProjectLog(r, id, WithdrawnNow, User(a), None, i);
    }
  }

  ghost predicate MayEdit(r: Registry, id: RecordId, p: Payload) {
    && id < |r.records| && IsPending(r.records[id].state)
    && FormValid(r, r.records[id].kind, p, r.records[id].state == PendingReapproval)
    && LineageAvailable(r, r.records[id].kind, p, Some(id))
    && (r.records[id].state == PendingReapproval ==> p.predecessor == r.records[id].predecessor)
  }

  lemma EditKeepsCore(r: Registry, id: RecordId, p: Payload, a: Account)
    requires Core(r) && MayEdit(r, id, p)
    ensures Core(Edit(r, id, p, a))
  {
    var r1 := SetRecord(r, id, r.records[id].(predecessor := p.predecessor, refs := p.refs));
    var s := Edit(r, id, p, a);
    LogOkSameHistories(r, r1);
    LogKeepsLogUnless(r1, id, Edited, User(a), None);
    forall i | 0 <= i < |s.records|
      ensures RecordOk(s, i) && LineageOk(s, i) && ProvenanceOk(s, i)
      ensures Project(s.events, i) == StatusOf(s.records[i])
    {
      assert RecordOk(r, i) && LineageOk(r, i) && ProvenanceOk(r, i);
      assert RecordOk(r, id);
      ProjectLog(r1, id, Edited, User(a), None, i);
    }
    EditKeepsSingleSuccessors(r, id, p, a);
  }

  lemma EditKeepsSingleSuccessors(r: Registry, id: RecordId, p: Payload, a: Account)
    requires Core(r) && MayEdit(r, id, p)
    ensures SingleSuccessors(Edit(r, id, p, a))
  {
    var s := Edit(r, id, p, a);
    forall i, j | 0 <= i < j < |s.records| && s.records[i].predecessor.Some? && s.records[i].kind != Machine
      ensures s.records[i].predecessor != s.records[j].predecessor
    {
      assert LineageOk(r, i) && LineageOk(r, j);
    }
  }

  // ---- the operations ----

  lemma CreateKeepsInv(r: Registry, kind: Kind, p: Payload, a: Account, reapproval: bool)
    requires Inv(r) && Create(r, kind, p, a, reapproval).Ok?
    requires reapproval ==> p.predecessor.Some? && r.records[p.predecessor.value].state == Withdrawn
    ensures Inv(Create(r, kind, p, a, reapproval).registry)
  {
    var submitted := Submit(r, kind, p, a, reapproval);
    SubmitRecords(r, kind, p, a, reapproval);
    SubmitLog(r, kind, p, a, reapproval);
    var s := Create(r, kind, p, a, reapproval).registry;
    if !RequiresReview(kind, reapproval) {
      PublishKeepsCore(submitted, |r.records|, Policy, Some(|submitted.events| - 1));
    }
    forall i | 0 <= i < |s.records| && s.records[i].kind == Machine ensures s.records[i].state != PendingReview {
      if i < |r.records| {
        assert s.records[i] == r.records[i];
      }
    }
  }

  lemma SuccessorKeepsInv(r: Registry, kind: Kind, id: RecordId, p: Payload, a: Account, withdraw: bool)
    requires Inv(r) && CreateSuccessor(r, kind, id, p, a, withdraw).Ok?
    ensures Inv(CreateSuccessor(r, kind, id, p, a, withdraw).registry)
  {
    if withdraw {
      RetireKeepsCore(r, id, a);
    }
    var r1 := if withdraw then Retire(r, id, a) else r;
    CreateKeepsInv(r1, kind, p.(predecessor := Some(id)), a, r1.records[id].state == Withdrawn);
  }

  /** Every operation keeps the invariant. */
  lemma StepKeepsInv(r: Registry, op: Operation)
    requires Inv(r)
    ensures Inv(Step(r, op))
  {
    if Perform(r, op).Ok? {
      match op
      case DoCreate(kind, p, a) => CreateKeepsInv(r, kind, p, a, false);
      case DoUpdate(kind, id, p, a) => EditKeepsCore(r, id, KeepLineage(r.records[id], p), a);
      case DoCreateSuccessor(kind, id, p, a, withdraw) =>
        SuccessorKeepsInv(r, kind, id, p, a, withdraw);
      case DoWithdraw(kind, id, a) => RetireKeepsCore(r, id, a);
      case DoApprove(kind, id, a, checks) => PublishKeepsCore(r, id, User(a), None);
    }
  }

  lemma {:induction false} RunKeepsInv(r: Registry, ops: seq<Operation>)
    requires Inv(r)
    ensures Inv(Run(r, ops))
    decreases |ops|
  {
    if ops != [] {
      StepKeepsInv(r, ops[0]);
      RunKeepsInv(Step(r, ops[0]), ops[1..]);
    }
  }

  /** The invariant holds in every registry that operations can produce. */
  lemma ReachableInv(r: Registry)
    requires Reachable(r)
    ensures Inv(r)
  {
    var ops :| r == Run(EMPTY, ops);
    RunKeepsInv(EMPTY, ops);
  }
}
