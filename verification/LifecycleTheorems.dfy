/** What the workflow guarantees over every run. */
module LifecycleTheorems {
  import opened Text
  import opened Lifecycle
  import opened LifecycleLog
  import opened LifecycleInvariant

  // ---- state and log ----

  /** The lifecycle constraint on state and timestamps. */
  predicate TimestampsFit(x: Record) {
    match x.state
    case Published => x.publishedAt.Some? && x.withdrawnAt.None?
    case Withdrawn => x.publishedAt.Some? && x.withdrawnAt.Some?
    case _ => x.publishedAt.None? && x.withdrawnAt.None?
  }

  /** In every reachable registry each record's state and timestamps are the projection of
      its own events, and satisfy the lifecycle constraint; the numbers of every history are
      exactly 1 to n; and every publication is caused by an earlier approval of the same
      record in the same history. */
  lemma StateEqualsLog(r: Registry)
    requires Reachable(r)
    ensures forall i | 0 <= i < |r.records| ::
              Project(r.events, i) == StatusOf(r.records[i]) && TimestampsFit(r.records[i])
    ensures forall h: HistoryId, k: nat :: HasNumber(r.events, h, k) <==> 1 <= k <= Count(r.events, h)
    ensures forall h: HistoryId :: NumbersDistinct(r.events, h)
    ensures forall i | 0 <= i < |r.events| && r.events[i].action == PublishedNow :: CausedByApproval(r.events, i)
  {
    ReachableInv(r);
    forall i | 0 <= i < |r.records| ensures TimestampsFit(r.records[i]) {
      assert RecordOk(r, i);
    }
    forall h: HistoryId, k: nat ensures HasNumber(r.events, h, k) <==> 1 <= k <= Count(r.events, h) {
      ExactlyOneToN(r.events, h, k);
    }
    forall h: HistoryId ensures NumbersDistinct(r.events, h) {
      ExactlyOneToN(r.events, h, 1);
    }
    forall i | 0 <= i < |r.events| && r.events[i].action == PublishedNow
      ensures CausedByApproval(r.events, i)
    {
      assert EventOk(r, i);
      var c := r.events[i].causedBy.value;
      assert EventOk(r, c);
      SequencesIncrease(r.events, c, i);
    }
  }

  predicate CausedByApproval(events: seq<Event>, i: EventId)
    requires i < |events|
  {
    var c := events[i].causedBy;
    && c.Some? && c.value < i && events[c.value].action == Approved
    && events[c.value].subject == events[i].subject
    && events[c.value].history == events[i].history
    && events[c.value].sequence < events[i].sequence
  }

  // ---- provenance ----

  /** The log before time `t` says that `d` is a published record of this kind. */
  ghost predicate PublishedBefore(r: Registry, d: RecordId, kind: Kind, t: Time) {
    && d < |r.records| && r.records[d].kind == kind && t <= |r.events|
    && Project(r.events[..t], d).Live? && Project(r.events[..t], d).state == Published
  }

  /** At the moment a result was published, its decoder, circuit and machine were published,
      whatever happened to them afterwards and however the result was edited before. */
  lemma ProvenanceAtPublication(r: Registry, i: RecordId)
    requires Reachable(r) && i < |r.records| && r.records[i].kind == Result && IsPublic(r.records[i].state)
    ensures r.records[i].refs.Some? && r.records[i].publishedAt.Some?
    ensures var t, refs := r.records[i].publishedAt.value, r.records[i].refs.value;
            && PublishedBefore(r, refs.decoder, Decoder, t)
            && PublishedBefore(r, refs.circuit, Circuit, t)
            && PublishedBefore(r, refs.machine, Machine, t)
            && t < |r.events| && r.events[t].action == PublishedNow && r.events[t].subject == i
  {
    ReachableInv(r);
    assert RecordOk(r, i) && ProvenanceOk(r, i);
    var t, refs := r.records[i].publishedAt.value, r.records[i].refs.value;
    PublishedInLog(r, refs.decoder, Decoder, t);
    PublishedInLog(r, refs.circuit, Circuit, t);
    PublishedInLog(r, refs.machine, Machine, t);
    PublicationEvent(r.events, i);
  }

  lemma PublishedInLog(r: Registry, d: RecordId, kind: Kind, t: Time)
    requires Inv(r) && PublishedAtTime(r, d, kind, t) && t <= |r.events|
    ensures PublishedBefore(r, d, kind, t)
  {
    assert RecordOk(r, d);
    StateInThePast(r.events, d, t);
  }

  /** The publication time of a public record is that of its publication event. */
  lemma {:induction false} PublicationEvent(events: seq<Event>, id: RecordId)
    requires Numbered(events) && Project(events, id).Live? && Project(events, id).publishedAt.Some?
    ensures var t := Project(events, id).publishedAt.value;
            t < |events| && events[t].action == PublishedNow && events[t].subject == id
  {
    var n := |events| - 1;
    var before := events[..n];
    assert NumberedAt(events, n);
    if !(events[n].subject == id && events[n].action == PublishedNow) {
      forall j | 0 <= j < |before| ensures NumberedAt(before, j) {
        assert NumberedAt(events, j);
        assert before[..j] == events[..j];
      }
      PublicationEvent(before, id);
    }
  }

  // ---- lineage ----

  /** The `n`-th predecessor. */
  function Ancestor(r: Registry, x: RecordId, n: nat): (a: Option<RecordId>)
    ensures a.Some? ==> a.value < |r.records|
    decreases n
  {
    if x >= |r.records| then None
    else if n == 0 then Some(x)
    else match r.records[x].predecessor
         case None => None
         case Some(p) => Ancestor(r, p, n - 1)
  }

  /** `y` is public, of the same kind as `x`, and was published before `x` if `x` was. */
  predicate EarlierRelease(r: Registry, y: RecordId, x: RecordId)
    requires x < |r.records| && y < |r.records|
  {
    && IsPublic(r.records[y].state) && r.records[y].kind == r.records[x].kind && r.records[y].publishedAt.Some?
    && (r.records[x].publishedAt.Some? ==> r.records[y].publishedAt.value < r.records[x].publishedAt.value)
    && (IsPublic(r.records[x].state) ==> r.records[x].publishedAt.Some?)
  }

  lemma {:induction false} AncestorsArePublic(r: Registry, x: RecordId, n: nat)
    requires Inv(r) && n > 0 && Ancestor(r, x, n).Some?
    ensures EarlierRelease(r, Ancestor(r, x, n).value, x)
    decreases n
  {
    var p := r.records[x].predecessor.value;
    assert LineageOk(r, x) && RecordOk(r, x) && RecordOk(r, p);
    if n > 1 {
      AncestorsArePublic(r, p, n - 1);
    }
  }

  /** Lineage is a forest: every proper ancestor is public and was released earlier, so no
      record is its own ancestor, and only machines can have two successors. */
  lemma LineageIsForest(r: Registry)
    requires Reachable(r)
    ensures forall x: RecordId, n: nat | 0 < n && Ancestor(r, x, n).Some? ::
              Ancestor(r, x, n) != Some(x) && EarlierRelease(r, Ancestor(r, x, n).value, x)
    ensures SingleSuccessors(r)
  {
    ReachableInv(r);
    forall x: RecordId, n: nat | 0 < n && Ancestor(r, x, n).Some?
      ensures Ancestor(r, x, n) != Some(x) && EarlierRelease(r, Ancestor(r, x, n).value, x)
    {
      AncestorsArePublic(r, x, n);
    }
  }

  /** Approval in a reachable registry depends on the reviewer, on the record being pending,
      on a result's references being published and on the remaining checks, and on nothing
      else: the checks on the predecessor and on unreviewed machines never fail. */
  lemma ApprovalCondition(r: Registry, kind: Kind, id: RecordId, reviewer: Account, otherChecks: bool)
    requires Reachable(r)
    ensures Approve(r, kind, id, reviewer, otherChecks).Ok?
            <==> reviewer.active && reviewer.admin && id < |r.records| && r.records[id].kind == kind
                 && IsPending(r.records[id].state) && otherChecks
                 && (kind == Result ==> r.records[id].refs.Some? && ReferencesPublished(r, r.records[id].refs.value))
  {
    ReachableInv(r);
    if id < |r.records| {
      assert LineageOk(r, id);
    }
  }

  /** The kind of a predecessor's history always matches, so that check never raises. */
  lemma HistoryKindsAgree(r: Registry, kind: Kind, p: Payload, withdrawnToo: bool)
    requires Reachable(r) && FormValid(r, kind, p, withdrawnToo) && p.predecessor.Some?
    ensures HistoryHasKind(r, p.predecessor.value, kind)
  {
    ReachableInv(r);
    assert RecordOk(r, p.predecessor.value);
  }

  // ---- reapproval ----

  /** `current_publication_approval`: the cause of the latest publication. */
  function CurrentApproval(events: seq<Event>, id: RecordId): Option<EventId> {
    if events == [] then None
    else
      var e := events[|events| - 1];
      if e.subject == id && e.action == PublishedNow then e.causedBy else CurrentApproval(events[..|events| - 1], id)
  }

  predicate Publishes(e: Event, id: RecordId) {
    e.subject == id && e.action == PublishedNow
  }

  /** The event at `i` is the publication of the record with the highest sequence. */
  ghost predicate LatestPublication(events: seq<Event>, id: RecordId, i: EventId) {
    && i < |events| && Publishes(events[i], id)
    && forall j | 0 <= j < |events| && j != i && Publishes(events[j], id) ::
         j < i && events[j].sequence < events[i].sequence
  }

  lemma {:induction false} LastPublication(events: seq<Event>, id: RecordId) returns (i: EventId)
    requires Project(events, id).Live? && IsPublic(Project(events, id).state)
    ensures i < |events| && Publishes(events[i], id) && events[i].causedBy == CurrentApproval(events, id)
    ensures forall j | i < j < |events| :: !Publishes(events[j], id)
  {
    i := |events| - 1;
    if !Publishes(events[i], id) {
      var before := events[..i];
      i := LastPublication(before, id);
      assert events[i] == before[i];
      assert forall j | 0 <= j < |before| :: events[j] == before[j];
    }
  }

  /** The current approval of a public record is the cause of its latest publication. */
  lemma CurrentApprovalIsCause(r: Registry, id: RecordId) returns (i: EventId)
    requires Reachable(r) && id < |r.records| && IsPublic(r.records[id].state)
    ensures LatestPublication(r.events, id, i) && r.events[i].causedBy == CurrentApproval(r.events, id)
  {
    ReachableInv(r);
    assert RecordOk(r, id);
    i := LastPublication(r.events, id);
    assert EventOk(r, i);
    forall j | 0 <= j < |r.events| && j != i && Publishes(r.events[j], id)
      ensures j < i && r.events[j].sequence < r.events[i].sequence
    {
      assert EventOk(r, j);
      SequencesIncrease(r.events, j, i);
    }
  }

  /** Records keep their kind and history, and the log only grows. */
  ghost predicate Extends(r: Registry, s: Registry) {
    && |r.records| <= |s.records| && |r.events| <= |s.events|
    && (forall i | 0 <= i < |r.records| ::
          s.records[i].history == r.records[i].history && s.records[i].kind == r.records[i].kind)
    && (forall i | 0 <= i < |r.events| :: s.events[i] == r.events[i])
  }

  ghost predicate SamePredecessors(r: Registry, s: Registry) {
    |r.records| <= |s.records|
    && forall i | 0 <= i < |r.records| :: s.records[i].predecessor == r.records[i].predecessor
  }

  lemma CreateExtends(r: Registry, kind: Kind, p: Payload, a: Account, reapproval: bool)
    requires Create(r, kind, p, a, reapproval).Ok?
    ensures var s := Create(r, kind, p, a, reapproval).registry; Extends(r, s) && SamePredecessors(r, s)
  {
    var submitted := Submit(r, kind, p, a, reapproval);
    SubmitExtends(r, kind, p, a, reapproval);
    if !RequiresReview(kind, reapproval) {
      PublishExtends(submitted, |r.records|, Policy, Some(|submitted.events| - 1));
    }
  }

  lemma SubmitExtends(r: Registry, kind: Kind, p: Payload, a: Account, reapproval: bool)
    requires p.predecessor.Some? ==> p.predecessor.value < |r.records|
    ensures var s := Submit(r, kind, p, a, reapproval); Extends(r, s) && SamePredecessors(r, s)
  {
  }

  lemma PublishExtends(r: Registry, id: RecordId, actor: Actor, cause: Option<EventId>)
    requires id < |r.records|
    ensures var s := Publish(r, id, actor, cause); Extends(r, s) && SamePredecessors(r, s)
  {
  }

  /** Only an edit changes a predecessor, and only of the record it edits. */
  lemma SuccessorExtends(r: Registry, kind: Kind, id: RecordId, p: Payload, a: Account, withdraw: bool)
    requires CreateSuccessor(r, kind, id, p, a, withdraw).Ok?
    ensures var s := CreateSuccessor(r, kind, id, p, a, withdraw).registry; Extends(r, s) && SamePredecessors(r, s)
  {
    var r1 := if withdraw then Retire(r, id, a) else r;
    assert Extends(r, r1) && SamePredecessors(r, r1);
    CreateExtends(r1, kind, p.(predecessor := Some(id)), a, r1.records[id].state == Withdrawn);
  }

  lemma StepExtends(r: Registry, op: Operation)
    ensures Extends(r, Step(r, op))
    ensures op.DoUpdate? || SamePredecessors(r, Step(r, op))
  {
    if Perform(r, op).Ok? {
      match op
      case DoCreate(kind, p, a) => CreateExtends(r, kind, p, a, false);
      case DoUpdate(kind, id, p, a) =>
      case DoCreateSuccessor(kind, id, p, a, withdraw) =>
        SuccessorExtends(r, kind, id, p, a, withdraw);
      case DoWithdraw(kind, id, a) =>
      case DoApprove(kind, id, a, checks) => PublishExtends(r, id, User(a), None);
    }
  }

  /** Each operation keeps the lineage of every record that was submitted for reapproval. */
  lemma StepKeepsReapproval(r: Registry, op: Operation, id: RecordId)
    requires Inv(r) && id < |r.records| && WasResubmitted(r.events, id)
    ensures var s := Step(r, op);
            && id < |s.records| && WasResubmitted(s.events, id)
            && s.records[id].predecessor == r.records[id].predecessor
            && s.records[id].history == r.records[id].history && s.records[id].kind == r.records[id].kind
  {
    PendingKindFromLog(r.events, id);
    assert Project(r.events, id) == StatusOf(r.records[id]);
    StepExtends(r, op);
    var s := Step(r, op);
    var i :| 0 <= i < |r.events| && r.events[i].subject == id && r.events[i].action == Resubmitted;
    assert s.events[i] == r.events[i];
  }

  lemma {:induction false} RunKeepsReapproval(r: Registry, ops: seq<Operation>, id: RecordId)
    requires Inv(r) && id < |r.records| && WasResubmitted(r.events, id)
    ensures var s := Run(r, ops);
            && id < |s.records| && WasResubmitted(s.events, id)
            && s.records[id].predecessor == r.records[id].predecessor
            && s.records[id].history == r.records[id].history && s.records[id].kind == r.records[id].kind
    decreases |ops|
  {
    if ops != [] {
      StepKeepsInv(r, ops[0]);
      StepKeepsReapproval(r, ops[0], id);
      RunKeepsReapproval(Step(r, ops[0]), ops[1..], id);
    }
  }

  /** A record that awaits reapproval keeps its withdrawn predecessor and that
      predecessor's history through every further run, and when it is public, the approval
      behind its publication is by an active admin account. */
  lemma ReapprovalDiscipline(r: Registry, ops: seq<Operation>, id: RecordId)
    requires Reachable(r) && id < |r.records| && r.records[id].state == PendingReapproval
    ensures var s := Run(r, ops);
            && id < |s.records| && s.records[id].predecessor == r.records[id].predecessor
            && s.records[id].history == r.records[id].history
            && s.records[id].predecessor.Some? && s.records[id].predecessor.value < |s.records|
            && s.records[s.records[id].predecessor.value].history == s.records[id].history
            && (IsPublic(s.records[id].state) ==>
                  var c := CurrentApproval(s.events, id);
                  && c.Some? && c.value < |s.events|
                  && s.events[c.value].action == Approved && s.events[c.value].subject == id
                  && s.events[c.value].actor.User?
                  && s.events[c.value].actor.account.active && s.events[c.value].actor.account.admin)
  {
    ReachableInv(r);
    assert LineageOk(r, id);
    PendingKindFromLog(r.events, id);
    RunKeepsReapproval(r, ops, id);
    RunKeepsHistories(r, ops);
    RunKeepsInv(r, ops);
    var s := Run(r, ops);
    if IsPublic(s.records[id].state) {
      assert RecordOk(s, id);
      var i := LastPublication(s.events, id);
      assert EventOk(s, i);
      assert EventOk(s, s.events[i].causedBy.value);
    }
  }

  /** Records are never removed and never change their history. */
  lemma {:induction false} RunKeepsHistories(r: Registry, ops: seq<Operation>)
    ensures |r.records| <= |Run(r, ops).records|
    ensures forall i | 0 <= i < |r.records| ::
              Run(r, ops).records[i].history == r.records[i].history && Run(r, ops).records[i].kind == r.records[i].kind
    decreases |ops|
  {
    if ops != [] {
      StepExtends(r, ops[0]);
      RunKeepsHistories(Step(r, ops[0]), ops[1..]);
    }
  }

  // ---- who may change what ----

  function AccountOf(op: Operation): Account {
    op.account
  }

  /** A record changes only by an active account that is its submitter or an admin. Pending
      records are edited, or published by an admin with their lineage and references as they
      are; published records are only withdrawn; withdrawn records never change. */
  predicate AllowedChange(before: Record, after: Record, a: Account) {
    && a.active && (a.admin || a.id == before.submitter)
    && after.kind == before.kind && after.history == before.history && after.submitter == before.submitter
    && match before.state
       case Withdrawn => false
       case Published =>
         after.withdrawnAt.Some? && after == before.(state := Withdrawn, withdrawnAt := after.withdrawnAt)
       case _ =>
         || after == before.(predecessor := after.predecessor, refs := after.refs)
         || (a.admin && after.publishedAt.Some?
             && after == before.(state := Published, publishedAt := after.publishedAt, withdrawnAt := None))
  }

  lemma ChangesAreAllowed(r: Registry, op: Operation, i: RecordId)
    requires i < |r.records|
    ensures i < |Step(r, op).records|
    ensures Step(r, op).records[i] == r.records[i] || AllowedChange(r.records[i], Step(r, op).records[i], AccountOf(op))
  {
    if Perform(r, op).Ok? {
      match op
      case DoCreate(kind, p, a) => CreateKeepsRecords(r, kind, p, a, false);
      case DoCreateSuccessor(kind, id, p, a, withdraw) =>
        var r1 := if withdraw then Retire(r, id, a) else r;
        CreateKeepsRecords(r1, kind, p.(predecessor := Some(id)), a, r1.records[id].state == Withdrawn);
      case _ =>
    }
  }

  /** Creating a record leaves all others as they are. */
  lemma CreateKeepsRecords(r: Registry, kind: Kind, p: Payload, a: Account, reapproval: bool)
    requires Create(r, kind, p, a, reapproval).Ok?
    ensures var s := Create(r, kind, p, a, reapproval).registry;
            |s.records| == |r.records| + 1 && forall i | 0 <= i < |r.records| :: s.records[i] == r.records[i]
  {
  }

  /** Replacing a revision either raises and changes nothing, or leaves the source withdrawn
      and a new candidate for reapproval after it; every other record is untouched. */
  lemma ReplacementIsAtomic(r: Registry, kind: Kind, source: RecordId, p: Payload, a: Account)
    ensures var op := DoCreateSuccessor(kind, source, p, a, true);
            var s := Step(r, op);
            if Perform(r, op).Raise? then s == r
            else && (kind == Decoder || kind == Circuit)
                 && |s.records| == |r.records| + 1 && source < |r.records|
                 && r.records[source].state == Published && s.records[source].state == Withdrawn
                 && s.records[|r.records|].state == PendingReapproval
                 && s.records[|r.records|].predecessor == Some(source)
                 && s.records[|r.records|].history == r.records[source].history
                 && forall i | 0 <= i < |r.records| && i != source :: s.records[i] == r.records[i]
  {
  }

  // ---- what is not guaranteed ----

  /** Editing an ordinary candidate moves it to a new predecessor but not to that
      predecessor's history: the two histories agree afterwards exactly when they already
      did. */
  lemma EditCanLeaveHistory(r: Registry, kind: Kind, id: RecordId, p: Payload, a: Account)
    requires Update(r, kind, id, p, a).Ok? && r.records[id].state == PendingReview
    requires p.predecessor.Some?
    ensures var s := Update(r, kind, id, p, a).registry;
            && s.records[id].predecessor == p.predecessor
            && (s.records[id].history == s.records[p.predecessor.value].history
                <==> r.records[id].history == r.records[p.predecessor.value].history)
  {
  }

  lemma {:induction false} RunAppend(r: Registry, ops: seq<Operation>, op: Operation)
    ensures Run(r, ops + [op]) == Step(Run(r, ops), op)
    decreases |ops|
  {
    if ops == [] {
      assert [] + [op] == [op] && [op][1..] == [];
      assert Run(r, [op]) == Run(Step(r, op), []);
    } else {
      assert (ops + [op])[0] == ops[0] && (ops + [op])[1..] == ops[1..] + [op];
      RunAppend(Step(r, ops[0]), ops[1..], op);
    }
  }

  lemma ReachableStep(r: Registry, op: Operation)
    requires Reachable(r)
    ensures Reachable(Step(r, op))
  {
    var ops :| r == Run(EMPTY, ops);
    RunAppend(EMPTY, ops, op);
  }

  /** A decoder without a predecessor is created and approved. */
  lemma NewDecoder(r: Registry, a: Account) returns (s: Registry)
    requires Reachable(r) && a.active && a.admin
    ensures Reachable(s) && |s.records| == |r.records| + 1 && s.records[..|r.records|] == r.records
    ensures s.histories == r.histories + [Decoder]
    ensures var x := s.records[|r.records|];
            x.kind == Decoder && x.state == Published && x.history == |r.histories| && x.predecessor == None
  {
    var create := DoCreate(Decoder, Payload(true, None, None), a);
    var approve := DoApprove(Decoder, |r.records|, a, true);
    var submitted := Step(r, create);
    ReachableStep(r, create);
    assert submitted.records[|r.records|].state == PendingReview;
    s := Step(submitted, approve);
    ReachableStep(submitted, approve);
  }

  /** A revision of a public decoder without a successor is submitted into its history. */
  lemma NewRevision(r: Registry, of: RecordId, a: Account) returns (s: Registry)
    requires Reachable(r) && a.active && a.admin
    requires of < |r.records| && r.records[of].kind == Decoder && r.records[of].state == Published
    requires HistoryHasKind(r, of, Decoder) && SuccessorAvailable(r, Decoder, of, None)
    ensures Reachable(s) && |s.records| == |r.records| + 1 && s.records[..|r.records|] == r.records
    ensures s.histories == r.histories
    ensures var x := s.records[|r.records|];
            x.kind == Decoder && x.state == PendingReview && x.history == r.records[of].history
            && x.predecessor == Some(of)
  {
    var create := DoCreate(Decoder, Payload(true, Some(of), None), a);
    s := Step(r, create);
    ReachableStep(r, create);
  }

  /** The histories of a candidate and its predecessor can differ: it is submitted as a
      revision of the first decoder and then edited to revise the second. */
  lemma HistoriesCanDiffer(a: Account) returns (r: Registry)
    requires a.active && a.admin
    ensures Reachable(r) && |r.records| == 3
    ensures r.records[2].predecessor == Some(1) && r.records[2].history != r.records[1].history
  {
    assert Reachable(EMPTY) by { assert Run(EMPTY, []) == EMPTY; }
    var first := NewDecoder(EMPTY, a);
    var second := NewDecoder(first, a);
    assert second.records[0] == first.records[0];
    assert SuccessorAvailable(second, Decoder, 0, None);
    var third := NewRevision(second, 0, a);
    var edit := DoUpdate(Decoder, 2, Payload(true, Some(1), None), a);
    r := Step(third, edit);
    ReachableStep(third, edit);
  }
}
