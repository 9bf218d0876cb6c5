/** The submission workflow: records, histories and the event log, and the five operations
    on them. Each operation either gives a new registry or raises and changes nothing.
    Time is logical: one tick for every event, so an event occurs at its position in the
    log. */
module Lifecycle {
  import opened Text

  datatype Kind = Decoder | Circuit | Result | Machine

  datatype State = PendingReview | PendingReapproval | Published | Withdrawn

  type RecordId = nat
  type HistoryId = nat
  type EventId = nat
  type Time = nat

  datatype Account = Account(id: nat, active: bool, admin: bool)

  /** The account as it was when it acted, or the submission policy itself. */
  datatype Actor = User(account: Account) | Policy

  /** What a result refers to. */
  datatype References = References(decoder: RecordId, circuit: RecordId, machine: RecordId)

  datatype Record = Record(kind: Kind, history: HistoryId, predecessor: Option<RecordId>,
                           refs: Option<References>, submitter: nat,
                           state: State, publishedAt: Option<Time>, withdrawnAt: Option<Time>)

  datatype Action = Submitted | Resubmitted | RevisionCreated | Edited | Approved | PublishedNow | WithdrawnNow

  datatype Event = Event(history: HistoryId, sequence: nat, subject: RecordId, action: Action,
                         actor: Actor, causedBy: Option<EventId>, occurredAt: Time)

  datatype Registry = Registry(records: seq<Record>, histories: seq<Kind>, events: seq<Event>)

  /** The parts of a submission that this model looks at; `valid` stands for every other
      rule of its schema and form. */
  datatype Payload = Payload(valid: bool, predecessor: Option<RecordId>, refs: Option<References>)

  datatype Error = ValidationError | StateError | PermissionError | ValueError

  datatype Outcome = Ok(registry: Registry) | Raise(error: Error)

  predicate IsPending(s: State) {
    s == PendingReview || s == PendingReapproval
  }

  predicate IsPublic(s: State) {
    s == Published || s == Withdrawn
  }

  // ---- policy ----

  /** `approval_decision`: the state a valid submission starts in. */
  function InitialState(kind: Kind, reapproval: bool): State {
    if reapproval then PendingReapproval else if kind == Machine then Published else PendingReview
  }

  predicate RequiresReview(kind: Kind, reapproval: bool) {
    InitialState(kind, reapproval) != Published
  }

  // ---- the log ----

  /** `Max("sequence")` of the events of one history, or 0. */
  function Latest(events: seq<Event>, h: HistoryId): nat {
    if events == [] then 0
    else
      var before := Latest(events[..|events| - 1], h);
      var e := events[|events| - 1];
      if e.history == h && e.sequence > before then e.sequence else before
  }

  /** `append_history_event`. */
  function Log(r: Registry, subject: RecordId, action: Action, actor: Actor, cause: Option<EventId>): Registry
    requires subject < |r.records|
  {
    var h := r.records[subject].history;
    r.(events := r.events + [Event(h, Latest(r.events, h) + 1, subject, action, actor, cause, |r.events|)])
  }

  function SetRecord(r: Registry, id: RecordId, record: Record): Registry
    requires id < |r.records|
  {
    r.(records := r.records[id := record])
  }

  // ---- validation ----

  /** An existing record of a kind in one of some states: membership in a form's queryset. */
  predicate Selectable(r: Registry, id: RecordId, kind: Kind, withdrawnToo: bool) {
    id < |r.records| && r.records[id].kind == kind
    && (r.records[id].state == Published || (withdrawnToo && r.records[id].state == Withdrawn))
  }

  predicate ReferencesPublished(r: Registry, refs: References) {
    && Selectable(r, refs.decoder, Decoder, false)
    && Selectable(r, refs.circuit, Circuit, false)
    && Selectable(r, refs.machine, Machine, false)
  }

  /** The submission form is valid; `withdrawnToo` is its wider set of lineage states. */
  predicate FormValid(r: Registry, kind: Kind, p: Payload, withdrawnToo: bool) {
    && p.valid
    && (p.predecessor.Some? ==> Selectable(r, p.predecessor.value, kind, withdrawnToo))
    && p.refs.Some? == (kind == Result)
    && (p.refs.Some? ==> ReferencesPublished(r, p.refs.value))
  }

  /** `_assert_successor_available`: machines may have several successors. */
  predicate SuccessorAvailable(r: Registry, kind: Kind, source: RecordId, excluding: Option<RecordId>) {
    kind == Machine
    || forall i | 0 <= i < |r.records| :: r.records[i].predecessor == Some(source) ==> excluding == Some(i)
  }

  predicate LineageAvailable(r: Registry, kind: Kind, p: Payload, excluding: Option<RecordId>) {
    p.predecessor.Some? ==> SuccessorAvailable(r, kind, p.predecessor.value, excluding)
  }

  /** `_managed_record`: `None` when the actor may manage the record. */
  function Managed(r: Registry, kind: Kind, id: RecordId, actor: Account): Option<Error> {
    if !actor.active then Some(PermissionError)
    else if id >= |r.records| || r.records[id].kind != kind then Some(StateError)
    else if r.records[id].submitter != actor.id && !actor.admin then Some(PermissionError)
    else None
  }

  // ---- the operations ----

  /** The candidate record and its first events. */
  function Submit(r: Registry, kind: Kind, p: Payload, submitter: Account, reapproval: bool): Registry
    requires p.predecessor.Some? ==> p.predecessor.value < |r.records|
  {
    var shared := p.predecessor.Some?;
    var history := if shared then r.records[p.predecessor.value].history else |r.histories|;
    var histories := if shared then r.histories else r.histories + [kind];
    var id := |r.records|;
    var state := if reapproval then PendingReapproval else PendingReview;
    var r0 := Registry(r.records + [Record(kind, history, p.predecessor, p.refs, submitter.id, state, None, None)],
                       histories, r.events);
    var r1 := if shared then Log(r0, id, RevisionCreated, User(submitter), None) else r0;
    Log(r1, id, if reapproval then Resubmitted else Submitted, User(submitter), None)
  }

  /** The approval and the publication it causes. */
  function Publish(r: Registry, id: RecordId, actor: Actor, cause: Option<EventId>): Registry
    requires id < |r.records|
  {
    var approval := |r.events|;
    var r1 := Log(r, id, Approved, actor, cause);
    var r2 := Log(r1, id, PublishedNow, actor, Some(approval));
    SetRecord(r2, id, r2.records[id].(state := Published, publishedAt := Some(approval + 1), withdrawnAt := None))
  }

  /** `_create_submission`. */
  function Create(r: Registry, kind: Kind, p: Payload, submitter: Account, reapproval: bool): Outcome {
    if !FormValid(r, kind, p, reapproval) then Raise(ValidationError)
    else if !LineageAvailable(r, kind, p, None) then Raise(StateError)
    else if !submitter.active then Raise(ValueError)
    else if p.predecessor.Some? && !HistoryHasKind(r, p.predecessor.value, kind) then Raise(ValueError)
    else
      var submitted := Submit(r, kind, p, submitter, reapproval);
      if RequiresReview(kind, reapproval) then Ok(submitted)
      else Ok(Publish(submitted, |r.records|, Policy, Some(|submitted.events| - 1)))
  }

  /** The check of `history_for_new_record`. */
  predicate HistoryHasKind(r: Registry, id: RecordId, kind: Kind) {
    id < |r.records| && r.records[id].history < |r.histories| && r.histories[r.records[id].history] == kind
  }

  /** The edited record: only the submitted fields change, never the history. */
  function Edit(r: Registry, id: RecordId, p: Payload, actor: Account): Registry
    requires id < |r.records|
  {
    var r1 := SetRecord(r, id, r.records[id].(predecessor := p.predecessor, refs := p.refs));
    Log(r1, id, Edited, User(actor), None)
  }

  /** A record that awaits reapproval keeps its predecessor whatever the payload says. */
  function KeepLineage(record: Record, p: Payload): Payload {
    if record.state == PendingReapproval then p.(predecessor := record.predecessor) else p
  }

  /** `update_pending_submission`. */
  function Update(r: Registry, kind: Kind, id: RecordId, p: Payload, actor: Account): Outcome {
    var refused := Managed(r, kind, id, actor);
    if refused.Some? then Raise(refused.value)
    else if !IsPending(r.records[id].state) then Raise(StateError)
    else
      var q := KeepLineage(r.records[id], p);
      if !FormValid(r, kind, q, r.records[id].state == PendingReapproval) then Raise(ValidationError)
      else if !LineageAvailable(r, kind, q, Some(id)) then Raise(StateError)
      else Ok(Edit(r, id, q, actor))
  }

  /** The withdrawn record. */
  function Retire(r: Registry, id: RecordId, actor: Account): Registry
    requires id < |r.records|
  {
    var r1 := Log(r, id, WithdrawnNow, User(actor), None);
    SetRecord(r1, id, r1.records[id].(state := Withdrawn, withdrawnAt := Some(|r.events|)))
  }

  /** `withdraw_submission`. */
  function Withdraw(r: Registry, kind: Kind, id: RecordId, actor: Account): Outcome {
    var refused := Managed(r, kind, id, actor);
    if refused.Some? then Raise(refused.value)
    else if r.records[id].state != Published then Raise(StateError)
    else Ok(Retire(r, id, actor))
  }

  /** `create_successor_submission`. */
  function CreateSuccessor(r: Registry, kind: Kind, source: RecordId, p: Payload, actor: Account, withdraw: bool)
    : Outcome
  {
    var refused := Managed(r, kind, source, actor);
    if refused.Some? then Raise(refused.value)
    else if !IsPublic(r.records[source].state) then Raise(StateError)
    else if !SuccessorAvailable(r, kind, source, None) then Raise(StateError)
    else if withdraw && kind != Decoder && kind != Circuit then Raise(StateError)
    else if withdraw && r.records[source].state != Published then Raise(StateError)
    else
      var r1 := if withdraw then Retire(r, source, actor) else r;
      Create(r1, kind, p.(predecessor := Some(source)), actor, r1.records[source].state == Withdrawn)
  }

  /** The publication-time checks; `otherChecks` stands for those on fields outside this
      model. */
  predicate Revalidates(r: Registry, id: RecordId, otherChecks: bool)
    requires id < |r.records|
  {
    var record := r.records[id];
    && (record.predecessor.Some? ==>
          record.predecessor.value < |r.records| && IsPublic(r.records[record.predecessor.value].state))
    && (record.kind == Result ==> record.refs.Some? && ReferencesPublished(r, record.refs.value))
    && otherChecks
  }

  /** `approve_submission`. */
  function Approve(r: Registry, kind: Kind, id: RecordId, reviewer: Account, otherChecks: bool): Outcome {
    if !reviewer.active || !reviewer.admin then Raise(PermissionError)
    else if id >= |r.records| || r.records[id].kind != kind then Raise(StateError)
    else if !IsPending(r.records[id].state) then Raise(StateError)
    else if r.records[id].state == PendingReview && !RequiresReview(kind, false) then Raise(StateError)
    else if !Revalidates(r, id, otherChecks) then Raise(StateError)
    else Ok(Publish(r, id, User(reviewer), None))
  }

  // ---- runs ----

  datatype Operation =
    | DoCreate(kind: Kind, payload: Payload, account: Account)
    | DoUpdate(kind: Kind, id: RecordId, payload: Payload, account: Account)
    | DoCreateSuccessor(kind: Kind, id: RecordId, payload: Payload, account: Account, withdraw: bool)
    | DoWithdraw(kind: Kind, id: RecordId, account: Account)
    | DoApprove(kind: Kind, id: RecordId, account: Account, otherChecks: bool)

  function Perform(r: Registry, op: Operation): Outcome {
    match op
    case DoCreate(kind, p, a) => Create(r, kind, p, a, false)
    case DoUpdate(kind, id, p, a) => Update(r, kind, id, p, a)
    case DoCreateSuccessor(kind, id, p, a, w) => CreateSuccessor(r, kind, id, p, a, w)
    case DoWithdraw(kind, id, a) => Withdraw(r, kind, id, a)
    case DoApprove(kind, id, a, checks) => Approve(r, kind, id, a, checks)
  }

  /** An operation that raises changes nothing. */
  function Step(r: Registry, op: Operation): Registry {
    match Perform(r, op) case Ok(s) => s case Raise(_) => r
  }

  const EMPTY := Registry([], [], [])

  function Run(r: Registry, ops: seq<Operation>): Registry
    decreases |ops|
  {
    if ops == [] then r else Run(Step(r, ops[0]), ops[1..])
  }

  /** The registry after some sequence of operations, successful or not. */
  ghost predicate Reachable(r: Registry) {
    exists ops :: r == Run(EMPTY, ops)
  }
}
