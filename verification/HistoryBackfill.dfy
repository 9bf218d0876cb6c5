/** The backfill of legacy histories: the events that exist are numbered per history in the
    order in which they occurred, and every record gets the lifecycle events it has none of.
    An event's identifier is its position in the log. */
module HistoryBackfill {
  import opened Text
  import opened Resequencing
  import HistoryRepair

  datatype Action = RevisionCreated | Submitted | Resubmitted | Approved | Published | Withdrawn | OtherAction

  datatype State = PublishedState | WithdrawnState | OtherState

  type Subject = nat
  type History = nat

  datatype Record = Record(subject: Subject, history: History, hasPredecessor: bool, state: State)

  /** An event from before the migration. */
  datatype Legacy = Legacy(subject: Subject, action: Action)

  datatype Event = Event(history: History, number: nat, subject: Subject, action: Action, causedBy: Option<EventId>)

  // ---- the log ----

  function Count(log: seq<Event>, h: History): nat {
    if log == [] then 0
    else Count(log[..|log| - 1], h) + (if log[|log| - 1].history == h then 1 else 0)
  }

  /** The log with one more event, which takes the next number of its history. */
  function Add(log: seq<Event>, h: History, subject: Subject, action: Action, cause: Option<EventId>): seq<Event> {
    log + [Event(h, Count(log, h) + 1, subject, action, cause)]
  }

  predicate Has(log: seq<Event>, subject: Subject, action: Action) {
    exists e | e in log :: e.subject == subject && e.action == action
  }

  /** The legacy events, in the order in which they occurred. */
  function Numbered(legacy: seq<Legacy>, historyOf: map<Subject, History>): seq<Event>
    requires forall e | e in legacy :: e.subject in historyOf
  {
    if legacy == [] then []
    else
      var e := legacy[|legacy| - 1];
      Add(Numbered(legacy[..|legacy| - 1], historyOf), historyOf[e.subject], e.subject, e.action, None)
  }

  function AddIf(needed: bool, log: seq<Event>, record: Record, action: Action, cause: Option<EventId>): seq<Event> {
    if needed then Add(log, record.history, record.subject, action, cause) else log
  }

  predicate NeedsRevision(log: seq<Event>, record: Record) {
    record.hasPredecessor && !Has(log, record.subject, RevisionCreated)
  }

  predicate NeedsSubmission(log: seq<Event>, record: Record) {
    !Has(log, record.subject, Submitted) && !Has(log, record.subject, Resubmitted)
  }

  predicate NeedsPublication(log: seq<Event>, record: Record) {
    record.state != OtherState && !Has(log, record.subject, Published)
  }

  predicate NeedsWithdrawal(log: seq<Event>, record: Record) {
    record.state == WithdrawnState && !Has(log, record.subject, Withdrawn)
  }

  /** The events of one record completed; what is missing is decided before any is added. */
  function Completed(log: seq<Event>, record: Record): seq<Event> {
    var log1 := AddIf(NeedsRevision(log, record), log, record, RevisionCreated, None);
    var log2 := AddIf(NeedsSubmission(log, record), log1, record, Submitted, None);
    var log3 := AddIf(NeedsPublication(log, record), log2, record, Approved, None);
    var log4 := AddIf(NeedsPublication(log, record), log3, record, Published, Some(|log2|));
    AddIf(NeedsWithdrawal(log, record), log4, record, Withdrawn, None)
  }

  function CompletedAll(log: seq<Event>, records: seq<Record>): seq<Event> {
    if records == [] then log else Completed(CompletedAll(log, records[..|records| - 1]), records[|records| - 1])
  }

  // ---- what the log is ----

  /** Every event has the next number of its history. */
  ghost predicate Sequential(log: seq<Event>) {
    forall i | 0 <= i < |log| :: SequentialAt(log, i)
  }

  ghost predicate SequentialAt(log: seq<Event>, i: nat)
    requires i < |log|
  {
    log[i].number == Count(log[..i], log[i].history) + 1
  }

  /** A recorded cause is an earlier approval of the same record in the same history. */
  ghost predicate Caused(log: seq<Event>) {
    forall i | 0 <= i < |log| && log[i].causedBy.Some? :: CausedAt(log, i, log[i].causedBy.value)
  }

  ghost predicate CausedAt(log: seq<Event>, i: nat, cause: EventId)
    requires i < |log|
  {
    && cause < i && log[cause].action == Approved && log[cause].subject == log[i].subject
    && log[cause].history == log[i].history
  }

  ghost predicate WellNumbered(log: seq<Event>) {
    Sequential(log) && Caused(log)
  }

  /** The record has every event that its state and its lineage call for. */
  ghost predicate Complete(log: seq<Event>, record: Record) {
    && (record.hasPredecessor ==> Has(log, record.subject, RevisionCreated))
    && (Has(log, record.subject, Submitted) || Has(log, record.subject, Resubmitted))
    && (record.state == PublishedState || record.state == WithdrawnState ==> Has(log, record.subject, Published))
    && (record.state == WithdrawnState ==> Has(log, record.subject, Withdrawn))
  }

  lemma AddKeeps(log: seq<Event>, h: History, subject: Subject, action: Action, cause: Option<EventId>)
    requires WellNumbered(log)
    requires cause.Some? ==> cause.value < |log| && log[cause.value].action == Approved
                             && log[cause.value].subject == subject && log[cause.value].history == h
    ensures WellNumbered(Add(log, h, subject, action, cause))
  {
    var after := Add(log, h, subject, action, cause);
    forall i | 0 <= i < |after| ensures SequentialAt(after, i) {
      if i < |log| {
        assert SequentialAt(log, i);
        assert after[..i] == log[..i];
      } else {
        assert after[..i] == log;
      }
    }
    forall i | 0 <= i < |after| && after[i].causedBy.Some? ensures CausedAt(after, i, after[i].causedBy.value) {
      if i < |log| {
        assert CausedAt(log, i, log[i].causedBy.value);
      }
    }
  }

  lemma {:induction false} NumberedKeeps(legacy: seq<Legacy>, historyOf: map<Subject, History>)
    requires forall e | e in legacy :: e.subject in historyOf
    ensures WellNumbered(Numbered(legacy, historyOf))
  {
    if legacy != [] {
      var e := legacy[|legacy| - 1];
      NumberedKeeps(legacy[..|legacy| - 1], historyOf);
      AddKeeps(Numbered(legacy[..|legacy| - 1], historyOf), historyOf[e.subject], e.subject, e.action, None);
    }
  }

  lemma AddIfKeeps(needed: bool, log: seq<Event>, record: Record, action: Action)
    requires WellNumbered(log)
    ensures WellNumbered(AddIf(needed, log, record, action, None))
  {
    if needed {
      AddKeeps(log, record.history, record.subject, action, None);
    }
  }

  lemma CompletedKeeps(log: seq<Event>, record: Record)
    requires WellNumbered(log)
    ensures WellNumbered(Completed(log, record))
  {
    var log1 := AddIf(NeedsRevision(log, record), log, record, RevisionCreated, None);
    var log2 := AddIf(NeedsSubmission(log, record), log1, record, Submitted, None);
    var log3 := AddIf(NeedsPublication(log, record), log2, record, Approved, None);
    var log4 := AddIf(NeedsPublication(log, record), log3, record, Published, Some(|log2|));
    AddIfKeeps(NeedsRevision(log, record), log, record, RevisionCreated);
    AddIfKeeps(NeedsSubmission(log, record), log1, record, Submitted);
    AddIfKeeps(NeedsPublication(log, record), log2, record, Approved);
    if NeedsPublication(log, record) {
      AddKeeps(log3, record.history, record.subject, Published, Some(|log2|));
    }
    AddIfKeeps(NeedsWithdrawal(log, record), log4, record, Withdrawn);
  }

  lemma {:induction false} CompletedAllKeeps(log: seq<Event>, records: seq<Record>)
    requires WellNumbered(log)
    ensures WellNumbered(CompletedAll(log, records))
  {
    if records != [] {
      CompletedAllKeeps(log, records[..|records| - 1]);
      CompletedKeeps(CompletedAll(log, records[..|records| - 1]), records[|records| - 1]);
    }
  }

  // ---- completeness ----

  /** `more` continues `log`. */
  ghost predicate Continues(log: seq<Event>, more: seq<Event>) {
    |log| <= |more| && forall i | 0 <= i < |log| :: more[i] == log[i]
  }

  lemma HasStays(log: seq<Event>, more: seq<Event>, subject: Subject, action: Action)
    requires Continues(log, more) && Has(log, subject, action)
    ensures Has(more, subject, action)
  {
    var e :| e in log && e.subject == subject && e.action == action;
    var i :| 0 <= i < |log| && log[i] == e;
    assert more[i] == e;
  }

  lemma CompleteStays(log: seq<Event>, more: seq<Event>, record: Record)
    requires Continues(log, more) && Complete(log, record)
    ensures Complete(more, record)
  {
    forall action | Has(log, record.subject, action) ensures Has(more, record.subject, action) {
      HasStays(log, more, record.subject, action);
    }
  }

  lemma CompletedContinues(log: seq<Event>, record: Record)
    ensures Continues(log, Completed(log, record))
  {
  }

  /** The step for one action leaves nothing to add. */
  lemma AddIfHas(needed: bool, log: seq<Event>, record: Record, action: Action, cause: Option<EventId>,
                 more: seq<Event>)
    requires Continues(AddIf(needed, log, record, action, cause), more) && needed
    ensures Has(more, record.subject, action)
  {
    assert more[|log|].subject == record.subject && more[|log|].action == action;
    assert more[|log|] in more;
  }

  lemma CompletedIsComplete(log: seq<Event>, record: Record)
    ensures Complete(Completed(log, record), record)
  {
    var all := Completed(log, record);
    CompletedContinues(log, record);
    forall action | Has(log, record.subject, action) ensures Has(all, record.subject, action) {
      HasStays(log, all, record.subject, action);
    }
    MissingIsAdded(log, record, all);
  }

  lemma MissingIsAdded(log: seq<Event>, record: Record, all: seq<Event>)
    requires all == Completed(log, record)
    ensures NeedsRevision(log, record) ==> Has(all, record.subject, RevisionCreated)
    ensures NeedsSubmission(log, record) ==> Has(all, record.subject, Submitted)
    ensures NeedsPublication(log, record) ==> Has(all, record.subject, Published)
    ensures NeedsWithdrawal(log, record) ==> Has(all, record.subject, Withdrawn)
  {
    var log1 := AddIf(NeedsRevision(log, record), log, record, RevisionCreated, None);
    var log2 := AddIf(NeedsSubmission(log, record), log1, record, Submitted, None);
    var log3 := AddIf(NeedsPublication(log, record), log2, record, Approved, None);
    var log4 := AddIf(NeedsPublication(log, record), log3, record, Published, Some(|log2|));
    if NeedsRevision(log, record) {
      AddIfHas(true, log, record, RevisionCreated, None, all);
    }
    if NeedsSubmission(log, record) {
      AddIfHas(true, log1, record, Submitted, None, all);
    }
    if NeedsPublication(log, record) {
      AddIfHas(true, log3, record, Published, Some(|log2|), all);
    }
    if NeedsWithdrawal(log, record) {
      AddIfHas(true, log4, record, Withdrawn, None, all);
    }
  }

  lemma {:induction false} CompletedAllIsComplete(log: seq<Event>, records: seq<Record>)
    ensures Continues(log, CompletedAll(log, records))
    ensures forall record | record in records :: Complete(CompletedAll(log, records), record)
  {
    if records != [] {
      var init, last := records[..|records| - 1], records[|records| - 1];
      var before := CompletedAll(log, init);
      CompletedAllIsComplete(log, init);
      CompletedContinues(before, last);
      CompletedIsComplete(before, last);
      forall record | record in records ensures Complete(CompletedAll(log, records), record) {
        if record != last {
          assert record in init;
          CompleteStays(before, CompletedAll(log, records), record);
        }
      }
    }
  }

  /** The backfill adds nothing to a record exactly when the record is complete. */
  lemma NothingToAdd(log: seq<Event>, record: Record)
    ensures Completed(log, record) == log <==> Complete(log, record)
  {
    CompletedLength(log, record);
  }

  lemma CompletedLength(log: seq<Event>, record: Record)
    ensures |Completed(log, record)| == |log| + (if NeedsRevision(log, record) then 1 else 0)
              + (if NeedsSubmission(log, record) then 1 else 0) + (if NeedsPublication(log, record) then 2 else 0)
              + (if NeedsWithdrawal(log, record) then 1 else 0)
  {
  }

  // ---- what is added, and in which order ----

  ghost predicate Happened(log: seq<Event>, subject: Subject, action: Action) {
    exists i :: 0 <= i < |log| && log[i].subject == subject && log[i].action == action
  }

  /** The record calls for an event of this kind and the log has none that would do. */
  ghost predicate IsMissing(log: seq<Event>, record: Record, action: Action) {
    match action
    case RevisionCreated => record.hasPredecessor && !Happened(log, record.subject, RevisionCreated)
    case Submitted => !Happened(log, record.subject, Submitted) && !Happened(log, record.subject, Resubmitted)
    case Approved => record.state != OtherState && !Happened(log, record.subject, Published)
    case Published => record.state != OtherState && !Happened(log, record.subject, Published)
    case Withdrawn => record.state == WithdrawnState && !Happened(log, record.subject, Withdrawn)
    case _ => false
  }

  /** The place of an event in the life of a record. */
  function Rank(action: Action): nat {
    match action
    case RevisionCreated => 0
    case Submitted => 1
    case Approved => 2
    case Published => 3
    case Withdrawn => 4
    case _ => 5
  }

  /** The event at `i` was added for the record; a publication is caused by the approval
      right before it. */
  ghost predicate AddedFor(log: seq<Event>, record: Record, all: seq<Event>, i: nat)
    requires i < |all|
  {
    && all[i].subject == record.subject && all[i].history == record.history
    && IsMissing(log, record, all[i].action)
    && (if all[i].action == Published then i > |log| && all[i].causedBy == Some(i - 1) && all[i - 1].action == Approved
        else all[i].causedBy == None)
  }

  lemma HappenedIsHas(log: seq<Event>, subject: Subject, action: Action)
    ensures Happened(log, subject, action) <==> Has(log, subject, action)
  {
  }

  /** A record gets exactly the events that are missing, once each and in the order of its
      life: submission before approval, approval before publication, publication before
      withdrawal. */
  lemma AddedInOrder(log: seq<Event>, record: Record)
    ensures var all := Completed(log, record);
            && |log| <= |all| && all[..|log|] == log
            && (forall i | |log| <= i < |all| :: AddedFor(log, record, all, i))
            && (forall i, j | |log| <= i < j < |all| :: Rank(all[i].action) < Rank(all[j].action))
            && (forall action | IsMissing(log, record, action) :: AddedIn(log, all, action))
  {
    forall action ensures Happened(log, record.subject, action) <==> Has(log, record.subject, action) {
      HappenedIsHas(log, record.subject, action);
    }
    CompletedGrows(log, record);
  }

  ghost predicate AddedIn(log: seq<Event>, all: seq<Event>, action: Action) {
    exists i :: |log| <= i < |all| && all[i].action == action
  }

  /** `l` is the log with exactly the missing events of ranks below `n` added, in order. */
  ghost predicate Growing(log: seq<Event>, record: Record, l: seq<Event>, n: nat) {
    && |log| <= |l| && l[..|log|] == log
    && (forall i | |log| <= i < |l| :: AddedFor(log, record, l, i) && Rank(l[i].action) < n)
    && (forall i, j | |log| <= i < j < |l| :: Rank(l[i].action) < Rank(l[j].action))
    && (forall action | IsMissing(log, record, action) && Rank(action) < n :: AddedIn(log, l, action))
  }

  lemma AddedInMore(log: seq<Event>, l: seq<Event>, needed: bool, record: Record, action: Action,
                    cause: Option<EventId>, a: Action)
    requires |log| <= |l| && (AddedIn(log, l, a) || (needed && a == action))
    ensures AddedIn(log, AddIf(needed, l, record, action, cause), a)
  {
    var after := AddIf(needed, l, record, action, cause);
    if AddedIn(log, l, a) {
      var i :| |log| <= i < |l| && l[i].action == a;
      assert after[i].action == a;
    } else {
      assert after[|l|].action == a;
    }
  }

  lemma GrowsOne(log: seq<Event>, record: Record, l: seq<Event>, needed: bool, action: Action, cause: Option<EventId>,
                 n: nat)
    requires Growing(log, record, l, n) && n == Rank(action) < 5 && (needed <==> IsMissing(log, record, action))
    requires needed ==>
               (if action == Published then
                  |l| > |log| && l[|l| - 1].action == Approved && cause == Some(|l| - 1)
                else cause == None)
    ensures Growing(log, record, AddIf(needed, l, record, action, cause), n + 1)
  {
    var after := AddIf(needed, l, record, action, cause);
    forall i | |log| <= i < |after| ensures AddedFor(log, record, after, i) && Rank(after[i].action) < n + 1 {
      if i < |l| {
        assert AddedFor(log, record, l, i);
      }
    }
    forall a | IsMissing(log, record, a) && Rank(a) < n + 1 ensures AddedIn(log, after, a) {
      AddedInMore(log, l, needed, record, action, cause, a);
    }
    assert after[..|log|] == l[..|log|];
  }

  lemma CompletedGrows(log: seq<Event>, record: Record)
    requires forall action :: Happened(log, record.subject, action) <==> Has(log, record.subject, action)
    ensures Growing(log, record, Completed(log, record), 5)
  {
    var log2 := GrowsSubmitted(log, record);
    var log4 := GrowsPublished(log, record, log2);
    GrowsOne(log, record, log4, NeedsWithdrawal(log, record), Withdrawn, None, 4);
    assert Completed(log, record) == AddIf(NeedsWithdrawal(log, record), log4, record, Withdrawn, None);
  }

  lemma GrowsSubmitted(log: seq<Event>, record: Record) returns (log2: seq<Event>)
    requires forall action :: Happened(log, record.subject, action) <==> Has(log, record.subject, action)
    ensures var log1 := AddIf(NeedsRevision(log, record), log, record, RevisionCreated, None);
            log2 == AddIf(NeedsSubmission(log, record), log1, record, Submitted, None)
    ensures Growing(log, record, log2, 2)
  {
    var log1 := AddIf(NeedsRevision(log, record), log, record, RevisionCreated, None);
    log2 := AddIf(NeedsSubmission(log, record), log1, record, Submitted, None);
    GrowsOne(log, record, log, NeedsRevision(log, record), RevisionCreated, None, 0);
    GrowsOne(log, record, log1, NeedsSubmission(log, record), Submitted, None, 1);
  }

  lemma GrowsPublished(log: seq<Event>, record: Record, log2: seq<Event>) returns (log4: seq<Event>)
    requires forall action :: Happened(log, record.subject, action) <==> Has(log, record.subject, action)
    requires Growing(log, record, log2, 2)
    ensures var log3 := AddIf(NeedsPublication(log, record), log2, record, Approved, None);
            log4 == AddIf(NeedsPublication(log, record), log3, record, Published, Some(|log2|))
    ensures Growing(log, record, log4, 4)
  {
    var log3 := AddIf(NeedsPublication(log, record), log2, record, Approved, None);
    log4 := AddIf(NeedsPublication(log, record), log3, record, Published, Some(|log2|));
    GrowsOne(log, record, log2, NeedsPublication(log, record), Approved, None, 2);
    GrowsOne(log, record, log3, NeedsPublication(log, record), Published, Some(|log2|), 3);
  }

  /** The event at `i` is the legacy event at `i`, in the history of its subject. */
  ghost predicate IsLegacy(legacy: seq<Legacy>, historyOf: map<Subject, History>, log: seq<Event>, i: nat)
    requires i < |legacy|
  {
    && i < |log| && legacy[i].subject in historyOf
    && log[i].subject == legacy[i].subject && log[i].action == legacy[i].action
    && log[i].history == historyOf[legacy[i].subject] && log[i].causedBy == None
  }

  lemma {:induction false} LegacyInOrder(legacy: seq<Legacy>, historyOf: map<Subject, History>)
    requires forall e | e in legacy :: e.subject in historyOf
    ensures |Numbered(legacy, historyOf)| == |legacy|
    ensures forall i | 0 <= i < |legacy| :: IsLegacy(legacy, historyOf, Numbered(legacy, historyOf), i)
  {
    if legacy != [] {
      var before := legacy[..|legacy| - 1];
      LegacyInOrder(before, historyOf);
      forall i | 0 <= i < |legacy| ensures IsLegacy(legacy, historyOf, Numbered(legacy, historyOf), i) {
        if i < |before| {
          assert IsLegacy(before, historyOf, Numbered(before, historyOf), i);
        }
      }
    }
  }

  /** The backfilled log begins with the legacy events in their order. */
  lemma BackfillKeepsLegacy(legacy: seq<Legacy>, historyOf: map<Subject, History>, records: seq<Record>)
    requires forall e | e in legacy :: e.subject in historyOf
    ensures var log := CompletedAll(Numbered(legacy, historyOf), records);
            forall i | 0 <= i < |legacy| :: IsLegacy(legacy, historyOf, log, i)
  {
    var numbered := Numbered(legacy, historyOf);
    var log := CompletedAll(numbered, records);
    LegacyInOrder(legacy, historyOf);
    CompletedAllIsComplete(numbered, records);
    forall i | 0 <= i < |legacy| ensures IsLegacy(legacy, historyOf, log, i) {
      assert IsLegacy(legacy, historyOf, numbered, i);
    }
  }

  /** A second backfill of the same records would add nothing. */
  lemma {:induction false} BackfillIsIdempotent(log: seq<Event>, records: seq<Record>, again: seq<Record>)
    requires forall record | record in again :: record in records
    ensures CompletedAll(CompletedAll(log, records), again) == CompletedAll(log, records)
    decreases |again|
  {
    if again != [] {
      BackfillIsIdempotent(log, records, again[..|again| - 1]);
      CompletedAllIsComplete(log, records);
      NothingToAdd(CompletedAll(log, records), again[|again| - 1]);
    }
  }

  // ---- numbers 1 to n, as the repair needs them ----

  /** The events of one history, in the order of the log. */
  function OfHistory(log: seq<Event>, h: History): (ids: seq<EventId>)
    ensures forall a :: a in ids <==> 0 <= a < |log| && log[a].history == h
    ensures |ids| == Count(log, h)
  {
    if log == [] then []
    else
      OfHistory(log[..|log| - 1], h) + (if log[|log| - 1].history == h then [|log| - 1] else [])
  }

  function NumbersIn(log: seq<Event>, h: History): map<EventId, nat> {
    map a | 0 <= a < |log| && log[a].history == h :: log[a].number
  }

  function RepairAction(action: Action): HistoryRepair.Action {
    match action
    case Approved => HistoryRepair.Approved
    case Published => HistoryRepair.Published
    case _ => HistoryRepair.Other
  }

  function RowsIn(log: seq<Event>, h: History): map<EventId, HistoryRepair.Row> {
    map a | 0 <= a < |log| && log[a].history == h ::
      HistoryRepair.Row(RepairAction(log[a].action), log[a].subject, log[a].causedBy)
  }

  lemma {:induction false} NumberedInOrder(log: seq<Event>, h: History, i: nat)
    requires Sequential(log) && i < |OfHistory(log, h)|
    ensures OfHistory(log, h)[i] < |log| && log[OfHistory(log, h)[i]].number == i + 1
  {
    var init := log[..|log| - 1];
    assert Sequential(init) by {
      forall k | 0 <= k < |init| ensures SequentialAt(init, k) {
        assert SequentialAt(log, k);
        assert init[..k] == log[..k];
      }
    }
    if i < |OfHistory(init, h)| {
      NumberedInOrder(init, h, i);
      assert OfHistory(init, h)[i] in OfHistory(init, h);
    } else {
      assert SequentialAt(log, |log| - 1);
    }
  }

  lemma NumbersAreOneToN(log: seq<Event>, h: History)
    requires Sequential(log)
    ensures NumbersOf(NumbersIn(log, h), OfHistory(log, h))
  {
    var numbers, order := NumbersIn(log, h), OfHistory(log, h);
    forall i: nat | i < |order| ensures SlotOk(numbers, order, i) {
      NumberedInOrder(log, h, i);
      assert order[i] in order;
    }
    forall a | a in numbers ensures PlaceOk(numbers, order, a) {
      assert a in order;
      var i :| 0 <= i < |order| && order[i] == a;
      NumberedInOrder(log, h, i);
    }
  }

  lemma {:induction false} NumberRises(log: seq<Event>, i: nat, j: nat)
    requires Sequential(log) && i < j < |log| && log[i].history == log[j].history
    ensures log[i].number < log[j].number
  {
    assert SequentialAt(log, i) && SequentialAt(log, j);
    CountRises(log, log[i].history, i, j);
  }

  lemma {:induction false} CountRises(log: seq<Event>, h: History, i: nat, j: nat)
    requires i < j <= |log| && log[i].history == h
    ensures Count(log[..i], h) < Count(log[..j], h)
  {
    assert log[..j][..j - 1] == log[..j - 1];
    if j - 1 > i {
      CountRises(log, h, i, j - 1);
    }
  }

  /** The backfilled log meets what the repair starts from, in every history: the numbers are
      exactly 1 to n, and each recorded cause of a publication is an approval of the same
      record with a smaller number. */
  lemma BackfillFeedsRepair(legacy: seq<Legacy>, historyOf: map<Subject, History>, records: seq<Record>, h: History)
    requires forall e | e in legacy :: e.subject in historyOf
    ensures var log := CompletedAll(Numbered(legacy, historyOf), records);
            && NumbersOf(NumbersIn(log, h), OfHistory(log, h))
            && HistoryRepair.LinksOk(RowsIn(log, h), NumbersIn(log, h))
  {
    NumberedKeeps(legacy, historyOf);
    CompletedAllKeeps(Numbered(legacy, historyOf), records);
    var log := CompletedAll(Numbered(legacy, historyOf), records);
    NumbersAreOneToN(log, h);
    LinksInHistory(log, h);
  }

  lemma LinksInHistory(log: seq<Event>, h: History)
    requires WellNumbered(log)
    ensures HistoryRepair.LinksOk(RowsIn(log, h), NumbersIn(log, h))
  {
    var rows, numbers := RowsIn(log, h), NumbersIn(log, h);
    forall p | p in rows && p in numbers && rows[p].action == HistoryRepair.Published
      ensures HistoryRepair.LinkOk(rows, numbers, p)
    {
      if log[p].causedBy.Some? {
        assert CausedAt(log, p, log[p].causedBy.value);
        NumberRises(log, log[p].causedBy.value, p);
      }
    }
  }

  // ---- the migration as it runs ----

  function Counter(next: map<History, nat>, h: History): nat {
    if h in next then next[h] else 0
  }

  class Backfill {
    var log: seq<Event>
    var next: map<History, nat>

    constructor ()
      ensures log == [] && Valid()
    {
      log, next := [], map[];
    }

    /** Each counter is the number of events of its history. */
    ghost predicate Valid()
      reads this
    {
      forall h :: Counter(next, h) == Count(log, h)
    }

    method Append(h: History, number: nat, subject: Subject, action: Action, cause: Option<EventId>)
      returns (id: EventId)
      requires number == Count(log, h) + 1
      modifies this`log
      ensures log == Add(old(log), h, subject, action, cause) && id == |old(log)| && Count(log, h) == number
    {
      AddCounts(log, h, subject, action, cause, h);
      id := |log|;
      log := log + [Event(h, number, subject, action, cause)];
    }

    /** The loop over the existing events. */
    method NumberExisting(legacy: seq<Legacy>, historyOf: map<Subject, History>)
      requires Valid() && log == [] && forall e | e in legacy :: e.subject in historyOf
      modifies this
      ensures Valid() && log == Numbered(legacy, historyOf)
    {
      for i := 0 to |legacy|
        invariant Valid() && log == Numbered(legacy[..i], historyOf)
      {
        TakeNext(legacy, i);
        ghost var before := log;
        var e := legacy[i];
        var h := historyOf[e.subject];
        var sequence := Counter(next, h) + 1;
        next := next[h := sequence];
        var _ := Append(h, sequence, e.subject, e.action, None);
        forall other ensures Counter(next, other) == Count(log, other) {
          AddCounts(before, h, e.subject, e.action, None, other);
        }
      }
      assert legacy[..|legacy|] == legacy;
    }

    /** The body of the loop over the records. */
    method CompleteRecord(record: Record)
      requires Valid()
      modifies this
      ensures Valid() && log == Completed(old(log), record)
    {
      var sequence := AppendMissing(record);
      next := next[record.history := sequence];
      forall other ensures Counter(next, other) == Count(log, other) {
        CompletedCounts(old(log), record, other);
      }
    }

    method AppendMissing(record: Record) returns (sequence: nat)
      requires Valid()
      modifies this`log
      ensures log == Completed(old(log), record) && sequence == Count(log, record.history)
    {
      var h := record.history;
      sequence := Counter(next, h);
      var revision, submission := NeedsRevision(log, record), NeedsSubmission(log, record);
      var publication, withdrawal := NeedsPublication(log, record), NeedsWithdrawal(log, record);
      if revision {
        sequence := sequence + 1;
        var _ := Append(h, sequence, record.subject, RevisionCreated, None);
      }
      if submission {
        sequence := sequence + 1;
        var _ := Append(h, sequence, record.subject, Submitted, None);
      }
      if publication {
        sequence := sequence + 1;
        var approval := Append(h, sequence, record.subject, Approved, None);
        sequence := sequence + 1;
        var _ := Append(h, sequence, record.subject, Published, Some(approval));
      }
      if withdrawal {
        sequence := sequence + 1;
        var _ := Append(h, sequence, record.subject, Withdrawn, None);
      }
    }

    /** `backfill_histories` after the records were grouped. */
    method Run(legacy: seq<Legacy>, historyOf: map<Subject, History>, records: seq<Record>)
      requires Valid() && log == [] && forall e | e in legacy :: e.subject in historyOf
      modifies this
      ensures log == CompletedAll(Numbered(legacy, historyOf), records)
      ensures WellNumbered(log) && forall record | record in records :: Complete(log, record)
      ensures forall i | 0 <= i < |legacy| :: IsLegacy(legacy, historyOf, log, i)
    {
      NumberExisting(legacy, historyOf);
      ghost var numbered := log;
      for i := 0 to |records|
        invariant Valid() && log == CompletedAll(numbered, records[..i])
      {
        TakeNext(records, i);
        CompleteRecord(records[i]);
      }
      assert records[..|records|] == records;
      NumberedKeeps(legacy, historyOf);
      CompletedAllKeeps(numbered, records);
      CompletedAllIsComplete(numbered, records);
      BackfillKeepsLegacy(legacy, historyOf, records);
    }
  }

  lemma AddCounts(log: seq<Event>, h: History, subject: Subject, action: Action, cause: Option<EventId>, other: History)
    ensures Count(Add(log, h, subject, action, cause), other) == Count(log, other) + if other == h then 1 else 0
  {
    var after := Add(log, h, subject, action, cause);
    assert after[..|after| - 1] == log;
  }

  lemma AddIfCounts(needed: bool, log: seq<Event>, record: Record, action: Action, cause: Option<EventId>, h: History)
    ensures Count(AddIf(needed, log, record, action, cause), h)
            == Count(log, h) + if needed && h == record.history then 1 else 0
  {
    AddCounts(log, record.history, record.subject, action, cause, h);
  }

  /** A record only adds to its own history. */
  lemma CompletedCounts(log: seq<Event>, record: Record, h: History)
    ensures Count(Completed(log, record), h)
            == Count(log, h) + if h == record.history then |Completed(log, record)| - |log| else 0
  {
    var revision, publication := NeedsRevision(log, record), NeedsPublication(log, record);
    var log1 := AddIf(revision, log, record, RevisionCreated, None);
    var log2 := AddIf(NeedsSubmission(log, record), log1, record, Submitted, None);
    var log3 := AddIf(publication, log2, record, Approved, None);
    var log4 := AddIf(publication, log3, record, Published, Some(|log2|));
    AddIfCounts(revision, log, record, RevisionCreated, None, h);
    AddIfCounts(NeedsSubmission(log, record), log1, record, Submitted, None, h);
    AddIfCounts(publication, log2, record, Approved, None, h);
    AddIfCounts(publication, log3, record, Published, Some(|log2|), h);
    AddIfCounts(NeedsWithdrawal(log, record), log4, record, Withdrawn, None, h);
  }
}
