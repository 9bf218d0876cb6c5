/** The event log of the submission workflow: numbering, causes, and the state of a record
    as a projection of its own events. */
module LifecycleLog {
  import opened Text
  import opened Lifecycle

  // ---- numbering ----

  /** The number of events of one history. */
  function Count(events: seq<Event>, h: HistoryId): nat {
    if events == [] then 0
    else Count(events[..|events| - 1], h) + (if events[|events| - 1].history == h then 1 else 0)
  }

  /** Every event carries the next free number of its history. */
  ghost predicate Numbered(events: seq<Event>) {
    forall i | 0 <= i < |events| :: NumberedAt(events, i)
  }

  ghost predicate NumberedAt(events: seq<Event>, i: nat)
    requires i < |events|
  {
    events[i].sequence == Count(events[..i], events[i].history) + 1 && events[i].occurredAt == i
  }

  lemma {:induction false} LatestIsCount(events: seq<Event>, h: HistoryId)
    requires Numbered(events)
    ensures Latest(events, h) == Count(events, h)
  {
    if events != [] {
      var before := events[..|events| - 1];
      forall i | 0 <= i < |before| ensures NumberedAt(before, i) {
        assert NumberedAt(events, i);
        assert before[..i] == events[..i];
      }
      LatestIsCount(before, h);
      assert NumberedAt(events, |events| - 1);
    }
  }

  lemma AppendNumbered(events: seq<Event>, e: Event)
    requires Numbered(events) && e.sequence == Latest(events, e.history) + 1 && e.occurredAt == |events|
    ensures Numbered(events + [e])
  {
    var all := events + [e];
    LatestIsCount(events, e.history);
    forall i | 0 <= i < |all| ensures NumberedAt(all, i) {
      assert all[..i] == events[..i];
      if i < |events| {
        assert NumberedAt(events, i);
      } else {
        assert events[..i] == events;
      }
    }
  }

  lemma {:induction false} CountGrows(events: seq<Event>, h: HistoryId, i: nat, j: nat)
    requires i <= j <= |events|
    ensures Count(events[..i], h) <= Count(events[..j], h)
    ensures i < j && events[i].history == h ==> Count(events[..i], h) < Count(events[..j], h)
    decreases j
  {
    if i < j {
      assert events[..j][..j - 1] == events[..j - 1];
      CountGrows(events, h, i, j - 1);
    }
  }

  /** In a numbered log, later events of a history have larger numbers. */
  lemma SequencesIncrease(events: seq<Event>, i: nat, j: nat)
    requires Numbered(events) && i < j < |events| && events[i].history == events[j].history
    ensures events[i].sequence < events[j].sequence
  {
    assert NumberedAt(events, i) && NumberedAt(events, j);
    CountGrows(events, events[i].history, i, j);
  }

  /** Some event of the history carries the number. */
  ghost predicate HasNumber(events: seq<Event>, h: HistoryId, k: nat) {
    exists i :: 0 <= i < |events| && events[i].history == h && events[i].sequence == k
  }

  ghost predicate NumbersDistinct(events: seq<Event>, h: HistoryId) {
    forall i, j | 0 <= i < j < |events| && events[i].history == h && events[j].history == h ::
      events[i].sequence != events[j].sequence
  }

  /** The numbers of a history are exactly 1 to n, each used once. */
  lemma ExactlyOneToN(events: seq<Event>, h: HistoryId, k: nat)
    requires Numbered(events)
    ensures HasNumber(events, h, k) <==> 1 <= k <= Count(events, h)
    ensures NumbersDistinct(events, h)
  {
    forall i, j | 0 <= i < j < |events| && events[i].history == h && events[j].history == h
      ensures events[i].sequence != events[j].sequence
    {
      SequencesIncrease(events, i, j);
    }
    if 1 <= k <= Count(events, h) {
      var i := FindNumber(events, h, k);
    }
    forall i | 0 <= i < |events| && events[i].history == h ensures 1 <= events[i].sequence <= Count(events, h) {
      assert NumberedAt(events, i);
      CountGrows(events, h, i, |events|);
      assert events[..|events|] == events;
    }
  }

  lemma {:induction false} FindNumber(events: seq<Event>, h: HistoryId, k: nat) returns (i: nat)
    requires Numbered(events) && 1 <= k <= Count(events, h)
    ensures i < |events| && events[i].history == h && events[i].sequence == k
  {
    var n := |events| - 1;
    var before := events[..n];
    assert NumberedAt(events, n);
    if events[n].history == h && Count(before, h) + 1 == k {
      return n;
    }
    forall j | 0 <= j < |before| ensures NumberedAt(before, j) {
      assert NumberedAt(events, j);
      assert before[..j] == events[..j];
    }
    i := FindNumber(before, h, k);
  }

  // ---- projection ----

  /** What the events of one record say about it. */
  datatype Status = Absent | Live(state: State, publishedAt: Option<Time>, withdrawnAt: Option<Time>) | Broken

  /** The automaton every record's own events must follow. */
  function Advance(s: Status, e: Event): Status {
    match e.action
    case RevisionCreated => if s.Absent? then Absent else Broken
    case Submitted => if s.Absent? then Live(PendingReview, None, None) else Broken
    case Resubmitted => if s.Absent? then Live(PendingReapproval, None, None) else Broken
    case Edited => if s.Live? && IsPending(s.state) then s else Broken
    case Approved => if s.Live? && IsPending(s.state) then s else Broken
    case PublishedNow =>
      if s.Live? && IsPending(s.state) then Live(Published, Some(e.occurredAt), None) else Broken
    case WithdrawnNow =>
      if s.Live? && s.state == Published then Live(Withdrawn, s.publishedAt, Some(e.occurredAt)) else Broken
  }

  function Project(events: seq<Event>, id: RecordId): Status {
    if events == [] then Absent
    else
      var before := Project(events[..|events| - 1], id);
      var e := events[|events| - 1];
      if e.subject == id then Advance(before, e) else before
  }

  lemma ProjectAppend(events: seq<Event>, e: Event, id: RecordId)
    ensures Project(events + [e], id)
            == if e.subject == id then Advance(Project(events, id), e) else Project(events, id)
  {
    assert (events + [e])[..|events + [e]| - 1] == events;
  }

  lemma {:induction false} ProjectAbsent(events: seq<Event>, id: RecordId)
    requires forall i | 0 <= i < |events| :: events[i].subject != id
    ensures Project(events, id) == Absent
  {
    if events != [] {
      ProjectAbsent(events[..|events| - 1], id);
    }
  }

  function StatusOf(record: Record): Status {
    Live(record.state, record.publishedAt, record.withdrawnAt)
  }

  ghost predicate WasResubmitted(events: seq<Event>, id: RecordId) {
    exists i :: 0 <= i < |events| && events[i].subject == id && events[i].action == Resubmitted
  }

  /** A record awaiting reapproval was resubmitted, and one awaiting review was not. */
  lemma {:induction false} PendingKindFromLog(events: seq<Event>, id: RecordId)
    requires Project(events, id).Live?
    ensures Project(events, id).state == PendingReapproval ==> WasResubmitted(events, id)
    ensures Project(events, id).state == PendingReview ==> !WasResubmitted(events, id)
  {
    var n := |events| - 1;
    var before := events[..n];
    if events[n].subject != id || events[n].action == Edited || events[n].action == Approved {
      PendingKindFromLog(before, id);
      assert WasResubmitted(before, id) ==> WasResubmitted(events, id);
      assert WasResubmitted(events, id) ==> WasResubmitted(before, id);
    } else if events[n].action == Submitted {
      AbsentNeverSubmitted(before, id);
    }
  }

  lemma {:induction false} AbsentNeverSubmitted(events: seq<Event>, id: RecordId)
    requires Project(events, id) == Absent
    ensures !WasResubmitted(events, id)
  {
    if events != [] {
      AbsentNeverSubmitted(events[..|events| - 1], id);
    }
  }

  /** The log tells the past: a record that is public with a publication before `t` and no
      withdrawal before `t` was published at `t`. */
  lemma {:induction false} StateInThePast(events: seq<Event>, id: RecordId, t: nat)
    requires Numbered(events) && t <= |events|
    requires Project(events, id).Live? && IsPublic(Project(events, id).state)
    requires var s := Project(events, id);
             s.publishedAt.Some? && s.publishedAt.value < t && (s.withdrawnAt.Some? ==> t <= s.withdrawnAt.value)
    ensures Project(events[..t], id).Live? && Project(events[..t], id).state == Published
    decreases |events|
  {
    var n := |events| - 1;
    PublicTimes(events, id);
    if t == |events| {
      assert events[..t] == events;
    } else {
      var before := events[..n];
      assert NumberedAt(events, n);
      forall j | 0 <= j < |before| ensures NumberedAt(before, j) {
        assert NumberedAt(events, j);
        assert before[..j] == events[..j];
      }
      assert before[..t] == events[..t];
      if events[n].subject == id && events[n].action == WithdrawnNow {
        PublicTimes(before, id);
      }
      StateInThePast(before, id, t);
    }
  }

  /** A published record has no withdrawal time; a withdrawn one was withdrawn at an event. */
  lemma {:induction false} PublicTimes(events: seq<Event>, id: RecordId)
    requires Numbered(events) && Project(events, id).Live?
    ensures var s := Project(events, id);
            && (s.state == Published ==> s.withdrawnAt.None?)
            && (s.state == Withdrawn ==> s.withdrawnAt.Some? && s.withdrawnAt.value < |events|)
  {
    var n := |events| - 1;
    var before := events[..n];
    assert NumberedAt(events, n);
    forall j | 0 <= j < |before| ensures NumberedAt(before, j) {
      assert NumberedAt(events, j);
      assert before[..j] == events[..j];
    }
    if events[n].subject != id || events[n].action == Edited || events[n].action == Approved {
      PublicTimes(before, id);
    }
  }
}
