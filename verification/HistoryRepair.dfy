/** The repair of legacy histories: every publication without a recorded cause gets an
    approval of the same record, moved in front of it when necessary. The publications are
    listed once, before anything is moved, so the numbers in that list grow stale. Each
    history is repaired on its own. */
module HistoryRepair {
  import opened Text
  import opened Resequencing

  datatype Action = Approved | Published | Other

  datatype Row = Row(action: Action, subject: nat, causedBy: Option<EventId>)

  /** A publication as it was when the list was made. */
  datatype Snapshot = Snapshot(id: EventId, number: nat, causedBy: Option<EventId>)

  ghost predicate Covers(rows: map<EventId, Row>, l: seq<EventId>) {
    forall a | a in l :: a in rows
  }

  predicate IsApproval(rows: map<EventId, Row>, a: EventId, subject: nat) {
    a in rows && rows[a].action == Approved && rows[a].subject == subject
  }

  ghost predicate Ascends(numbers: map<EventId, nat>, l: seq<EventId>) {
    && (forall a | a in l :: a in numbers)
    && (forall i, j | 0 <= i < j < |l| :: numbers[l[i]] < numbers[l[j]])
  }

  /** The approvals of `subject` in `l`, in order. */
  function Approvals(rows: map<EventId, Row>, l: seq<EventId>, subject: nat): (r: seq<EventId>)
    requires forall a | a in l :: a in rows
    ensures forall a :: a in r <==> a in l && rows[a].action == Approved && rows[a].subject == subject
  {
    if l == [] then []
    else
      var head := l[0];
      var tail := Approvals(rows, l[1..], subject);
      if rows[head].action == Approved && rows[head].subject == subject then [head] + tail else tail
  }

  /** The last event of `l` whose number is below `bound`. */
  function LastBelow(numbers: map<EventId, nat>, l: seq<EventId>, bound: nat): (r: Option<EventId>)
    requires forall a | a in l :: a in numbers
    ensures r.Some? ==> r.value in l && numbers[r.value] < bound
    ensures r.Some? && Ascends(numbers, l) ==> forall a | a in l && numbers[a] < bound :: numbers[a] <= numbers[r.value]
    ensures r.None? ==> forall a | a in l :: numbers[a] >= bound
  {
    if l == [] then None
    else if numbers[l[|l| - 1]] < bound then Some(l[|l| - 1])
    else LastBelow(numbers, l[..|l| - 1], bound)
  }

  /** The approval a publication is attributed to: the last one numbered below the listed
      number, otherwise the first one there is. */
  function Choose(rows: map<EventId, Row>, numbers: map<EventId, nat>, l: seq<EventId>, subject: nat, bound: nat)
    : (r: Option<EventId>)
    requires forall a | a in l :: a in rows && a in numbers
    ensures r.Some? ==> r.value in l && rows[r.value].action == Approved && rows[r.value].subject == subject
    ensures r.None? ==> forall a | a in l :: !IsApproval(rows, a, subject)
  {
    var approvals := Approvals(rows, l, subject);
    var before := LastBelow(numbers, approvals, bound);
    if before.Some? then before
    else if approvals == [] then None
    else Some(approvals[0])
  }

  lemma {:induction false} ApprovalsAscend(rows: map<EventId, Row>, numbers: map<EventId, nat>, l: seq<EventId>,
                                           subject: nat)
    requires Covers(rows, l) && Ascends(numbers, l)
    ensures Ascends(numbers, Approvals(rows, l, subject))
  {
    if l != [] {
      ApprovalsAscend(rows, numbers, l[1..], subject);
      var all, tail := Approvals(rows, l, subject), Approvals(rows, l[1..], subject);
      forall i, j | 0 <= i < j < |all| ensures numbers[all[i]] < numbers[all[j]] {
        if i == 0 && all == [l[0]] + tail {
          assert all[j] == tail[j - 1] && tail[j - 1] in tail;
          var k :| 0 <= k < |l| - 1 && l[1..][k] == all[j];
        }
      }
    }
  }

  /** The right cause for a publication of `subject` listed with the number `bound`: the
      approval of the same record with the greatest number below that; if none is below, the
      one with the least number; and if there is none at all, a new event. */
  ghost predicate RightCause(rows: map<EventId, Row>, numbers: map<EventId, nat>, subject: nat, bound: nat,
                             c: EventId) {
    if exists a :: IsApproval(rows, a, subject) && a in numbers && numbers[a] < bound then
      && IsApproval(rows, c, subject) && c in numbers && numbers[c] < bound
      && forall a | IsApproval(rows, a, subject) && a in numbers && numbers[a] < bound :: numbers[a] <= numbers[c]
    else if exists a :: IsApproval(rows, a, subject) && a in numbers then
      && IsApproval(rows, c, subject) && c in numbers
      && forall a | IsApproval(rows, a, subject) && a in numbers :: numbers[c] <= numbers[a]
    else c !in rows
  }

  /** Among the events in order, the right cause is chosen, and none only if there is none. */
  lemma ChooseIsRight(rows: map<EventId, Row>, numbers: map<EventId, nat>, order: seq<EventId>, subject: nat,
                      bound: nat)
    requires rows.Keys == numbers.Keys && NumbersOf(numbers, order)
    ensures Covers(rows, order) && forall a | a in order :: a in numbers
    ensures match Choose(rows, numbers, order, subject, bound)
            case Some(c) => RightCause(rows, numbers, subject, bound, c) && c in rows
            case None => forall c | c !in rows :: RightCause(rows, numbers, subject, bound, c)
  {
    OrderPermutes(numbers, order);
    OrderAscends(numbers, order);
    ApprovalsAscend(rows, numbers, order, subject);
    var approvals := Approvals(rows, order, subject);
    assert forall a :: IsApproval(rows, a, subject) <==> a in approvals;
  }

  lemma OrderAscends(numbers: map<EventId, nat>, order: seq<EventId>)
    requires NumbersOf(numbers, order)
    ensures Ascends(numbers, order)
  {
    OrderPermutes(numbers, order);
    forall i, j | 0 <= i < j < |order| ensures numbers[order[i]] < numbers[order[j]] {
      assert SlotOk(numbers, order, i) && SlotOk(numbers, order, j);
    }
  }

  /** The events that are not approvals, in order. */
  function OtherEvents(rows: map<EventId, Row>, l: seq<EventId>): seq<EventId>
    requires forall a | a in l :: a in rows
  {
    if l == [] then []
    else (if rows[l[0]].action == Approved then [] else [l[0]]) + OtherEvents(rows, l[1..])
  }

  lemma {:induction false} OtherEventsConcat(rows: map<EventId, Row>, l: seq<EventId>, m: seq<EventId>)
    requires Covers(rows, l) && Covers(rows, m)
    ensures Covers(rows, l + m) && OtherEvents(rows, l + m) == OtherEvents(rows, l) + OtherEvents(rows, m)
  {
    if l == [] {
      assert l + m == m;
    } else {
      assert (l + m)[1..] == l[1..] + m;
      OtherEventsConcat(rows, l[1..], m);
    }
  }

  /** Same actions, same filtered list. */
  lemma {:induction false} OtherEventsSame(rows: map<EventId, Row>, rows': map<EventId, Row>, l: seq<EventId>)
    requires Covers(rows, l) && Covers(rows', l) && forall a | a in l :: rows[a].action == rows'[a].action
    ensures OtherEvents(rows, l) == OtherEvents(rows', l)
  {
    if l != [] {
      OtherEventsSame(rows, rows', l[1..]);
    }
  }

  /** `remove` the event at `j`, then `insert` it at `i`. */
  function Move(l: seq<EventId>, i: nat, j: nat): (r: seq<EventId>)
    requires i < j < |l|
    ensures |r| == |l|
    ensures forall k | 0 <= k < |l| ::
              r[k] == if k < i || k > j then l[k] else if k == i then l[j] else l[k - 1]
  {
    l[..i] + [l[j]] + l[i..j] + l[j + 1..]
  }

  lemma ApprovalIsSkipped(rows: map<EventId, Row>, a: seq<EventId>, b: seq<EventId>, x: EventId, c: seq<EventId>)
    requires Covers(rows, a) && Covers(rows, b) && Covers(rows, c) && x in rows && rows[x].action == Approved
    ensures Covers(rows, a + (b + ([x] + c))) && Covers(rows, a + ([x] + (b + c)))
    ensures OtherEvents(rows, a + (b + ([x] + c))) == OtherEvents(rows, a + ([x] + (b + c)))
  {
    SkipHead(rows, x, c);
    OtherEventsConcat(rows, b, [x] + c);
    OtherEventsConcat(rows, a, b + ([x] + c));
    OtherEventsConcat(rows, b, c);
    SkipHead(rows, x, b + c);
    OtherEventsConcat(rows, a, [x] + (b + c));
  }

  lemma SkipHead(rows: map<EventId, Row>, x: EventId, l: seq<EventId>)
    requires Covers(rows, l) && x in rows && rows[x].action == Approved
    ensures Covers(rows, [x] + l) && OtherEvents(rows, [x] + l) == OtherEvents(rows, l)
  {
    assert ([x] + l)[1..] == l;
  }

  lemma MoveParts(l: seq<EventId>, i: nat, j: nat)
    requires i < j < |l|
    ensures l == l[..i] + (l[i..j] + ([l[j]] + l[j + 1..]))
    ensures Move(l, i, j) == l[..i] + ([l[j]] + (l[i..j] + l[j + 1..]))
  {
  }

  /** Moving an approval does not disturb the other events. */
  lemma MoveKeepsOthers(rows: map<EventId, Row>, l: seq<EventId>, i: nat, j: nat)
    requires i < j < |l| && Covers(rows, l) && rows[l[j]].action == Approved
    ensures Covers(rows, Move(l, i, j)) && OtherEvents(rows, Move(l, i, j)) == OtherEvents(rows, l)
  {
    MoveParts(l, i, j);
    ApprovalIsSkipped(rows, l[..i], l[i..j], l[j], l[j + 1..]);
  }

  lemma MoveKeepsMembers(l: seq<EventId>, i: nat, j: nat)
    requires i < j < |l|
    ensures forall a :: a in Move(l, i, j) <==> a in l
  {
    var m := Move(l, i, j);
    forall a | a in l ensures a in m {
      var k :| 0 <= k < |l| && l[k] == a;
      assert a == m[if k < i || k > j then k else if k == j then i else k + 1];
    }
  }

  lemma MoveDistinct(l: seq<EventId>, i: nat, j: nat)
    requires i < j < |l| && forall a, b | 0 <= a < b < |l| :: l[a] != l[b]
    ensures var m := Move(l, i, j); forall a, b | 0 <= a < b < |m| :: m[a] != m[b]
  {
  }

  /** A publication with a recorded cause: an approval of the same record with a smaller
      number. */
  ghost predicate LinkOk(rows: map<EventId, Row>, numbers: map<EventId, nat>, p: EventId)
    requires p in rows && p in numbers
  {
    rows[p].causedBy.Some? ==>
      var a := rows[p].causedBy.value;
      && a in rows && a in numbers && rows[a].action == Approved
      && rows[a].subject == rows[p].subject && numbers[a] < numbers[p]
  }

  ghost predicate LinksOk(rows: map<EventId, Row>, numbers: map<EventId, nat>) {
    forall p {:trigger LinkOk(rows, numbers, p)} | p in rows && p in numbers && rows[p].action == Published ::
      LinkOk(rows, numbers, p)
  }

  /** The approval takes the number of the publication, which goes up by one like everything
      up to where the approval was; an approval that came first stays where it is. */
  ghost predicate PutInFront(before: map<EventId, nat>, after: map<EventId, nat>, approval: EventId,
                             publication: EventId) {
    && approval in before && publication in before && after.Keys == before.Keys
    && forall a | a in before ::
         after[a] == if before[approval] < before[publication] then before[a]
                     else if a == approval then before[publication]
                     else if before[publication] <= before[a] < before[approval] then before[a] + 1
                     else before[a]
  }

  /** Numbers of events other than approvals did not get smaller. */
  ghost predicate OthersRise(rows: map<EventId, Row>, before: map<EventId, nat>, after: map<EventId, nat>) {
    forall a | a in rows && a in before && a in after && rows[a].action != Approved :: before[a] <= after[a]
  }

  /** Where the event numbered `k + 1` ends up. */
  ghost predicate MovedNumber(before: map<EventId, nat>, after: map<EventId, nat>, i: nat, j: nat, a: EventId) {
    a in before && a in after
    && after[a] == if before[a] == j + 1 then i + 1
                   else if i + 1 <= before[a] <= j then before[a] + 1 else before[a]
  }

  lemma MovedNumbers(before: map<EventId, nat>, l: seq<EventId>, after: map<EventId, nat>, i: nat, j: nat, a: EventId)
    requires i < j < |l| && NumbersOf(before, l) && NumbersOf(after, Move(l, i, j)) && a in before
    ensures MovedNumber(before, after, i, j, a) && 1 <= before[a] <= |l| && l[before[a] - 1] == a
  {
    assert PlaceOk(before, l, a);
    var k := before[a] - 1;
    var k' := if k < i || k > j then k else if k == j then i else k + 1;
    assert Move(l, i, j)[k'] == a;
    assert SlotOk(after, Move(l, i, j), k');
  }

  /** Moving an approval forward keeps every existing link and only raises the numbers of
      other events. */
  lemma MoveKeepsLinks(rows: map<EventId, Row>, before: map<EventId, nat>, l: seq<EventId>,
                       after: map<EventId, nat>, i: nat, j: nat)
    requires i < j < |l| && NumbersOf(before, l) && NumbersOf(after, Move(l, i, j))
    requires rows.Keys == before.Keys && l[j] in rows && rows[l[j]].action == Approved
    requires LinksOk(rows, before)
    ensures LinksOk(rows, after) && OthersRise(rows, before, after)
  {
    forall p | p in rows && p in after && rows[p].action == Published ensures LinkOk(rows, after, p) {
      assert LinkOk(rows, before, p);
      MovedNumbers(before, l, after, i, j, p);
      if rows[p].causedBy.Some? {
        MovedNumbers(before, l, after, i, j, rows[p].causedBy.value);
      }
    }
    forall a | a in rows && a in before && a in after && rows[a].action != Approved ensures before[a] <= after[a] {
      MovedNumbers(before, l, after, i, j, a);
    }
  }

  // ---- one step of the repair ----

  /** What repairing one publication may change: its own cause, new approvals of the same
      record, and the numbers, where only approvals may move forward. */
  ghost predicate Repairs(rows: map<EventId, Row>, numbers: map<EventId, nat>, order: seq<EventId>,
                          rows': map<EventId, Row>, numbers': map<EventId, nat>, order': seq<EventId>, p: EventId) {
    && p in rows && (forall a | a in rows :: a in rows' && a in numbers')
    && (forall a | a in rows && a != p :: rows'[a] == rows[a])
    && rows'[p].action == rows[p].action && rows'[p].subject == rows[p].subject && rows'[p].causedBy.Some?
    && (forall a | a in rows' && a !in rows :: rows'[a] == Row(Approved, rows[p].subject, None))
    && OthersRise(rows, numbers, numbers')
    && Covers(rows, order) && Covers(rows', order') && OtherEvents(rows', order') == OtherEvents(rows, order)
  }

  lemma AppendApproval(rows: map<EventId, Row>, order: seq<EventId>, x: EventId, row: Row)
    requires Covers(rows, order) && x !in rows && row.action == Approved
    ensures Covers(rows[x := row], order + [x])
    ensures OtherEvents(rows[x := row], order + [x]) == OtherEvents(rows, order)
  {
    var rows' := rows[x := row];
    OtherEventsConcat(rows', order, [x]);
    assert OtherEvents(rows', [x]) == [];
    OtherEventsSame(rows, rows', order);
  }

  lemma AppendNumber(numbers: map<EventId, nat>, order: seq<EventId>, x: EventId)
    requires NumbersOf(numbers, order) && x !in numbers
    ensures NumbersOf(numbers[x := |order| + 1], order + [x])
  {
    var numbers', order' := numbers[x := |order| + 1], order + [x];
    forall i: nat | i < |order'| ensures SlotOk(numbers', order', i) {
      if i < |order| {
        assert SlotOk(numbers, order, i);
      }
    }
    forall a | a in numbers' ensures PlaceOk(numbers', order', a) {
      if a != x {
        assert PlaceOk(numbers, order, a);
      }
    }
  }

  lemma AppendKeepsLinks(rows: map<EventId, Row>, numbers: map<EventId, nat>, x: EventId, row: Row, n: nat)
    requires LinksOk(rows, numbers) && x !in rows && x !in numbers && row.action == Approved
    ensures LinksOk(rows[x := row], numbers[x := n])
  {
    var rows', numbers' := rows[x := row], numbers[x := n];
    forall p | p in rows' && p in numbers' && rows'[p].action == Published ensures LinkOk(rows', numbers', p) {
      assert LinkOk(rows, numbers, p);
    }
  }

  lemma OrderPermutes(numbers: map<EventId, nat>, order: seq<EventId>)
    requires NumbersOf(numbers, order)
    ensures Permutes(numbers, order)
  {
    forall i: nat | i < |order| ensures order[i] in numbers && numbers[order[i]] == i + 1 {
      assert SlotOk(numbers, order, i);
    }
    forall a | a in numbers ensures a in order {
      assert PlaceOk(numbers, order, a);
    }
  }

  lemma MovePermutes(numbers: map<EventId, nat>, l: seq<EventId>, i: nat, j: nat)
    requires NumbersOf(numbers, l) && i < j < |l|
    ensures Permutes(numbers, Move(l, i, j))
  {
    OrderPermutes(numbers, l);
    MoveKeepsMembers(l, i, j);
    MoveDistinct(l, i, j);
  }

  lemma IndexIsNumber(numbers: map<EventId, nat>, l: seq<EventId>, a: EventId)
    requires NumbersOf(numbers, l) && a in numbers
    ensures a in l && Index(l, a) + 1 == numbers[a] <= |l|
  {
    assert PlaceOk(numbers, l, a);
    assert SlotOk(numbers, l, Index(l, a));
  }

  lemma MoveRenumbers(before: map<EventId, nat>, l: seq<EventId>, after: map<EventId, nat>, i: nat, j: nat)
    requires i < j < |l| && NumbersOf(before, l) && NumbersOf(after, Move(l, i, j))
    ensures PutInFront(before, after, l[j], l[i])
  {
    assert SlotOk(before, l, i) && SlotOk(before, l, j);
    forall a | a in before
      ensures MovedNumber(before, after, i, j, a) && (before[a] == j + 1 ==> a == l[j])
    {
      MovedNumbers(before, l, after, i, j, a);
    }
    OrderPermutes(after, Move(l, i, j));
    MoveKeepsMembers(l, i, j);
    OrderPermutes(before, l);
    forall a ensures a in after <==> a in before {
      if a in after {
        assert PlaceOk(after, Move(l, i, j), a);
      }
    }
  }

  /** Everything the move of an approval keeps, for the table before and after it. */
  lemma MoveSummary(rows: map<EventId, Row>, before: map<EventId, nat>, l: seq<EventId>, after: map<EventId, nat>,
                    i: nat, j: nat)
    requires i < j < |l| && NumbersOf(before, l) && NumbersOf(after, Move(l, i, j))
    requires rows.Keys == before.Keys && LinksOk(rows, before) && Covers(rows, l)
    requires rows[l[j]].action == Approved
    ensures LinksOk(rows, after) && OthersRise(rows, before, after)
    ensures l[i] in after && l[j] in after && after[l[j]] < after[l[i]]
    ensures PutInFront(before, after, l[j], l[i])
    ensures Covers(rows, Move(l, i, j)) && OtherEvents(rows, Move(l, i, j)) == OtherEvents(rows, l)
  {
    assert SlotOk(before, l, i) && SlotOk(before, l, j);
    MovedNumbers(before, l, after, i, j, l[j]);
    MovedNumbers(before, l, after, i, j, l[i]);
    MoveRenumbers(before, l, after, i, j);
    MoveKeepsLinks(rows, before, l, after, i, j);
    MoveKeepsOthers(rows, l, i, j);
  }

  /** Recording a cause that is an earlier approval of the same record. */
  lemma RecordCause(rows: map<EventId, Row>, numbers: map<EventId, nat>, order: seq<EventId>, p: EventId, a: EventId)
    requires LinksOk(rows, numbers) && p in rows && p in numbers && a in rows && a in numbers && Covers(rows, order)
    requires rows[p].action == Published && rows[a].action == Approved && rows[a].subject == rows[p].subject
    requires numbers[a] < numbers[p]
    ensures var rows' := rows[p := rows[p].(causedBy := Some(a))];
            LinksOk(rows', numbers) && Covers(rows', order) && OtherEvents(rows', order) == OtherEvents(rows, order)
  {
    var rows' := rows[p := rows[p].(causedBy := Some(a))];
    OtherEventsSame(rows, rows', order);
    forall q | q in rows' && q in numbers && rows'[q].action == Published ensures LinkOk(rows', numbers, q) {
      assert LinkOk(rows, numbers, q);
    }
  }

  /** Only approvals of one record were added. */
  ghost predicate Adds(rows: map<EventId, Row>, numbers: map<EventId, nat>, order: seq<EventId>,
                       rows': map<EventId, Row>, numbers': map<EventId, nat>, order': seq<EventId>, subject: nat) {
    && (forall a | a in rows :: a in rows' && rows'[a] == rows[a])
    && (forall a | a in numbers :: a in numbers' && numbers'[a] == numbers[a])
    && (forall a | a in rows' && a !in rows :: rows'[a] == Row(Approved, subject, None))
    && Covers(rows, order) && Covers(rows', order') && OtherEvents(rows', order') == OtherEvents(rows, order)
  }

  /** The publications that have no cause yet. */
  ghost function Unattributed(rows: map<EventId, Row>): set<EventId> {
    set p | p in rows && rows[p].action == Published && rows[p].causedBy.None?
  }

  /** The cause that was recorded is the right one, and the only numbers that changed are
      those that changed by putting it, a new one from behind the last, in front. */
  ghost predicate Attributed(rows: map<EventId, Row>, numbers: map<EventId, nat>, order: seq<EventId>, p: Snapshot,
                             rows': map<EventId, Row>, numbers': map<EventId, nat>) {
    && p.id in rows && p.id in rows' && rows'[p.id].causedBy.Some?
    && var cause := rows'[p.id].causedBy.value;
       && RightCause(rows, numbers, rows[p.id].subject, p.number, cause)
       && PutInFront(if cause in rows then numbers else numbers[cause := |order| + 1], numbers', cause, p.id)
  }

  lemma RepairsCompose(rows: map<EventId, Row>, numbers: map<EventId, nat>, order: seq<EventId>,
                       rows1: map<EventId, Row>, numbers1: map<EventId, nat>, order1: seq<EventId>,
                       numbers2: map<EventId, nat>, order2: seq<EventId>, p: EventId, a: EventId)
    requires p in rows && rows[p].action == Published
    requires rows.Keys == numbers.Keys && rows1.Keys == numbers1.Keys == numbers2.Keys
    requires Adds(rows, numbers, order, rows1, numbers1, order1, rows[p].subject)
    requires OthersRise(rows1, numbers1, numbers2)
    requires Covers(rows1, order2) && OtherEvents(rows1, order2) == OtherEvents(rows1, order1)
    requires Covers(rows1[p := rows1[p].(causedBy := Some(a))], order2)
             && OtherEvents(rows1[p := rows1[p].(causedBy := Some(a))], order2) == OtherEvents(rows1, order2)
    ensures Repairs(rows, numbers, order, rows1[p := rows1[p].(causedBy := Some(a))], numbers2, order2, p)
  {
  }

  /** One publication less to attribute. */
  lemma RepairsAttribute(rows: map<EventId, Row>, numbers: map<EventId, nat>, order: seq<EventId>,
                         rows': map<EventId, Row>, numbers': map<EventId, nat>, order': seq<EventId>, p: EventId)
    requires Repairs(rows, numbers, order, rows', numbers', order', p)
    ensures Unattributed(rows') == Unattributed(rows) - {p}
  {
  }

  /** Creating or choosing the approval, putting it in front and recording it, together. */
  lemma StepsRepair(rows: map<EventId, Row>, numbers: map<EventId, nat>, order: seq<EventId>,
                    rows1: map<EventId, Row>, numbers1: map<EventId, nat>, order1: seq<EventId>,
                    numbers2: map<EventId, nat>, order2: seq<EventId>, p: EventId, a: EventId)
    requires p in rows && rows[p].action == Published
    requires rows.Keys == numbers.Keys && rows1.Keys == numbers1.Keys == numbers2.Keys
    requires Adds(rows, numbers, order, rows1, numbers1, order1, rows[p].subject)
    requires OthersRise(rows1, numbers1, numbers2) && LinksOk(rows1, numbers2)
    requires Covers(rows1, order1) && Covers(rows1, order2)
    requires OtherEvents(rows1, order2) == OtherEvents(rows1, order1)
    requires a in rows1 && rows1[a].action == Approved && rows1[a].subject == rows[p].subject
    requires numbers2[a] < numbers2[p]
    ensures var rows2 := rows1[p := rows1[p].(causedBy := Some(a))];
            LinksOk(rows2, numbers2) && Repairs(rows, numbers, order, rows2, numbers2, order2, p)
  {
    RecordCause(rows1, numbers2, order2, p, a);
    RepairsCompose(rows, numbers, order, rows1, numbers1, order1, numbers2, order2, p, a);
  }

  /** The approval is the right cause, and no number has changed but that of a new one. */
  ghost predicate ChosenFor(rows: map<EventId, Row>, numbers: map<EventId, nat>, order: seq<EventId>, p: Snapshot,
                            a: EventId, numbers1: map<EventId, nat>) {
    && p.id in rows && RightCause(rows, numbers, rows[p.id].subject, p.number, a)
    && numbers1 == if a in rows then numbers else numbers[a := |order| + 1]
  }

  // ---- the whole repair ----

  ghost predicate SnapshotOf(rows: map<EventId, Row>, numbers: map<EventId, nat>, s: Snapshot) {
    && s.id in rows && s.id in numbers && rows[s.id].action == Published
    && s.number == numbers[s.id] && s.causedBy == rows[s.id].causedBy
  }

  ghost predicate Listed(listed: seq<Snapshot>, p: EventId) {
    exists k :: 0 <= k < |listed| && listed[k].id == p
  }

  lemma ListMore(listed: seq<Snapshot>, s: Snapshot)
    ensures forall p | Listed(listed, p) || p == s.id :: Listed(listed + [s], p)
  {
    forall p | Listed(listed, p) || p == s.id ensures Listed(listed + [s], p) {
      if p == s.id {
        assert (listed + [s])[|listed|].id == p;
      } else {
        var k :| 0 <= k < |listed| && listed[k].id == p;
        assert (listed + [s])[k].id == p;
      }
    }
  }

  ghost predicate DistinctIds(listed: seq<Snapshot>) {
    forall i, j | 0 <= i < j < |listed| :: listed[i].id != listed[j].id
  }

  /** The publications in `l`, in order. */
  function Snapshots(rows: map<EventId, Row>, numbers: map<EventId, nat>, l: seq<EventId>): seq<Snapshot>
    requires forall a | a in l :: a in rows && a in numbers
  {
    if l == [] then []
    else
      var a := l[|l| - 1];
      Snapshots(rows, numbers, l[..|l| - 1])
      + (if rows[a].action == Published then [Snapshot(a, numbers[a], rows[a].causedBy)] else [])
  }

  ghost predicate ByNumber(listed: seq<Snapshot>) {
    forall i, j | 0 <= i < j < |listed| :: listed[i].number < listed[j].number
  }

  /** Every publication once, as it is now, by ascending number. */
  ghost predicate Lists(rows: map<EventId, Row>, numbers: map<EventId, nat>, listed: seq<Snapshot>) {
    && ByNumber(listed)
    && (forall k | 0 <= k < |listed| :: SnapshotOf(rows, numbers, listed[k]))
    && (forall p | p in rows && rows[p].action == Published :: Listed(listed, p))
    && DistinctIds(listed)
  }

  lemma {:induction false} SnapshotsAre(rows: map<EventId, Row>, numbers: map<EventId, nat>, order: seq<EventId>,
                                        k: nat)
    requires rows.Keys == numbers.Keys && NumbersOf(numbers, order) && k <= |order|
    requires forall a | a in order :: a in rows
    ensures var listed := Snapshots(rows, numbers, order[..k]);
            && ByNumber(listed)
            && (forall i | 0 <= i < |listed| :: SnapshotOf(rows, numbers, listed[i]) && listed[i].number <= k)
            && (forall i | 0 <= i < k && rows[order[i]].action == Published :: Listed(listed, order[i]))
  {
    if k > 0 {
      SnapshotsAre(rows, numbers, order, k - 1);
      assert order[..k][..k - 1] == order[..k - 1];
      assert SlotOk(numbers, order, k - 1);
      var a := order[k - 1];
      var before := Snapshots(rows, numbers, order[..k - 1]);
      ListMore(before, Snapshot(a, numbers[a], rows[a].causedBy));
      assert before + [] == before;
    }
  }

  lemma SnapshotsList(rows: map<EventId, Row>, numbers: map<EventId, nat>, order: seq<EventId>)
    requires rows.Keys == numbers.Keys && NumbersOf(numbers, order)
    requires forall a | a in order :: a in rows
    ensures Lists(rows, numbers, Snapshots(rows, numbers, order))
  {
    var listed := Snapshots(rows, numbers, order);
    SnapshotsAre(rows, numbers, order, |order|);
    assert order[..|order|] == order;
    forall p | p in rows && rows[p].action == Published ensures Listed(listed, p) {
      assert PlaceOk(numbers, order, p);
      assert Listed(listed, order[numbers[p] - 1]);
    }
    forall i, j | 0 <= i < j < |listed| ensures listed[i].id != listed[j].id {
      assert SnapshotOf(rows, numbers, listed[i]) && SnapshotOf(rows, numbers, listed[j]);
    }
  }

  /** What the repair never changes: existing events and their recorded causes; it adds
      nothing but approvals, and events other than approvals keep their relative order and
      never get smaller numbers. */
  ghost predicate Keeps(rows: map<EventId, Row>, numbers: map<EventId, nat>, order: seq<EventId>,
                        rows': map<EventId, Row>, numbers': map<EventId, nat>, order': seq<EventId>) {
    && (forall a | a in rows :: a in rows' && a in numbers' && Kept(rows[a], rows'[a]))
    && (forall a | a in rows' && a !in rows :: rows'[a].action == Approved)
    && OthersRise(rows, numbers, numbers')
    && Covers(rows, order) && Covers(rows', order') && OtherEvents(rows', order') == OtherEvents(rows, order)
  }

  ghost predicate Kept(row: Row, row': Row) {
    row'.action == row.action && row'.subject == row.subject
    && (row.causedBy.Some? || row.action != Published ==> row' == row)
  }

  /** The first `k` listed publications have a cause, the others are as listed. */
  ghost predicate Pending(numbers: map<EventId, nat>, rows': map<EventId, Row>, listed: seq<Snapshot>, k: nat) {
    && (forall i | 0 <= i < |listed| ::
          listed[i].id in rows' && listed[i].id in numbers && listed[i].number == numbers[listed[i].id])
    && (forall i | 0 <= i < k && i < |listed| :: rows'[listed[i].id].causedBy.Some?)
    && (forall i | k <= i < |listed| :: rows'[listed[i].id].causedBy == listed[i].causedBy)
  }

  /** The listed number of a publication is never above its true number. */
  lemma StillStale(rows: map<EventId, Row>, numbers: map<EventId, nat>, order: seq<EventId>,
                   rows': map<EventId, Row>, numbers': map<EventId, nat>, order': seq<EventId>,
                   listed: seq<Snapshot>, k: nat)
    requires Keeps(rows, numbers, order, rows', numbers', order') && Lists(rows, numbers, listed) && k < |listed|
    ensures var p := listed[k]; p.id in rows' && p.id in numbers' && rows'[p.id].action == Published
                                && p.number <= numbers'[p.id]
  {
    assert SnapshotOf(rows, numbers, listed[k]);
  }

  lemma KeepsMore(rows: map<EventId, Row>, numbers: map<EventId, nat>, order: seq<EventId>,
                  rows1: map<EventId, Row>, numbers1: map<EventId, nat>, order1: seq<EventId>,
                  rows2: map<EventId, Row>, numbers2: map<EventId, nat>, order2: seq<EventId>, p: EventId)
    requires Keeps(rows, numbers, order, rows1, numbers1, order1) && rows1.Keys == numbers1.Keys
    requires p in rows1 && rows1[p].action == Published && rows1[p].causedBy.None?
    requires Repairs(rows1, numbers1, order1, rows2, numbers2, order2, p)
    ensures Keeps(rows, numbers, order, rows2, numbers2, order2)
  {
    forall a | a in rows && a in numbers && a in numbers2 && rows[a].action != Approved
      ensures numbers[a] <= numbers2[a]
    {
      assert a in rows1 && Kept(rows[a], rows1[a]) && a in numbers1;
      assert numbers[a] <= numbers1[a] <= numbers2[a];
    }
    forall a | a in rows ensures a in rows2 && a in numbers2 && Kept(rows[a], rows2[a]) {
      assert a in rows1 && Kept(rows[a], rows1[a]);
    }
  }

  lemma PendingMore(rows: map<EventId, Row>, numbers: map<EventId, nat>,
                    rows1: map<EventId, Row>, numbers1: map<EventId, nat>, order1: seq<EventId>,
                    rows2: map<EventId, Row>, numbers2: map<EventId, nat>, order2: seq<EventId>,
                    listed: seq<Snapshot>, k: nat)
    requires Pending(numbers, rows1, listed, k) && k < |listed| && DistinctIds(listed)
    requires Repairs(rows1, numbers1, order1, rows2, numbers2, order2, listed[k].id)
    ensures Pending(numbers, rows2, listed, k + 1)
  {
  }

  lemma AllCaused(rows: map<EventId, Row>, numbers: map<EventId, nat>, order: seq<EventId>,
                  rows': map<EventId, Row>, numbers': map<EventId, nat>, order': seq<EventId>, listed: seq<Snapshot>)
    requires Lists(rows, numbers, listed) && Pending(numbers, rows', listed, |listed|)
    requires Keeps(rows, numbers, order, rows', numbers', order')
    ensures forall p | p in rows' && rows'[p].action == Published :: rows'[p].causedBy.Some?
  {
    forall p | p in rows' && rows'[p].action == Published ensures rows'[p].causedBy.Some? {
      assert p in rows && Kept(rows[p], rows'[p]);
      assert Listed(listed, p);
      var k :| 0 <= k < |listed| && listed[k].id == p;
    }
  }

  /** How far the repair is after the first `k` listed publications; every approval that was
      added stands for a publication that got its cause. */
  ghost predicate Progress(rows: map<EventId, Row>, numbers: map<EventId, nat>, order: seq<EventId>,
                           rows': map<EventId, Row>, numbers': map<EventId, nat>, order': seq<EventId>,
                           listed: seq<Snapshot>, k: nat) {
    && Keeps(rows, numbers, order, rows', numbers', order') && Pending(numbers, rows', listed, k)
    && |order'| + |Unattributed(rows')| <= |order| + |Unattributed(rows)|
  }

  lemma ProgressMore(rows: map<EventId, Row>, numbers: map<EventId, nat>, order: seq<EventId>,
                     rows1: map<EventId, Row>, numbers1: map<EventId, nat>, order1: seq<EventId>,
                     rows2: map<EventId, Row>, numbers2: map<EventId, nat>, order2: seq<EventId>,
                     listed: seq<Snapshot>, k: nat)
    requires Progress(rows, numbers, order, rows1, numbers1, order1, listed, k) && rows1.Keys == numbers1.Keys
    requires k < |listed| && DistinctIds(listed) && listed[k].id in Unattributed(rows1)
    requires Repairs(rows1, numbers1, order1, rows2, numbers2, order2, listed[k].id)
    requires |order2| <= |order1| + 1
    ensures Progress(rows, numbers, order, rows2, numbers2, order2, listed, k + 1)
  {
    var p := listed[k].id;
    KeepsMore(rows, numbers, order, rows1, numbers1, order1, rows2, numbers2, order2, p);
    PendingMore(rows, numbers, rows1, numbers1, order1, rows2, numbers2, order2, listed, k);
    RepairsAttribute(rows1, numbers1, order1, rows2, numbers2, order2, p);
    assert |Unattributed(rows2)| == |Unattributed(rows1)| - 1;
  }

  /** A publication that is still without a cause leaves room for one more event. */
  lemma RoomForOne(rows: map<EventId, Row>, p: EventId)
    requires p in Unattributed(rows)
    ensures |Unattributed(rows)| >= 1
  {
    assert Unattributed(rows) == Unattributed(rows) - {p} + {p};
  }

  class HistoryLog {
    var rows: map<EventId, Row>
    var numbers: map<EventId, nat>
    var nextId: EventId
    ghost var order: seq<EventId>

    ghost predicate Valid()
      reads this
    {
      && rows.Keys == numbers.Keys && NumbersOf(numbers, order)
      && (forall a | a in rows :: a < nextId)
    }

    /** The query `order_by("sequence")`. */
    method InOrder() returns (l: seq<EventId>)
      requires Valid()
      ensures l == order && Permutes(numbers, l) && Covers(rows, l)
    {
      l := [];
      while exists a | a in numbers :: numbers[a] == |l| + 1
        invariant |l| <= |order| && l == order[..|l|]
        decreases |order| - |l|
      {
        var a :| a in numbers && numbers[a] == |l| + 1;
        assert PlaceOk(numbers, order, a);
        l := l + [a];
      }
      assert |l| < |order| ==> SlotOk(numbers, order, |l|);
      OrderPermutes(numbers, order);
    }

    /** A new approval with the next free number. */
    method CreateApproval(subject: nat) returns (id: EventId)
      requires Valid() && LinksOk(rows, numbers)
      modifies this
      ensures Valid() && LinksOk(rows, numbers) && id !in old(rows)
      ensures rows == old(rows)[id := Row(Approved, subject, None)] && order == old(order) + [id]
      ensures numbers == old(numbers)[id := |order|]
    {
      var listed := InOrder();
      var latest := if listed == [] then 0 else numbers[listed[|listed| - 1]];
      assert listed != [] ==> SlotOk(numbers, order, |order| - 1);
      id := nextId;
      AppendNumber(numbers, order, id);
      AppendKeepsLinks(rows, numbers, id, Row(Approved, subject, None), |order| + 1);
      rows := rows[id := Row(Approved, subject, None)];
      numbers := numbers[id := latest + 1];
      nextId := nextId + 1;
      order := order + [id];
    }

    /** `remove`, `insert` and renumber: the approval at `j` goes in front of the event at
        `i`, unless renumbering raises. */
    method MoveBefore(ordered: seq<EventId>, i: nat, j: nat) returns (ok: bool)
      requires Valid() && LinksOk(rows, numbers) && ordered == order && i < j < |order|
      requires Covers(rows, order) && rows[order[j]].action == Approved
      modifies this`numbers, this`order
      ensures Valid() && LinksOk(rows, numbers) && OthersRise(rows, old(numbers), numbers)
      ensures |order| == |old(order)|
      ensures ok ==> numbers[ordered[j]] < numbers[ordered[i]]
      ensures ok ==> PutInFront(old(numbers), numbers, ordered[j], ordered[i])
      ensures Covers(rows, order) && OtherEvents(rows, order) == OtherEvents(rows, ordered)
      ensures |order| <= OFFSET ==> ok
    {
      var moved := Move(ordered, i, j);
      MovePermutes(numbers, ordered, i, j);
      var after := Resequence(numbers, order, moved);
      if after.None? {
        return false;
      }
      MoveSummary(rows, numbers, ordered, after.value, i, j);
      numbers, order := after.value, moved;
      return true;
    }

    /** Move the approval in front of the publication if it comes later. */
    method PutBefore(approval: EventId, publication: EventId) returns (ok: bool)
      requires Valid() && LinksOk(rows, numbers)
      requires approval in rows && rows[approval].action == Approved
      requires publication in rows && rows[publication].action != Approved
      modifies this`numbers, this`order
      ensures Valid() && LinksOk(rows, numbers) && |order| == |old(order)|
      ensures ok ==> numbers[approval] < numbers[publication]
      ensures Covers(rows, order) && Covers(rows, old(order))
      ensures OtherEvents(rows, order) == OtherEvents(rows, old(order))
      ensures OthersRise(rows, old(numbers), numbers)
      ensures ok ==> PutInFront(old(numbers), numbers, approval, publication)
      ensures old(numbers)[approval] < old(numbers)[publication] ==> ok
      ensures |order| <= OFFSET ==> ok
    {
      var ordered := InOrder();
      IndexIsNumber(numbers, ordered, approval);
      IndexIsNumber(numbers, ordered, publication);
      var i, j := Index(ordered, publication), Index(ordered, approval);
      ok := true;
      if i < j {
        ok := MoveBefore(ordered, i, j);
      }
    }

    /** Attribute one publication: to the last approval numbered below its listed number, or
        the first one, or a new one. An approval that was numbered below needs no move,
        because the listed number is never above the true one. It can raise only if there
        are then more than 1,000,000 events. */
    method RepairOne(p: Snapshot) returns (ok: bool)
      requires Valid() && LinksOk(rows, numbers)
      requires p.id in rows && rows[p.id].action == Published && rows[p.id].causedBy.None?
      requires p.number <= numbers[p.id]
      modifies this
      ensures Valid() && |order| <= |old(order)| + 1
      ensures ok ==> LinksOk(rows, numbers)
      ensures ok ==> Repairs(old(rows), old(numbers), old(order), rows, numbers, order, p.id)
      ensures ok ==> Attributed(old(rows), old(numbers), old(order), p, rows, numbers)
      ensures |old(order)| < OFFSET ==> ok
    {
      ghost var rows0, numbers0, order0 := rows, numbers, order;
      var approval := ApprovalFor(p);
      ghost var numbers1, order1 := numbers, order;
      ok := PutBefore(approval, p.id);
      if ok {
        StepsRepair(rows0, numbers0, order0, rows, numbers1, order1, numbers, order, p.id, approval);
        SetCause(p.id, approval);
      }
    }

    /** The cause of one event. */
    method SetCause(id: EventId, cause: EventId)
      requires Valid() && id in rows
      modifies this`rows
      ensures Valid() && rows == old(rows)[id := old(rows)[id].(causedBy := Some(cause))]
    {
      rows := rows[id := rows[id].(causedBy := Some(cause))];
    }

    /** The approval to attribute a publication to. */
    method ApprovalFor(p: Snapshot) returns (approval: EventId)
      requires Valid() && LinksOk(rows, numbers)
      requires p.id in rows && rows[p.id].action == Published
      modifies this
      ensures Valid() && LinksOk(rows, numbers) && |order| <= |old(order)| + 1
      ensures Adds(old(rows), old(numbers), old(order), rows, numbers, order, old(rows)[p.id].subject)
      ensures approval in rows && rows[approval].action == Approved
      ensures rows[approval].subject == old(rows)[p.id].subject
      ensures ChosenFor(old(rows), old(numbers), old(order), p, approval, numbers)
    {
      var listed := InOrder();
      var subject := rows[p.id].subject;
      ChooseIsRight(rows, numbers, listed, subject, p.number);
      var choice := Choose(rows, numbers, listed, subject, p.number);
      approval := FindOrCreate(choice, subject);
    }

    method FindOrCreate(choice: Option<EventId>, subject: nat) returns (approval: EventId)
      requires Valid() && LinksOk(rows, numbers)
      requires choice.Some? ==>
                 choice.value in rows && rows[choice.value].action == Approved && rows[choice.value].subject == subject
      modifies this
      ensures Valid() && LinksOk(rows, numbers)
      ensures Adds(old(rows), old(numbers), old(order), rows, numbers, order, subject)
      ensures approval in rows && rows[approval].action == Approved && rows[approval].subject == subject
      ensures if choice.Some? then approval == choice.value && rows == old(rows) && numbers == old(numbers)
              else approval !in old(rows) && numbers == old(numbers)[approval := |old(order)| + 1]
      ensures |order| <= |old(order)| + 1
    {
      if choice.Some? {
        OrderPermutes(numbers, order);
        return choice.value;
      }
      OrderPermutes(numbers, order);
      approval := CreateApproval(subject);
      AppendApproval(old(rows), old(order), approval, Row(Approved, subject, None));
    }

    /** The publications with their current numbers, in order. */
    method Publications() returns (listed: seq<Snapshot>)
      requires Valid()
      ensures Lists(rows, numbers, listed)
    {
      var ordered := InOrder();
      listed := [];
      for k := 0 to |ordered|
        invariant listed == Snapshots(rows, numbers, ordered[..k])
      {
        assert ordered[..k + 1][..k] == ordered[..k];
        var a := ordered[k];
        if rows[a].action == Published {
          listed := listed + [Snapshot(a, numbers[a], rows[a].causedBy)];
        }
      }
      SnapshotsList(rows, numbers, ordered);
      assert ordered[..|ordered|] == ordered;
    }

    /** The loop over the listed publications. */
    method RepairAll() returns (ok: bool)
      requires Valid() && LinksOk(rows, numbers)
      modifies this
      ensures ok ==> Valid() && LinksOk(rows, numbers)
      ensures ok ==> forall p | p in rows && rows[p].action == Published :: rows[p].causedBy.Some?
      ensures ok ==> Keeps(old(rows), old(numbers), old(order), rows, numbers, order)
      ensures |old(order)| + |Unattributed(old(rows))| <= OFFSET ==> ok
    {
      ghost var rows0, numbers0, order0 := rows, numbers, order;
      var publications := Publications();
      OrderPermutes(numbers, order);
      for k := 0 to |publications|
        invariant Valid() && LinksOk(rows, numbers)
        invariant Progress(rows0, numbers0, order0, rows, numbers, order, publications, k)
      {
        var p := publications[k];
        StillStale(rows0, numbers0, order0, rows, numbers, order, publications, k);
        if p.causedBy.None? {
          ghost var rows1, numbers1, order1 := rows, numbers, order;
          RoomForOne(rows, p.id);
          var repaired := RepairOne(p);
          if !repaired {
            return false;
          }
          ProgressMore(rows0, numbers0, order0, rows1, numbers1, order1, rows, numbers, order, publications, k);
        }
      }
      AllCaused(rows0, numbers0, order0, rows, numbers, order, publications);
      return true;
    }

    /** `repair_legacy_histories` for one history, in its transaction. Afterwards the numbers
        are again exactly 1 to n, every publication is caused by an earlier approval of the
        same record, links that were there before are kept, and all other events keep their
        relative order. It can raise, and is rolled back, only if the events and the
        publications that may each need a new approval are together more than 1,000,000. */
    method Repair() returns (ok: bool)
      requires Valid() && LinksOk(rows, numbers)
      modifies this
      ensures Valid() && LinksOk(rows, numbers)
      ensures ok ==> forall p | p in rows && rows[p].action == Published :: rows[p].causedBy.Some?
      ensures ok ==> Keeps(old(rows), old(numbers), old(order), rows, numbers, order)
      ensures !ok ==> rows == old(rows) && numbers == old(numbers) && order == old(order)
      ensures |old(order)| + |Unattributed(old(rows))| <= OFFSET ==> ok
    {
      var savedRows, savedNumbers, savedId := rows, numbers, nextId;
      ghost var savedOrder := order;
      ok := RepairAll();
      if !ok {
        rows, numbers, nextId, order := savedRows, savedNumbers, savedId, savedOrder;
      }
    }
  }
}
