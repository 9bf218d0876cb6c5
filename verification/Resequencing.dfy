/** Renumbering the events of one history in place, under a uniqueness constraint that is
    checked after every single assignment: first every number is raised by a fixed offset,
    then the numbers 1 to n are assigned in the new order. A duplicate raises. */
module Resequencing {
  import opened Text

  type EventId = nat

  const OFFSET: nat := 1_000_000

  ghost predicate Unique(numbers: map<EventId, nat>) {
    forall a, b | a in numbers && b in numbers && a != b :: numbers[a] != numbers[b]
  }

  ghost predicate SlotOk(numbers: map<EventId, nat>, order: seq<EventId>, i: nat)
    requires i < |order|
  {
    order[i] in numbers && numbers[order[i]] == i + 1
  }

  ghost predicate PlaceOk(numbers: map<EventId, nat>, order: seq<EventId>, a: EventId)
    requires a in numbers
  {
    1 <= numbers[a] <= |order| && order[numbers[a] - 1] == a
  }

  /** The numbers are exactly 1 to n, in the order of the list. */
  ghost predicate NumbersOf(numbers: map<EventId, nat>, order: seq<EventId>) {
    && (forall i: nat {:trigger SlotOk(numbers, order, i)} | i < |order| :: SlotOk(numbers, order, i))
    && (forall a {:trigger PlaceOk(numbers, order, a)} | a in numbers :: PlaceOk(numbers, order, a))
  }

  /** After the numbers of `done` have been raised. */
  function Raised(numbers: map<EventId, nat>, done: set<EventId>): map<EventId, nat> {
    map a | a in numbers :: if a in done then numbers[a] + OFFSET else numbers[a]
  }

  /** After all numbers have been raised and the first `k` of `order` assigned. */
  function Assigned(numbers: map<EventId, nat>, order: seq<EventId>, k: nat): map<EventId, nat>
    requires k <= |order|
  {
    if k == 0 then Raised(numbers, numbers.Keys) else Assigned(numbers, order, k - 1)[order[k - 1] := k]
  }

  /** `order.index(a)`, or the length when it is not there. */
  function Index(order: seq<EventId>, a: EventId): (i: nat)
    ensures i <= |order|
    ensures i < |order| ==> order[i] == a
    ensures a in order[..i] ==> false
    ensures a in order ==> i < |order|
  {
    if order == [] then 0
    else if order[0] == a then 0
    else
      var i := 1 + Index(order[1..], a);
      assert order[..i] == [order[0]] + order[1..][..i - 1];
      i
  }

  /** Raising the numbers row by row, in whatever order, never repeats a number: exactly when
      the history has at most 1,000,000 events. */
  lemma RaisingIsSafe(numbers: map<EventId, nat>, order: seq<EventId>)
    requires NumbersOf(numbers, order)
    ensures (forall done :: Unique(Raised(numbers, done))) <==> |order| <= 1_000_000
  {
    if |order| <= OFFSET {
      forall done ensures Unique(Raised(numbers, done)) {
        RaisedIsUnique(numbers, order, done);
      }
    } else {
      var a, b := order[0], order[OFFSET];
      assert SlotOk(numbers, order, 0) && SlotOk(numbers, order, OFFSET);
      var raised := Raised(numbers, {a});
      assert a in raised && b in raised && raised[a] == raised[b];
      assert !Unique(Raised(numbers, {a}));
    }
  }

  lemma RaisedIsUnique(numbers: map<EventId, nat>, order: seq<EventId>, done: set<EventId>)
    requires NumbersOf(numbers, order) && |order| <= OFFSET
    ensures Unique(Raised(numbers, done))
  {
    var raised := Raised(numbers, done);
    forall a, b | a in raised && b in raised && a != b ensures raised[a] != raised[b] {
      assert PlaceOk(numbers, order, a) && PlaceOk(numbers, order, b);
    }
  }

  ghost predicate Permutes(numbers: map<EventId, nat>, order: seq<EventId>) {
    && (forall a :: a in numbers <==> a in order)
    && (forall i, j | 0 <= i < j < |order| :: order[i] != order[j])
  }

  /** The number of one event part of the way through. */
  lemma {:induction false} AssignedNumber(numbers: map<EventId, nat>, order: seq<EventId>, k: nat, a: EventId)
    requires Permutes(numbers, order) && k <= |order| && a in numbers
    ensures Assigned(numbers, order, k).Keys == numbers.Keys
    ensures Assigned(numbers, order, k)[a] == if Index(order, a) < k then Index(order, a) + 1 else numbers[a] + OFFSET
  {
    if k > 0 {
      AssignedNumber(numbers, order, k - 1, a);
      IndexOf(order, k - 1);
      assert order[k - 1] in numbers;
      assert order[Index(order, a)] == a;
    }
  }

  lemma IndexOf(order: seq<EventId>, i: nat)
    requires i < |order| && forall a, b | 0 <= a < b < |order| :: order[a] != order[b]
    ensures Index(order, order[i]) == i
  {
    assert order[Index(order, order[i])] == order[i];
  }

  /** Assigning 1 to n in the new order never repeats a number either, as long as there are at
      most 1,000,000 events. */
  lemma AssigningIsSafe(numbers: map<EventId, nat>, old_: seq<EventId>, order: seq<EventId>, k: nat)
    requires NumbersOf(numbers, old_) && Permutes(numbers, order) && |order| <= OFFSET && k <= |order|
    ensures Unique(Assigned(numbers, order, k))
  {
    var table := Assigned(numbers, order, k);
    forall a, b | a in table && b in table && a != b ensures table[a] != table[b] {
      AssignedKeys(numbers, order, k);
      AssignedNumber(numbers, order, k, a);
      AssignedNumber(numbers, order, k, b);
      assert PlaceOk(numbers, old_, a) && PlaceOk(numbers, old_, b);
      assert order[Index(order, a)] == a && order[Index(order, b)] == b;
    }
  }

  lemma {:induction false} AssignedKeys(numbers: map<EventId, nat>, order: seq<EventId>, k: nat)
    requires Permutes(numbers, order) && k <= |order|
    ensures Assigned(numbers, order, k).Keys == numbers.Keys
  {
    if k > 0 {
      AssignedKeys(numbers, order, k - 1);
      assert order[k - 1] in numbers;
    }
  }

  /** The final numbers are exactly the new order. */
  lemma AllAssigned(numbers: map<EventId, nat>, order: seq<EventId>)
    requires Permutes(numbers, order)
    ensures NumbersOf(Assigned(numbers, order, |order|), order)
  {
    var table := Assigned(numbers, order, |order|);
    AssignedKeys(numbers, order, |order|);
    forall i: nat | i < |order| ensures SlotOk(table, order, i) {
      assert order[i] in numbers;
      IndexOf(order, i);
      AssignedNumber(numbers, order, |order|, order[i]);
    }
    forall a | a in table ensures PlaceOk(table, order, a) {
      assert a in order;
      AssignedNumber(numbers, order, |order|, a);
    }
  }

  ghost function Elements(order: seq<EventId>): (s: set<EventId>)
    ensures forall a :: a in s <==> a in order
  {
    set a | a in order
  }

  lemma {:induction false} DistinctLength(order: seq<EventId>)
    requires forall i, j | 0 <= i < j < |order| :: order[i] != order[j]
    ensures |Elements(order)| == |order|
  {
    if order == [] {
      assert Elements(order) == {};
    } else {
      var init, last := order[..|order| - 1], order[|order| - 1];
      DistinctLength(init);
      assert order == init + [last] && last !in Elements(init);
      assert Elements(order) == Elements(init) + {last};
    }
  }

  /** Two lists of the same events have the same length. */
  lemma SameLength(numbers: map<EventId, nat>, old_: seq<EventId>, order: seq<EventId>)
    requires NumbersOf(numbers, old_) && Permutes(numbers, order)
    ensures |old_| == |order|
  {
    forall i: nat | i < |old_| ensures old_[i] in numbers && numbers[old_[i]] == i + 1 {
      assert SlotOk(numbers, old_, i);
    }
    forall a | a in numbers ensures a in old_ {
      assert PlaceOk(numbers, old_, a);
    }
    DistinctLength(old_);
    DistinctLength(order);
    assert Elements(old_) == Elements(order);
  }

  lemma Duplicate(table: map<EventId, nat>, a: EventId, b: EventId)
    requires a in table && b in table && a != b && table[a] == table[b]
    ensures !Unique(table)
  {
  }

  /** Another row has the number. */
  predicate Taken(table: map<EventId, nat>, a: EventId, n: nat) {
    exists b | b in table :: b != a && table[b] == n
  }

  /** The first UPDATE, one row after the other in an order that nobody fixes. */
  method RaiseAll(numbers: map<EventId, nat>, ghost old_: seq<EventId>) returns (r: Option<map<EventId, nat>>)
    requires NumbersOf(numbers, old_)
    ensures r.Some? ==> r.value == Raised(numbers, numbers.Keys)
    ensures r.None? ==> exists done :: !Unique(Raised(numbers, done))
    ensures |old_| <= OFFSET ==> r.Some?
  {
    var table, pending := numbers, numbers.Keys;
    ghost var done: set<EventId> := {};
    assert table == Raised(numbers, {});
    while pending != {}
      invariant done == numbers.Keys - pending && pending <= numbers.Keys
      invariant table == Raised(numbers, done)
      decreases pending
    {
      var a :| a in pending;
      var n := table[a] + OFFSET;
      assert table[a := n] == Raised(numbers, done + {a});
      RaisingIsSafe(numbers, old_);
      if Taken(table, a, n) {
        var b :| b in table && b != a && table[b] == n;
        Duplicate(table[a := n], a, b);
        return None;
      }
      table, pending := table[a := n], pending - {a};
      done := done + {a};
    }
    assert done == numbers.Keys;
    return Some(table);
  }

  /** `_resequence`: raise, then assign one by one. It raises an error at the first duplicate;
      with at most 1,000,000 events there is none. */
  method Resequence(numbers: map<EventId, nat>, ghost old_: seq<EventId>, order: seq<EventId>)
    returns (r: Option<map<EventId, nat>>)
    requires NumbersOf(numbers, old_) && Permutes(numbers, order)
    ensures r.Some? ==> NumbersOf(r.value, order) && r.value.Keys == numbers.Keys
    ensures |order| <= OFFSET ==> r.Some?
  {
    SameLength(numbers, old_, order);
    var raised := RaiseAll(numbers, old_);
    if raised.None? {
      return None;
    }
    var table := raised.value;
    for k := 0 to |order|
      invariant table == Assigned(numbers, order, k)
    {
      if |order| <= OFFSET {
        AssigningIsSafe(numbers, old_, order, k + 1);
      }
      AssignedKeys(numbers, order, k);
      assert order[k] in table;
      if Taken(table, order[k], k + 1) {
        var b :| b in table && b != order[k] && table[b] == k + 1;
        Duplicate(table[order[k] := k + 1], order[k], b);
        return None;
      }
      table := table[order[k] := k + 1];
    }
    AllAssigned(numbers, order);
    AssignedKeys(numbers, order, |order|);
    return Some(table);
  }
}
