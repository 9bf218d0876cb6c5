/** Where the overlay of a choice filter opens: a run of free grid slots that holds the
    filter's own cell (the anchor) and one slot per option. */
module ChoicePlacement {
  import opened Text

  /** The grid: `rowCount` rows of `columns` slots, numbered row by row from 0, and the slots
      under fixed cells. */
  datatype Layout = Layout(blocked: set<int>, columns: nat, rowCount: nat) {
    predicate Valid() {
      columns >= 1 && rowCount >= 1
    }

    function Capacity(): nat {
      rowCount * columns
    }
  }

  /** A placement; `start` is the first slot of its block. */
  datatype Candidate = Candidate(start: int, anchorSlot: int, anchorDistance: int, blockDistance: real,
                                 optionSlots: seq<int>, rowsAdded: int, splitPenalty: int)

  // ---- slots ----

  function SlotRow(slot: nat, columns: nat): nat
    requires columns >= 1
  {
    slot / columns + 1
  }

  function SlotColumn(slot: nat, columns: nat): nat
    requires columns >= 1
  {
    slot % columns + 1
  }

  /** Every slot has its own cell of the grid, and every cell its slot. */
  lemma SlotPositionRoundTrip(slot: nat, columns: nat, row: nat, column: nat)
    requires columns >= 1 && row >= 1 && 1 <= column <= columns
    ensures 1 <= SlotColumn(slot, columns) <= columns
    ensures (SlotRow(slot, columns) == row && SlotColumn(slot, columns) == column)
            <==> slot == (row - 1) * columns + column - 1
  {
    if slot == (row - 1) * columns + column - 1 {
      QuotientIs(slot, columns, row - 1, column - 1);
    }
  }

  lemma QuotientIs(n: nat, d: nat, q: nat, r: nat)
    requires d >= 1 && n == q * d + r && r < d
    ensures n / d == q && n % d == r
  {
    SameQuotient(n / d, n % d, q, r, d);
  }

  lemma SameQuotient(x: nat, y: nat, q: nat, r: nat, d: nat)
    requires y < d && r < d && x * d + y == q * d + r
    ensures x == q && y == r
  {
    assert (q - x) * d == q * d - x * d && (x - q) * d == x * d - q * d;
    if x < q {
      AtLeastOnce(q - x, d);
    } else if x > q {
      AtLeastOnce(x - q, d);
    }
  }

  lemma AtLeastOnce(k: nat, d: nat)
    requires k >= 1
    ensures k * d >= d
  {
    assert k * d == (k - 1) * d + d;
  }

  /** `Math.ceil(n / d)`. */
  function CeilDiv(n: nat, d: nat): (q: nat)
    requires d >= 1
  {
    (n + d - 1) / d
  }

  /** The number of rows of `d` slots that `n` slots need. */
  lemma CeilDivIsLeast(n: nat, d: nat, k: nat)
    requires d >= 1
    ensures n <= k * d <==> CeilDiv(n, d) <= k
  {
    QuotientBounds(n + d - 1, d);
    MultipleOrder(CeilDiv(n, d), k, d);
    MultipleOrder(k + 1, CeilDiv(n, d), d);
    assert (k + 1) * d == k * d + d;
  }

  lemma QuotientBounds(n: nat, d: nat)
    requires d >= 1
    ensures n / d * d <= n < n / d * d + d
  {
    assert n == n / d * d + n % d;
  }

  lemma MultipleOrder(a: nat, b: nat, d: nat)
    ensures a <= b ==> a * d <= b * d
  {
    if a <= b {
      assert (b - a) * d >= 0;
    }
  }

  lemma CeilDivShift(n: nat, d: nat, k: nat)
    requires d >= 1
    ensures CeilDiv(k * d + n, d) == k + CeilDiv(n, d)
  {
    var q := CeilDiv(n, d);
    CeilDivIsLeast(n, d, q);
    assert (k + q) * d == k * d + q * d;
    CeilDivIsLeast(k * d + n, d, k + q);
    if k + q > 0 {
      CeilDivIsLeast(k * d + n, d, k + q - 1);
      assert (k + q - 1) * d == k * d + q * d - d;
    }
    if q > 0 {
      CeilDivIsLeast(n, d, q - 1);
      assert (q - 1) * d == q * d - d;
    }
  }

  // ---- candidates ----

  ghost predicate Clear(start: int, length: nat, blocked: set<int>) {
    start >= 0 && forall slot | start <= slot < start + length :: slot !in blocked
  }

  /** The block that starts at `start` is free. */
  ghost predicate Free(layout: Layout, options: nat, start: int) {
    Clear(start, options + 1, layout.blocked)
  }

  method BlockIsClear(start: int, length: nat, blocked: set<int>) returns (clear: bool)
    ensures clear <==> Clear(start, length, blocked)
  {
    if start < 0 {
      return false;
    }
    for offset := 0 to length
      invariant forall slot | start <= slot < start + offset :: slot !in blocked
    {
      if start + offset in blocked {
        return false;
      }
    }
    return true;
  }

  function Max(a: int, b: int): int {
    if a >= b then a else b
  }

  function Min(a: int, b: int): int {
    if a <= b then a else b
  }

  function Distance(a: int, b: int): int {
    if a >= b then a - b else b - a
  }

  function RealDistance(a: real, b: real): real {
    if a >= b then a - b else b - a
  }

  /** The slots from `start` on, `length` of them, without the anchor. */
  function OptionSlots(start: int, length: nat, anchor: int): (slots: seq<int>)
  {
    if length == 0 then []
    else
      var last := start + length - 1;
      OptionSlots(start, length - 1, anchor) + (if last != anchor then [last] else [])
  }

  /** The candidate for the block that begins at `start`. */
  function CandidateAt(layout: Layout, source: int, options: nat, start: nat): Candidate
    requires layout.Valid()
  {
    var end := start + options;
    var anchor := Max(start, Min(source, end));
    Candidate(start, anchor, Distance(anchor, source),
              RealDistance((start + end) as real / 2.0, source as real),
              OptionSlots(start, options + 1, anchor),
              Max(0, CeilDiv(end + 1, layout.columns) - layout.rowCount),
              if anchor == start || anchor == end then 0 else 1)
  }

  lemma {:induction false} OptionSlotsAre(start: int, length: nat, anchor: int)
    ensures var slots := OptionSlots(start, length, anchor);
            && (forall slot :: slot in slots <==> start <= slot < start + length && slot != anchor)
            && |slots| == (if start <= anchor < start + length then length - 1 else length)
            && (forall i, j | 0 <= i < j < |slots| :: slots[i] < slots[j])
  {
    if length > 0 {
      OptionSlotsAre(start, length - 1, anchor);
      var before, slots := OptionSlots(start, length - 1, anchor), OptionSlots(start, length, anchor);
      forall i, j | 0 <= i < j < |slots| ensures slots[i] < slots[j] {
        if j == |before| {
          assert slots[i] in before;
        }
      }
    }
  }

  /** What a placement has to be: its block is free and holds the anchor, the options get all
      its other slots in order, one each; the anchor is the slot of the block nearest to the
      source; no fewer than `rowsAdded` further rows make room for the block; and there is a
      penalty exactly when options lie on both sides of the anchor. */
  ghost predicate IsPlacement(layout: Layout, source: int, options: nat, c: Candidate) {
    var end := c.start + options;
    && Free(layout, options, c.start)
    && c.start <= c.anchorSlot <= end
    && |c.optionSlots| == options
    && (forall slot :: slot in c.optionSlots <==> c.start <= slot <= end && slot != c.anchorSlot)
    && (forall i, j | 0 <= i < j < options :: c.optionSlots[i] < c.optionSlots[j])
    && c.anchorDistance == Distance(c.anchorSlot, source)
    && (forall slot | c.start <= slot <= end :: c.anchorDistance <= Distance(slot, source))
    && 2.0 * c.blockDistance == Distance(c.start + end, 2 * source) as real
    && (forall k: nat :: FitsIn(layout, end, k) <==> c.rowsAdded <= k)
    && (c.splitPenalty == 0 || c.splitPenalty == 1)
    && (c.splitPenalty == 1 <==> exists a, b :: a in c.optionSlots && b in c.optionSlots && a < c.anchorSlot < b)
  }

  /** The grid with `k` rows added has the slot. */
  predicate FitsIn(layout: Layout, slot: int, k: nat) {
    slot < (layout.rowCount + k) * layout.columns
  }

  lemma RowsNeeded(layout: Layout, end: nat)
    requires layout.Valid()
    ensures forall k: nat :: FitsIn(layout, end, k)
              <==> Max(0, CeilDiv(end + 1, layout.columns) - layout.rowCount) <= k
  {
    forall k: nat
      ensures FitsIn(layout, end, k) <==> Max(0, CeilDiv(end + 1, layout.columns) - layout.rowCount) <= k
    {
      CeilDivIsLeast(end + 1, layout.columns, layout.rowCount + k);
    }
  }

  /** The anchor is the source itself where the block holds it, and its nearer end otherwise. */
  lemma AnchorIsNearest(layout: Layout, source: int, options: nat, start: nat)
    requires layout.Valid()
    ensures var c := CandidateAt(layout, source, options, start);
            forall slot | start <= slot <= start + options :: c.anchorDistance <= Distance(slot, source)
  {
  }

  /** The options are the slots of the block without the anchor, in order. */
  lemma OptionsAroundAnchor(layout: Layout, source: int, options: nat, start: nat)
    requires layout.Valid()
    ensures var c := CandidateAt(layout, source, options, start);
            && start <= c.anchorSlot <= start + options && |c.optionSlots| == options
            && (forall slot :: slot in c.optionSlots <==> start <= slot <= start + options && slot != c.anchorSlot)
            && (forall i, j | 0 <= i < j < options :: c.optionSlots[i] < c.optionSlots[j])
  {
    OptionSlotsAre(start, options + 1, CandidateAt(layout, source, options, start).anchorSlot);
  }

  /** Twice the distance of the middle of the block from the source. */
  lemma MiddleDistance(layout: Layout, source: int, options: nat, start: nat)
    requires layout.Valid()
    ensures 2.0 * CandidateAt(layout, source, options, start).blockDistance
            == Distance(start + (start + options), 2 * source) as real
  {
  }

  /** The options lie on both sides of the anchor unless it is an end of the block. */
  lemma PenaltyIsSplit(layout: Layout, source: int, options: nat, start: nat)
    requires layout.Valid()
    ensures var c := CandidateAt(layout, source, options, start);
            c.splitPenalty == 1
            <==> exists a, b :: a in c.optionSlots && b in c.optionSlots && a < c.anchorSlot < b
  {
    var c := CandidateAt(layout, source, options, start);
    OptionsAroundAnchor(layout, source, options, start);
    if c.splitPenalty == 1 {
      assert start in c.optionSlots && start + options in c.optionSlots;
    }
  }

  lemma CandidateIsPlacement(layout: Layout, source: int, options: nat, start: nat)
    requires layout.Valid() && Free(layout, options, start)
    ensures IsPlacement(layout, source, options, CandidateAt(layout, source, options, start))
  {
    OptionsAroundAnchor(layout, source, options, start);
    RowsNeeded(layout, start + options);
    MiddleDistance(layout, source, options, start);
    AnchorIsNearest(layout, source, options, start);
    PenaltyIsSplit(layout, source, options, start);
  }

  // ---- the order ----

  /** The comparison the candidates are sorted by. */
  function Compare(l: Candidate, r: Candidate): real {
    if l.rowsAdded != r.rowsAdded then (l.rowsAdded - r.rowsAdded) as real
    else if l.anchorDistance != r.anchorDistance then (l.anchorDistance - r.anchorDistance) as real
    else if l.splitPenalty != r.splitPenalty then (l.splitPenalty - r.splitPenalty) as real
    else l.blockDistance - r.blockDistance
  }

  /** The better placement: fewer added rows, then an anchor nearer to the source, then an
      unsplit block, then a block whose middle is nearer, then an earlier block. */
  predicate Precedes(l: Candidate, r: Candidate) {
    l.rowsAdded < r.rowsAdded
    || (l.rowsAdded == r.rowsAdded
        && (l.anchorDistance < r.anchorDistance
            || (l.anchorDistance == r.anchorDistance
                && (l.splitPenalty < r.splitPenalty
                    || (l.splitPenalty == r.splitPenalty
                        && (l.blockDistance < r.blockDistance
                            || (l.blockDistance == r.blockDistance && l.start < r.start)))))))
  }

  /** The comparison orders candidates by their keys from left to right; ties go by start. */
  lemma ComparePrecedes(l: Candidate, r: Candidate)
    ensures Precedes(l, r) <==> Compare(l, r) < 0.0 || (Compare(l, r) == 0.0 && l.start < r.start)
    ensures Compare(l, r) > 0.0 <==> Compare(r, l) < 0.0
  {
  }

  lemma PrecedesTransitive(a: Candidate, b: Candidate, c: Candidate)
    requires Precedes(a, b) && Precedes(b, c)
    ensures Precedes(a, c)
  {
  }

  ghost predicate Ordered(s: seq<Candidate>) {
    forall i, j | 0 <= i < j < |s| :: Precedes(s[i], s[j])
  }

  ghost predicate Ascending(s: seq<Candidate>) {
    forall i, j | 0 <= i < j < |s| :: s[i].start < s[j].start
  }

  /** The stable sort of the candidates, which arrive by ascending start. */
  method Sort(candidates: seq<Candidate>) returns (sorted: seq<Candidate>)
    requires Ascending(candidates)
    ensures Ordered(sorted) && multiset(sorted) == multiset(candidates)
  {
    sorted := [];
    for n := 0 to |candidates|
      invariant Ordered(sorted) && multiset(sorted) == multiset(candidates[..n])
    {
      TakeNext(candidates, n);
      EarlierStarts(candidates, n, sorted);
      sorted := Insert(sorted, candidates[n]);
    }
    assert candidates[..|candidates|] == candidates;
  }

  lemma EarlierStarts(candidates: seq<Candidate>, n: nat, sorted: seq<Candidate>)
    requires n < |candidates| && Ascending(candidates) && multiset(sorted) == multiset(candidates[..n])
    ensures forall i | 0 <= i < |sorted| :: sorted[i].start < candidates[n].start
  {
    forall i | 0 <= i < |sorted| ensures sorted[i].start < candidates[n].start {
      assert sorted[i] in multiset(sorted);
      assert sorted[i] in candidates[..n];
    }
  }

  method Insert(sorted: seq<Candidate>, c: Candidate) returns (r: seq<Candidate>)
    requires Ordered(sorted) && forall i | 0 <= i < |sorted| :: sorted[i].start < c.start
    ensures Ordered(r) && multiset(r) == multiset(sorted) + multiset{c}
  {
    var i := |sorted|;
    while i > 0 && Compare(sorted[i - 1], c) > 0.0
      invariant 0 <= i <= |sorted|
      invariant forall j | i <= j < |sorted| :: Precedes(c, sorted[j])
    {
      i := i - 1;
    }
    if i > 0 {
      ComparePrecedes(sorted[i - 1], c);
    }
    InsertedInOrder(sorted, i, c);
    InsertedElements(sorted, i, c);
    r := sorted[..i] + [c] + sorted[i..];
  }

  lemma InsertedElements(sorted: seq<Candidate>, i: nat, c: Candidate)
    requires i <= |sorted|
    ensures multiset(sorted[..i] + [c] + sorted[i..]) == multiset(sorted) + multiset{c}
  {
    assert sorted == sorted[..i] + sorted[i..];
  }

  lemma InsertedInOrder(sorted: seq<Candidate>, i: nat, c: Candidate)
    requires i <= |sorted| && Ordered(sorted)
    requires i > 0 ==> Precedes(sorted[i - 1], c)
    requires forall j | i <= j < |sorted| :: Precedes(c, sorted[j])
    ensures Ordered(sorted[..i] + [c] + sorted[i..])
  {
    forall j | 0 <= j < i ensures Precedes(sorted[j], c) {
      if j < i - 1 {
        assert Precedes(sorted[j], sorted[i - 1]);
        PrecedesTransitive(sorted[j], sorted[i - 1], c);
      }
    }
  }

  // ---- the search ----

  /** The candidates for the free blocks that start before `n`. */
  ghost function Candidates(layout: Layout, source: int, options: nat, n: nat): seq<Candidate>
    requires layout.Valid()
  {
    if n == 0 then []
    else
      Candidates(layout, source, options, n - 1)
      + (if Free(layout, options, n - 1) then [CandidateAt(layout, source, options, n - 1)] else [])
  }

  lemma {:induction false} CandidatesAre(layout: Layout, source: int, options: nat, n: nat)
    requires layout.Valid()
    ensures var all := Candidates(layout, source, options, n);
            && Ascending(all)
            && (forall c | c in all :: IsCandidate(layout, source, options, n, c))
            && (forall start: nat | start < n && Free(layout, options, start) ::
                  CandidateAt(layout, source, options, start) in all)
  {
    if n > 0 {
      CandidatesAre(layout, source, options, n - 1);
      var before := Candidates(layout, source, options, n - 1);
      forall i | 0 <= i < |before| ensures before[i].start < n - 1 {
        assert IsCandidate(layout, source, options, n - 1, before[i]);
      }
    }
  }

  ghost predicate IsCandidate(layout: Layout, source: int, options: nat, n: nat, c: Candidate)
    requires layout.Valid()
  {
    && 0 <= c.start < n
    && Free(layout, options, c.start)
    && c == CandidateAt(layout, source, options, c.start)
  }

  /** The slots that are searched: the present rows, and the rows that one block needs. */
  function SearchCapacity(layout: Layout, options: nat): (n: nat)
    requires layout.Valid()
    ensures n >= layout.Capacity() + options + 1
  {
    var rows := CeilDiv(options + 1, layout.columns);
    assert options + 1 <= rows * layout.columns by { CeilDivIsLeast(options + 1, layout.columns, rows); }
    layout.Capacity() + rows * layout.columns
  }

  /** Only slots of the present rows are blocked. */
  ghost predicate BlockedWithin(layout: Layout) {
    forall slot | slot in layout.blocked :: slot < layout.Capacity()
  }

  /** No free block gives a placement that precedes the candidate. */
  ghost predicate BestOfStarts(layout: Layout, source: int, options: nat, n: nat, c: Candidate)
    requires layout.Valid()
  {
    forall start: nat | start < n && Free(layout, options, start) && start != c.start ::
      Precedes(c, CandidateAt(layout, source, options, start))
  }

  /** The best placement among ALL starting slots, of which there are infinitely many. */
  ghost predicate BestOfAll(layout: Layout, source: int, options: nat, c: Candidate)
    requires layout.Valid()
  {
    forall start: nat | Free(layout, options, start) && start != c.start ::
      Precedes(c, CandidateAt(layout, source, options, start))
  }

  /** The row after the last one is free, so a candidate exists; and no block beyond the
      searched slots comes near one that starts in that row. */
  lemma RowBelowIsFree(layout: Layout, source: int, options: nat)
    requires layout.Valid() && BlockedWithin(layout)
    ensures Free(layout, options, layout.Capacity())
    ensures CandidateAt(layout, source, options, layout.Capacity()).rowsAdded == CeilDiv(options + 1, layout.columns)
  {
    CeilDivShift(options + 1, layout.columns, layout.rowCount);
  }

  lemma BeyondIsWorse(layout: Layout, source: int, options: nat, start: nat)
    requires layout.Valid() && start + options >= SearchCapacity(layout, options)
    ensures CandidateAt(layout, source, options, start).rowsAdded > CeilDiv(options + 1, layout.columns)
  {
    var k := layout.rowCount + CeilDiv(options + 1, layout.columns);
    assert k * layout.columns == SearchCapacity(layout, options);
    CeilDivIsLeast(start + options + 1, layout.columns, k);
  }

  lemma BestWithinIsBestOfAll(layout: Layout, source: int, options: nat, c: Candidate)
    requires layout.Valid() && BlockedWithin(layout) && c.start >= 0
    requires c == CandidateAt(layout, source, options, c.start)
    requires BestOfStarts(layout, source, options, SearchCapacity(layout, options) - options, c)
    ensures BestOfAll(layout, source, options, c)
  {
    var n := SearchCapacity(layout, options) - options;
    RowBelowIsFree(layout, source, options);
    var below := CandidateAt(layout, source, options, layout.Capacity());
    assert c.rowsAdded <= below.rowsAdded;
    forall start: nat | Free(layout, options, start) && start != c.start
      ensures Precedes(c, CandidateAt(layout, source, options, start))
    {
      if start >= n {
        BeyondIsWorse(layout, source, options, start);
      }
    }
  }

  lemma FirstIsBest(layout: Layout, source: int, options: nat, n: nat, sorted: seq<Candidate>)
    requires layout.Valid() && sorted != [] && Ordered(sorted)
    requires multiset(sorted) == multiset(Candidates(layout, source, options, n))
    ensures IsCandidate(layout, source, options, n, sorted[0])
    ensures BestOfStarts(layout, source, options, n, sorted[0])
  {
    var all := Candidates(layout, source, options, n);
    CandidatesAre(layout, source, options, n);
    assert sorted[0] in multiset(sorted);
    assert sorted[0] in all;
    forall start: nat | start < n && Free(layout, options, start) && start != sorted[0].start
      ensures Precedes(sorted[0], CandidateAt(layout, source, options, start))
    {
      var c := CandidateAt(layout, source, options, start);
      assert c in multiset(all);
      assert c in sorted;
    }
  }

  /** What the placement search owes its caller. There is no placement exactly when no
      searched block is free, which cannot happen while only slots of the present rows are
      blocked; and then the placement is the best of all. */
  ghost predicate Answers(layout: Layout, source: int, options: nat, r: Option<Candidate>)
    requires layout.Valid()
  {
    var n := SearchCapacity(layout, options) - options;
    && (r.None? <==> forall start: nat | start < n :: !Free(layout, options, start))
    && (r.Some? ==> IsPlacement(layout, source, options, r.value) && BestOfStarts(layout, source, options, n, r.value))
    && (BlockedWithin(layout) ==> r.Some? && BestOfAll(layout, source, options, r.value))
  }

  lemma FirstAnswers(layout: Layout, source: int, options: nat, sorted: seq<Candidate>)
    requires layout.Valid() && Ordered(sorted)
    requires multiset(sorted)
             == multiset(Candidates(layout, source, options, SearchCapacity(layout, options) - options))
    ensures Answers(layout, source, options, if sorted == [] then None else Some(sorted[0]))
  {
    var n := SearchCapacity(layout, options) - options;
    if sorted != [] {
      FirstIsBest(layout, source, options, n, sorted);
      CandidateIsPlacement(layout, source, options, sorted[0].start);
      if BlockedWithin(layout) {
        BestWithinIsBestOfAll(layout, source, options, sorted[0]);
      }
    } else {
      NothingFree(layout, source, options, n);
      if BlockedWithin(layout) {
        RowBelowIsFree(layout, source, options);
      }
    }
  }

  lemma NothingFree(layout: Layout, source: int, options: nat, n: nat)
    requires layout.Valid() && multiset(Candidates(layout, source, options, n)) == multiset{}
    ensures forall start: nat | start < n :: !Free(layout, options, start)
  {
    CandidatesAre(layout, source, options, n);
    assert |Candidates(layout, source, options, n)| == |multiset(Candidates(layout, source, options, n))|;
  }

  /** `choicePlacement`. */
  method Place(layout: Layout, source: int, options: nat) returns (r: Option<Candidate>)
    requires layout.Valid()
    ensures Answers(layout, source, options, r)
  {
    var n := SearchCapacity(layout, options) - options;
    var candidates := [];
    for start := 0 to n
      invariant candidates == Candidates(layout, source, options, start)
    {
      var clear := BlockIsClear(start, options + 1, layout.blocked);
      if clear {
        candidates := candidates + [CandidateAt(layout, source, options, start)];
      }
    }
    CandidatesAre(layout, source, options, n);
    var sorted := Sort(candidates);
    FirstAnswers(layout, source, options, sorted);
    if sorted == [] {
      return None;
    }
    return Some(sorted[0]);
  }
}
