/** Axis ticks: a step of 1, 2, 5 or 10 times a power of ten, its multiples within the
    domain, and the minor ticks between them. Decimals are exact reals here. */
module PlotTicks {

  // ---- powers of ten ----

  function Pow10(e: int): (r: real)
    ensures r > 0.0
    decreases if e < 0 then -e else e
  {
    if e == 0 then 1.0 else if e > 0 then 10.0 * Pow10(e - 1) else Pow10(e + 1) / 10.0
  }

  lemma Pow10Next(e: int)
    ensures Pow10(e + 1) == 10.0 * Pow10(e)
  {
  }

  lemma {:induction false} Pow10Grows(d: int, e: int)
    requires d < e
    ensures 10.0 * Pow10(d) <= Pow10(e)
    decreases e - d
  {
    Pow10Next(e - 1);
    if d < e - 1 {
      Pow10Grows(d, e - 1);
    }
  }

  lemma Quotient(a: real, b: real)
    requires b > 0.0
    ensures a / b * b == a
  {
  }

  lemma MulOrder(a: real, b: real, m: real)
    requires m > 0.0
    ensures a <= b <==> a * m <= b * m
    ensures a < b <==> a * m < b * m
  {
    if a < b {
      assert (b - a) * m > 0.0;
    } else if b < a {
      assert (a - b) * m > 0.0;
    }
  }

  lemma DivideBy(a: real, b: real, step: real)
    requires step > 0.0
    ensures a / step <= b <==> a <= b * step
    ensures b <= a / step <==> b * step <= a
  {
    Quotient(a, step);
    MulOrder(a / step, b, step);
    MulOrder(b, a / step, step);
  }

  /** `Decimal.adjusted`: the exponent of the leading digit. */
  function Adjusted(x: real): (e: int)
    requires x > 0.0
    ensures Pow10(e) <= x < Pow10(e + 1)
    decreases x < 1.0, if x < 1.0 then (1.0 / x).Floor else x.Floor
  {
    if x >= 10.0 then
      var e := Adjusted(x / 10.0);
      Pow10Next(e);
      Pow10Next(e + 1);
      e + 1
    else if x < 1.0 then
      Shrinks(x);
      var e := Adjusted(10.0 * x);
      Pow10Next(e);
      Pow10Next(e - 1);
      e - 1
    else
      assert Pow10(1) == 10.0 * Pow10(0);
      0
  }

  lemma Shrinks(x: real)
    requires 0.0 < x < 1.0
    ensures 10.0 * x < 1.0 ==> (1.0 / (10.0 * x)).Floor < (1.0 / x).Floor
  {
    var y := 1.0 / x;
    Quotient(1.0, x);
    MulOrder(1.0, y, x);
    assert 1.0 / (10.0 * x) == y / 10.0 by {
      assert (y / 10.0) * (10.0 * x) == y * x;
    }
    assert y >= 1.0;
  }

  lemma AdjustedIs(x: real, e: int)
    requires x > 0.0 && Pow10(e) <= x < Pow10(e + 1)
    ensures Adjusted(x) == e
  {
    var a := Adjusted(x);
    if a < e {
      if a + 1 < e {
        Pow10Grows(a + 1, e);
      }
    } else if e < a {
      if e + 1 < a {
        Pow10Grows(e + 1, a);
      }
    }
  }

  // ---- the steps ----

  /** The nice multiplier for a fraction between 1 and 10. */
  function Multiplier(fraction: real): real {
    if fraction < 1.5 then 1.0 else if fraction < 3.0 then 2.0 else if fraction < 7.0 then 5.0 else 10.0
  }

  /** The nice step for a given magnitude. */
  function StepAt(rough: real, magnitude: real): (step: real)
    requires magnitude > 0.0
    ensures step > 0.0
  {
    Multiplier(rough / magnitude) * magnitude
  }

  /** `_nice_step`. */
  function NiceStep(rough: real): (step: real)
    requires rough > 0.0
    ensures step > 0.0
  {
    StepAt(rough, Pow10(Adjusted(rough)))
  }

  /** `_linear_minor_step`: quarters of a step of 2, fifths of any other. */
  function Subdivisions(step: real): int
    requires step > 0.0
  {
    if step / Pow10(Adjusted(step)) == 2.0 then 4 else 5
  }

  function MinorStep(step: real): (minor: real)
    requires step > 0.0
    ensures minor > 0.0
  {
    step / (Subdivisions(step) as real)
  }

  /** 1, 2, 5 or 10 times a power of ten. */
  ghost predicate IsNice(step: real) {
    exists e: int :: step == Pow10(e) || step == 2.0 * Pow10(e) || step == 5.0 * Pow10(e) || step == 10.0 * Pow10(e)
  }

  lemma FractionRange(x: real, m: real)
    requires m > 0.0 && m <= x < 10.0 * m
    ensures 1.0 <= x / m < 10.0
  {
    DivideBy(x, 1.0, m);
    DivideBy(x, 10.0, m);
  }

  lemma NearMultiplier(f: real, m: real, rough: real)
    requires 1.0 <= f < 10.0 && m > 0.0 && rough == f * m
    ensures 0.6 * (Multiplier(f) * m) <= rough < 1.5 * (Multiplier(f) * m)
  {
    if f < 1.5 {
      MulOrder(1.0, f, m);
      MulOrder(f, 1.5, m);
    } else if f < 3.0 {
      MulOrder(1.5, f, m);
      MulOrder(f, 3.0, m);
    } else if f < 7.0 {
      MulOrder(3.0, f, m);
      MulOrder(f, 7.0, m);
    } else {
      MulOrder(7.0, f, m);
      MulOrder(f, 10.0, m);
    }
  }

  lemma StepAtIsNear(rough: real, m: real)
    requires m > 0.0 && m <= rough < 10.0 * m
    ensures 0.6 * StepAt(rough, m) <= rough < 1.5 * StepAt(rough, m)
    ensures var step := StepAt(rough, m); step == m || step == 2.0 * m || step == 5.0 * m || step == 10.0 * m
  {
    FractionRange(rough, m);
    Quotient(rough, m);
    NearMultiplier(rough / m, m, rough);
  }

  /** The step is 1, 2, 5 or 10 times a power of ten, and the rough step is between 0.6 and
      1.5 times as long. */
  lemma NiceStepIsNear(rough: real)
    requires rough > 0.0
    ensures 0.6 * NiceStep(rough) <= rough < 1.5 * NiceStep(rough)
    ensures IsNice(NiceStep(rough))
  {
    var e := Adjusted(rough);
    Pow10Next(e);
    StepAtIsNear(rough, Pow10(e));
  }

  lemma SameQuotient(c: real, p: real)
    requires p > 0.0
    ensures c * p / p == c
  {
    Quotient(c * p, p);
    MulOrder(c * p / p, c, p);
    MulOrder(c, c * p / p, p);
  }

  /** The rough steps that are rounded to 1, 2 or 5 times the power of ten `p`. */
  predicate RoundsTo(rough: real, c: real, p: real) {
    if c == 1.0 then 0.7 * p <= rough < 1.5 * p
    else if c == 2.0 then 1.5 * p <= rough < 3.0 * p
    else c == 5.0 && 3.0 * p <= rough < 7.0 * p
  }

  predicate IsLeadingPart(c: real) {
    c == 1.0 || c == 2.0 || c == 5.0
  }

  /** Where the limits between the steps are: 0.7, 1.5, 3 and 7 times a power of ten. */
  lemma StepChosen(rough: real, c: real, e: int, p: real, step: real)
    requires rough > 0.0 && IsLeadingPart(c) && p == Pow10(e) && step == c * p
    ensures NiceStep(rough) == step <==> RoundsTo(rough, c, p)
  {
    var c', e' := SomeStep(rough);
    OneStepOnly(rough, c, e, c', e', NiceStep(rough), step);
  }

  lemma OneStepOnly(rough: real, c: real, e: int, c': real, e': int, step: real, other: real)
    requires IsLeadingPart(c) && IsLeadingPart(c') && other == c * Pow10(e) && step == c' * Pow10(e')
    requires RoundsTo(rough, c', Pow10(e'))
    ensures step == other <==> RoundsTo(rough, c, Pow10(e))
  {
    if step == other {
      NiceIsUnique(c, e, c', e');
    } else if RoundsTo(rough, c, Pow10(e)) {
      LimitsDisjoint(rough, c, e, c', e');
      assert false;
    }
  }

  lemma SomeStep(rough: real) returns (c: real, e: int)
    requires rough > 0.0
    ensures IsLeadingPart(c) && RoundsTo(rough, c, Pow10(e)) && NiceStep(rough) == c * Pow10(e)
  {
    e := Adjusted(rough);
    var p := Pow10(e);
    var f := rough / p;
    Pow10Next(e);
    FractionRange(rough, p);
    DivideBy(rough, 1.5, p);
    DivideBy(rough, 3.0, p);
    DivideBy(rough, 7.0, p);
    c := if f < 1.5 then 1.0 else if f < 3.0 then 2.0 else if f < 7.0 then 5.0 else 1.0;
    if f >= 7.0 {
      e := e + 1;
    }
  }

  lemma LeadingPartBounds(c: real, e: int)
    requires IsLeadingPart(c)
    ensures c * Pow10(e) > 0.0 && Adjusted(c * Pow10(e)) == e
  {
    Pow10Next(e);
    AdjustedIs(c * Pow10(e), e);
  }

  lemma NiceIsUnique(c: real, e: int, c': real, e': int)
    requires IsLeadingPart(c) && IsLeadingPart(c') && c * Pow10(e) == c' * Pow10(e')
    ensures c == c' && e == e'
  {
    LeadingPartBounds(c, e);
    LeadingPartBounds(c', e');
    SameQuotient(c, Pow10(e));
    SameQuotient(c', Pow10(e));
  }

  lemma LimitsDisjoint(rough: real, c: real, e: int, c': real, e': int)
    requires IsLeadingPart(c) && IsLeadingPart(c')
    requires RoundsTo(rough, c, Pow10(e)) && RoundsTo(rough, c', Pow10(e'))
    ensures c == c' && e == e'
  {
    if e < e' {
      Pow10Grows(e, e');
    } else if e' < e {
      Pow10Grows(e', e);
    }
  }

  /** The parts of 1, 2 and 5 times a power of ten. */
  lemma PartsAreNice(step: real, c: real, e: int, p: real, below: real)
    requires (c == 1.0 || c == 2.0 || c == 5.0) && p == Pow10(e) && below == Pow10(e - 1) && step == c * p
    ensures step > 0.0 && IsNice(MinorStep(step))
  {
    Pow10Next(e - 1);
    PartsOf(step, c, e, p);
    PartLength(step, c, p, below, MinorStep(step));
  }

  lemma PartsOf(step: real, c: real, e: int, p: real)
    requires (c == 1.0 || c == 2.0 || c == 5.0) && p == Pow10(e) && step == c * p
    ensures step > 0.0 && Subdivisions(step) == if c == 2.0 then 4 else 5
  {
    Pow10Next(e);
    AdjustedIs(step, e);
    SameQuotient(c, p);
  }

  lemma PartLength(step: real, c: real, p: real, below: real, minor: real)
    requires (c == 1.0 || c == 2.0 || c == 5.0) && step == c * p && p == 10.0 * below
    requires minor == step / (if c == 2.0 then 4.0 else 5.0)
    ensures minor == if c == 1.0 then 2.0 * below else if c == 2.0 then 5.0 * below else p
  {
  }

  /** The minor step is again 1, 2, 5 or 10 times a power of ten. */
  lemma MinorStepIsNice(rough: real)
    requires rough > 0.0
    ensures IsNice(MinorStep(NiceStep(rough)))
  {
    var e := Adjusted(rough);
    Pow10Next(e);
    StepAtIsNear(rough, Pow10(e));
    NicePartsAreNice(NiceStep(rough), e, Pow10(e));
  }

  lemma NicePartsAreNice(step: real, e: int, p: real)
    requires p == Pow10(e) && (step == p || step == 2.0 * p || step == 5.0 * p || step == 10.0 * p)
    ensures step > 0.0 && IsNice(MinorStep(step))
  {
    if step == 10.0 * p {
      Pow10Next(e);
      PartsAreNice(step, 1.0, e + 1, step, p);
    } else if step == p {
      PartsAreNice(step, 1.0, e, p, Pow10(e - 1));
    } else if step == 2.0 * p {
      PartsAreNice(step, 2.0, e, p, Pow10(e - 1));
    } else {
      PartsAreNice(step, 5.0, e, p, Pow10(e - 1));
    }
  }

  // ---- multiples of a step ----

  function Ceiling(x: real): (n: int)
    ensures x <= n as real < x + 1.0
  {
    -((-x).Floor)
  }

  /** `_multiples_within`. */
  function MultiplesWithin(lo: real, hi: real, step: real): seq<real>
    requires step > 0.0
  {
    var first, last := Ceiling(lo / step), (hi / step).Floor;
    seq(if last >= first then last - first + 1 else 0, i requires i >= 0 => Times(first + i, step))
  }

  function Times(k: int, step: real): real {
    k as real * step
  }

  /** A multiple of the step that lies in the domain. */
  ghost predicate MultipleIn(lo: real, hi: real, step: real, v: real) {
    lo <= v <= hi && exists k :: v == Times(k, step)
  }

  /** The list holds exactly the multiples of the step that lie in the domain. */
  lemma MultiplesAreExact(lo: real, hi: real, step: real, v: real)
    requires step > 0.0
    ensures v in MultiplesWithin(lo, hi, step) <==> MultipleIn(lo, hi, step, v)
  {
    var first := Ceiling(lo / step);
    var l := MultiplesWithin(lo, hi, step);
    if v in l {
      var i :| 0 <= i < |l| && l[i] == v;
      MultipleInRange(lo, hi, step, first + i);
      assert v == Times(first + i, step);
    }
    if MultipleIn(lo, hi, step, v) {
      var k :| v == Times(k, step);
      MultipleInRange(lo, hi, step, k);
      assert l[k - first] == v;
    }
  }

  lemma MultipleInRange(lo: real, hi: real, step: real, k: int)
    requires step > 0.0
    ensures Ceiling(lo / step) <= k <= (hi / step).Floor <==> lo <= Times(k, step) <= hi
  {
    DivideBy(lo, k as real, step);
    DivideBy(hi, k as real, step);
  }

  /** Their number is the length of the domain in steps, rounded down, or one more. */
  lemma MultiplesCount(lo: real, hi: real, step: real)
    requires step > 0.0 && lo < hi
    ensures (hi - lo) / step - 1.0 < |MultiplesWithin(lo, hi, step)| as real <= (hi - lo) / step + 1.0
  {
    var a, b := lo / step, hi / step;
    assert (hi - lo) / step == b - a;
    Quotient(hi, step);
    Quotient(lo, step);
    assert (b - a) * step == hi - lo;
    assert b > a;
  }

  ghost predicate Ascending(s: seq<real>) {
    forall i, j | 0 <= i < j < |s| :: s[i] < s[j]
  }

  lemma MultiplesAscend(lo: real, hi: real, step: real)
    requires step > 0.0
    ensures Ascending(MultiplesWithin(lo, hi, step))
  {
    var first, l := Ceiling(lo / step), MultiplesWithin(lo, hi, step);
    forall i, j | 0 <= i < j < |l| ensures l[i] < l[j] {
      TimesOrder(first + i, first + j, step);
    }
  }

  // ---- a linear axis ----

  datatype Ticks = Ticks(major: seq<real>, minor: seq<real>)

  function Without(values: seq<real>, excluded: seq<real>): (r: seq<real>)
    ensures forall v :: v in r <==> v in values && v !in excluded
  {
    if values == [] then []
    else (if values[0] in excluded then [] else [values[0]]) + Without(values[1..], excluded)
  }

  lemma {:induction false} WithoutAscends(values: seq<real>, excluded: seq<real>)
    requires Ascending(values)
    ensures Ascending(Without(values, excluded))
  {
    if values != [] {
      WithoutAscends(values[1..], excluded);
      KeepOrDrop(values, Without(values[1..], excluded));
    }
  }

  /** The head of an ascending list, in front of some of what follows it. */
  lemma KeepOrDrop(values: seq<real>, tail: seq<real>)
    requires Ascending(values) && values != [] && Ascending(tail) && forall v | v in tail :: v in values[1..]
    ensures Ascending([values[0]] + tail) && Ascending([] + tail)
  {
    assert forall v | v in values[1..] :: values[0] < v;
    JoinAscends([values[0]], tail);
    assert [] + tail == tail;
  }

  lemma JoinAscends(a: seq<real>, b: seq<real>)
    requires Ascending(a) && Ascending(b) && forall x, y | x in a && y in b :: x < y
    ensures Ascending(a + b)
  {
    var c := a + b;
    forall i, j | 0 <= i < j < |c| ensures c[i] < c[j] {
      if i < |a| <= j {
        assert c[i] in a && c[j] in b;
      }
    }
  }

  /** `_linear_tick_values`. */
  function LinearTicks(lo: real, hi: real, intervals: nat): Ticks
    requires lo < hi && intervals > 0
  {
    var step := NiceStep((hi - lo) / intervals as real);
    var major := MultiplesWithin(lo, hi, step);
    Ticks(major, Without(MultiplesWithin(lo, hi, MinorStep(step)), major))
  }

  function StepOf(lo: real, hi: real, intervals: nat): (step: real)
    requires lo < hi && intervals > 0
    ensures step > 0.0
  {
    NiceStep((hi - lo) / intervals as real)
  }

  lemma LengthInSteps(span: real, rough: real, step: real, t: real)
    requires step > 0.0 && (t == 4.0 || t == 6.0) && rough * t == span
    requires 0.6 * step <= rough < 1.5 * step
    ensures 0.6 * t <= span / step < 1.5 * t
  {
    if t == 4.0 {
      DivideBy(span, 2.4, step);
      DivideBy(span, 6.0, step);
    } else {
      DivideBy(span, 3.6, step);
      DivideBy(span, 9.0, step);
    }
  }

  lemma CountForStep(lo: real, hi: real, intervals: nat, rough: real, step: real)
    requires lo < hi && step > 0.0 && (intervals == 4 || intervals == 6) && rough * intervals as real == hi - lo
    requires 0.6 * step <= rough < 1.5 * step
    ensures var n := |MultiplesWithin(lo, hi, step)|; if intervals == 4 then 2 <= n <= 6 else 3 <= n <= 9
  {
    LengthInSteps(hi - lo, rough, step, intervals as real);
    MultiplesCount(lo, hi, step);
  }

  /** A linear axis has between 2 and 6 major ticks for 4 intervals, between 3 and 9 for 6. */
  lemma MajorTickCount(lo: real, hi: real, intervals: nat)
    requires lo < hi && (intervals == 4 || intervals == 6)
    ensures var n := |LinearTicks(lo, hi, intervals).major|;
            if intervals == 4 then 2 <= n <= 6 else 3 <= n <= 9
  {
    var rough := (hi - lo) / intervals as real;
    Quotient(hi - lo, intervals as real);
    NiceStepIsNear(rough);
    CountForStep(lo, hi, intervals, rough, NiceStep(rough));
  }

  /** Every tick lies in the domain, and the major ticks are exactly the multiples of the step
      that do. */
  lemma TicksInDomain(lo: real, hi: real, intervals: nat, v: real)
    requires lo < hi && intervals > 0
    ensures var t := LinearTicks(lo, hi, intervals);
            && (v in t.major <==> MultipleIn(lo, hi, StepOf(lo, hi, intervals), v))
            && (v in t.minor <==> MultipleIn(lo, hi, MinorStep(StepOf(lo, hi, intervals)), v) && v !in t.major)
  {
    var step := StepOf(lo, hi, intervals);
    MultiplesAreExact(lo, hi, step, v);
    MultiplesAreExact(lo, hi, MinorStep(step), v);
  }

  /** Major and minor ticks are listed from left to right, each once. */
  lemma TicksAscend(lo: real, hi: real, intervals: nat)
    requires lo < hi && intervals > 0
    ensures Ascending(LinearTicks(lo, hi, intervals).major) && Ascending(LinearTicks(lo, hi, intervals).minor)
  {
    var step := StepOf(lo, hi, intervals);
    MultiplesAscend(lo, hi, step);
    MultiplesAscend(lo, hi, MinorStep(step));
    WithoutAscends(MultiplesWithin(lo, hi, MinorStep(step)), MultiplesWithin(lo, hi, step));
  }

  lemma SubdividedTimes(k: int, step: real, n: int, minor: real)
    requires (n == 4 || n == 5) && minor == step / n as real
    ensures Times(k, step) == Times(k * n, minor)
  {
    if n == 4 {
      RegroupTimes(k, 4, step, minor);
    } else {
      RegroupTimes(k, 5, step, minor);
    }
  }

  lemma RegroupTimes(k: int, n: int, step: real, minor: real)
    requires step == n as real * minor
    ensures Times(k, step) == Times(k * n, minor)
  {
    assert (k * n) as real == k as real * n as real;
    MulAssociative(k as real, n as real, minor);
  }

  lemma MulAssociative(a: real, b: real, c: real)
    ensures a * (b * c) == a * b * c
  {
  }

  /** Every multiple of the step is a multiple of the minor step. */
  lemma MajorIsMinorMultiple(step: real, k: int)
    requires step > 0.0
    ensures Times(k, step) == Times(k * Subdivisions(step), MinorStep(step))
  {
    SubdividedTimes(k, step, Subdivisions(step), MinorStep(step));
  }

  /** The `j`-th of the `n` parts after the `k`-th major multiple. */
  function PartOf(k: int, n: int, j: int, minor: real): real {
    Times(k * n + j, minor)
  }

  /** Between a major tick and the next there are exactly 3 or 4 minor ticks, evenly spaced. */
  lemma MinorTicksBetween(lo: real, hi: real, intervals: nat, k: int, x: real)
    requires lo < hi && intervals > 0
    requires var step := StepOf(lo, hi, intervals); lo <= Times(k, step) && Times(k + 1, step) <= hi
    ensures var step := StepOf(lo, hi, intervals);
            var n := Subdivisions(step);
            && (n == 4 || n == 5)
            && (x in LinearTicks(lo, hi, intervals).minor && Times(k, step) < x < Times(k + 1, step)
                <==> exists j :: 0 < j < n && x == PartOf(k, n, j, MinorStep(step)))
  {
    var step := StepOf(lo, hi, intervals);
    var n, minor := Subdivisions(step), MinorStep(step);
    TicksInDomain(lo, hi, intervals, x);
    MajorIsMinorMultiple(step, k);
    MajorIsMinorMultiple(step, k + 1);
    if x in LinearTicks(lo, hi, intervals).minor && Times(k, step) < x < Times(k + 1, step) {
      var m :| x == Times(m, minor);
      TimesOrder(k * n, m, minor);
      TimesOrder(m, (k + 1) * n, minor);
      var j := m - k * n;
      assert x == PartOf(k, n, j, minor);
    }
    if exists j :: 0 < j < n && x == PartOf(k, n, j, minor) {
      var j :| 0 < j < n && x == PartOf(k, n, j, minor);
      TimesOrder(k * n, k * n + j, minor);
      TimesOrder(k * n + j, (k + 1) * n, minor);
      if exists i :: x == Times(i, step) {
        var i :| x == Times(i, step);
        TimesOrder(k, i, step);
        TimesOrder(i, k + 1, step);
        assert false;
      }
    }
  }

  lemma TimesOrder(a: int, b: int, step: real)
    requires step > 0.0
    ensures a < b <==> Times(a, step) < Times(b, step)
  {
    MulOrder(a as real, b as real, step);
  }
}
