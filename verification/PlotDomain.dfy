/** The domain of an axis, the position of a point, logarithmic ticks, and the population
    loop of the scatter plot. Logarithm and power are any strictly increasing, mutually
    inverse functions that agree on integer powers of ten. */
module PlotDomain {
  import opened Text
  import opened PlotTicks

  datatype Scale = Linear | Log

  datatype Logarithm = Logarithm(log10: real -> real, pow10: real -> real)

  ghost predicate Genuine(l: Logarithm) {
    && (forall x, y | 0.0 < x && 0.0 < y :: x < y ==> l.log10(x) < l.log10(y))
    && (forall x :: l.pow10(x) > 0.0 && l.log10(l.pow10(x)) == x)
    && (forall x | 0.0 < x :: l.pow10(l.log10(x)) == x)
    && (forall e: int :: l.pow10(e as real) == Pow10(e))
  }

  /** `_transform`. */
  function Transform(l: Logarithm, v: real, scale: Scale): real {
    match scale case Linear => v case Log => l.log10(v)
  }

  /** A value that may be put on the axis. */
  predicate Placeable(v: real, scale: Scale) {
    scale.Log? ==> v > 0.0
  }

  lemma TransformOrder(l: Logarithm, scale: Scale, a: real, b: real)
    requires Genuine(l) && Placeable(a, scale) && Placeable(b, scale)
    ensures a < b <==> Transform(l, a, scale) < Transform(l, b, scale)
    ensures a == b <==> Transform(l, a, scale) == Transform(l, b, scale)
  {
  }

  // ---- the domain ----

  datatype Outcome<+T> = Ok(value: T) | Raise

  function Abs(x: real): real {
    if x < 0.0 then -x else x
  }

  function Transformed(l: Logarithm, values: seq<real>, scale: Scale): (r: seq<real>)
    ensures |r| == |values| && forall i | 0 <= i < |r| :: r[i] == Transform(l, values[i], scale)
  {
    seq(|values|, i requires 0 <= i < |values| => Transform(l, values[i], scale))
  }

  function MinOf(s: seq<real>): (m: real)
    requires s != []
    ensures m in s && forall x | x in s :: m <= x
  {
    if |s| == 1 then s[0]
    else
      var m := MinOf(s[1..]);
      assert s == [s[0]] + s[1..];
      if s[0] <= m then s[0] else m
  }

  function MaxOf(s: seq<real>): (m: real)
    requires s != []
    ensures m in s && forall x | x in s :: x <= m
  {
    if |s| == 1 then s[0]
    else
      var m := MaxOf(s[1..]);
      assert s == [s[0]] + s[1..];
      if s[0] >= m then s[0] else m
  }

  /** The domain that the values alone ask for, with some room on both sides. */
  function Automatic(l: Logarithm, values: seq<real>, scale: Scale): (real, real) {
    if values == [] then (0.0, 1.0)
    else
      var t := Transformed(l, values, scale);
      var lo, hi := MinOf(t), MaxOf(t);
      var span := hi - lo;
      var room := if span != 0.0 then span * 0.05 else if scale.Log? then 0.05 else Abs(lo) * 0.05;
      var padding := if room == 0.0 then 1.0 else room;
      (lo - padding, hi + padding)
  }

  /** `_empty_domain_span`. */
  function EmptySpan(edge: real, scale: Scale): (s: real)
    ensures s > 0.0
  {
    if scale.Log? then 0.05 else if edge == 0.0 then 1.0 else Abs(edge) * 0.05
  }

  /** `_domain`. */
  function Domain(l: Logarithm, values: seq<real>, scale: Scale, lower: Option<real>, upper: Option<real>)
    : Outcome<(real, real)>
  {
    var (autoLo, autoHi) := Automatic(l, values, scale);
    var lo := if lower.Some? then Transform(l, lower.value, scale) else autoLo;
    var hi := if upper.Some? then Transform(l, upper.value, scale) else autoHi;
    if lo < hi then Ok((lo, hi))
    else if lower.Some? && upper.None? then Ok((lo, lo + EmptySpan(lo, scale)))
    else if lower.None? && upper.Some? then Ok((hi - EmptySpan(hi, scale), hi))
    else Raise
  }

  /** `_axis_bound` and `_validate_bound_order` accepted these bounds. */
  predicate BoundsValid(scale: Scale, lower: Option<real>, upper: Option<real>) {
    && (lower.Some? ==> Placeable(lower.value, scale))
    && (upper.Some? ==> Placeable(upper.value, scale))
    && (lower.Some? && upper.Some? ==> lower.value < upper.value)
  }

  lemma AutomaticContains(l: Logarithm, values: seq<real>, scale: Scale)
    ensures var (lo, hi) := Automatic(l, values, scale);
            lo < hi && forall v | v in values :: lo < Transform(l, v, scale) < hi
  {
    if values != [] {
      var t := Transformed(l, values, scale);
      forall v | v in values ensures Transform(l, v, scale) in t {
        var i :| 0 <= i < |values| && values[i] == v;
        assert t[i] == Transform(l, v, scale);
      }
    }
  }

  /** For every mix of explicit and automatic bounds the domain exists, and its minimum is
      less than its maximum. */
  lemma DomainExists(l: Logarithm, values: seq<real>, scale: Scale, lower: Option<real>, upper: Option<real>)
    requires Genuine(l) && BoundsValid(scale, lower, upper)
    ensures var d := Domain(l, values, scale, lower, upper); d.Ok? && d.value.0 < d.value.1
  {
    AutomaticContains(l, values, scale);
    if lower.Some? && upper.Some? {
      TransformOrder(l, scale, lower.value, upper.value);
    }
  }

  /** `low` and `high` are the least and the greatest transformed value. */
  ghost predicate Extremes(l: Logarithm, values: seq<real>, scale: Scale, low: real, high: real) {
    && (exists v | v in values :: Transform(l, v, scale) == low)
    && (exists v | v in values :: Transform(l, v, scale) == high)
    && (forall v | v in values :: low <= Transform(l, v, scale) <= high)
  }

  /** The extreme values are a twentieth of their distance away from the ends of an automatic
      domain; a single value is in its middle, and without values the domain is the unit. */
  lemma AutomaticShape(l: Logarithm, values: seq<real>, scale: Scale, low: real, high: real)
    requires values != [] ==> Extremes(l, values, scale, low, high)
    ensures var (lo, hi) := Automatic(l, values, scale);
            if values == [] then lo == 0.0 && hi == 1.0
            else if low < high then 20.0 * (low - lo) == high - low && 20.0 * (hi - high) == high - low
            else && low - lo == hi - low
                 && hi - lo == if scale.Log? then 0.1 else if low == 0.0 then 2.0 else Abs(low) * 0.1
  {
    if values != [] {
      var t := Transformed(l, values, scale);
      forall v | v in values ensures Transform(l, v, scale) in t {
        var i :| 0 <= i < |values| && values[i] == v;
        assert t[i] == Transform(l, v, scale);
      }
      forall x | x in t ensures low <= x <= high {
        var i :| 0 <= i < |t| && t[i] == x;
        assert values[i] in values;
      }
    }
  }

  /** An explicit bound is the end of the domain on its side. The other end is the automatic
      one if that leaves room, and otherwise as far away as the width for a single value. */
  lemma DomainShape(l: Logarithm, values: seq<real>, scale: Scale, lower: Option<real>, upper: Option<real>)
    requires Genuine(l) && BoundsValid(scale, lower, upper)
    ensures var d := Domain(l, values, scale, lower, upper);
            var (lo, hi) := Automatic(l, values, scale);
            && d.Ok?
            && (lower.Some? ==> d.value.0 == Transform(l, lower.value, scale))
            && (upper.Some? ==> d.value.1 == Transform(l, upper.value, scale))
            && (lower.None? && (upper.None? || lo < d.value.1) ==> d.value.0 == lo)
            && (upper.None? && (lower.None? || d.value.0 < hi) ==> d.value.1 == hi)
            && (lower.None? && upper.Some? && lo >= d.value.1 ==> IsFallback(d.value.1, d.value.1 - d.value.0, scale))
            && (upper.None? && lower.Some? && d.value.0 >= hi ==> IsFallback(d.value.0, d.value.1 - d.value.0, scale))
  {
    DomainExists(l, values, scale, lower, upper);
  }

  /** The width of a domain of which only the end `edge` is known. */
  predicate IsFallback(edge: real, width: real, scale: Scale) {
    if scale.Log? then width == 0.05 else if edge == 0.0 then width == 1.0 else 20.0 * width == Abs(edge)
  }

  /** `_within_bounds`. */
  predicate WithinBounds(v: real, lower: Option<real>, upper: Option<real>) {
    (lower.Some? ==> v >= lower.value) && (upper.Some? ==> v <= upper.value)
  }

  /** Every plotted value within the explicit bounds is in the domain. */
  lemma InRangeIsInDomain(l: Logarithm, values: seq<real>, scale: Scale, lower: Option<real>, upper: Option<real>,
                          v: real)
    requires Genuine(l) && BoundsValid(scale, lower, upper)
    requires v in values && Placeable(v, scale) && WithinBounds(v, lower, upper)
    ensures var d := Domain(l, values, scale, lower, upper);
            d.Ok? && d.value.0 <= Transform(l, v, scale) <= d.value.1
  {
    AutomaticContains(l, values, scale);
    DomainExists(l, values, scale, lower, upper);
    if lower.Some? {
      TransformOrder(l, scale, v, lower.value);
    }
    if upper.Some? {
      TransformOrder(l, scale, upper.value, v);
    }
  }

  // ---- positions ----

  const PLOT_LEFT := 92.0
  const PLOT_TOP := 20.0
  const PLOT_WIDTH := 684.0
  const PLOT_HEIGHT := 344.0

  function XPosition(t: real, lo: real, hi: real): real
    requires lo < hi
  {
    PLOT_LEFT + (t - lo) / (hi - lo) * PLOT_WIDTH
  }

  function YPosition(t: real, lo: real, hi: real): real
    requires lo < hi
  {
    PLOT_TOP + PLOT_HEIGHT - (t - lo) / (hi - lo) * PLOT_HEIGHT
  }

  lemma FractionOrder(a: real, b: real, lo: real, hi: real)
    requires lo < hi
    ensures a < b <==> (a - lo) / (hi - lo) < (b - lo) / (hi - lo)
    ensures lo <= a <= hi <==> 0.0 <= (a - lo) / (hi - lo) <= 1.0
  {
    var w := hi - lo;
    Quotient(a - lo, w);
    Quotient(b - lo, w);
    MulOrder((a - lo) / w, (b - lo) / w, w);
    DivideBy(a - lo, 0.0, w);
    DivideBy(a - lo, 1.0, w);
  }

  /** A transformed value is in the domain exactly when its point is inside the plot
      rectangle on that axis; x keeps the order of values, y reverses it. */
  lemma PositionOrder(a: real, b: real, lo: real, hi: real)
    requires lo < hi
    ensures a < b <==> XPosition(a, lo, hi) < XPosition(b, lo, hi)
    ensures a < b <==> YPosition(a, lo, hi) > YPosition(b, lo, hi)
    ensures lo <= a <= hi <==> 92.0 <= XPosition(a, lo, hi) <= 776.0
    ensures lo <= a <= hi <==> 20.0 <= YPosition(a, lo, hi) <= 364.0
  {
    FractionOrder(a, b, lo, hi);
  }

  /** `_value_position`: interval ends are clamped to the rectangle. */
  function ClampedFraction(t: real, lo: real, hi: real): (f: real)
    requires lo < hi
    ensures 0.0 <= f <= 1.0
  {
    var f := (t - lo) / (hi - lo);
    var below := if f < 1.0 then f else 1.0;
    if below > 0.0 then below else 0.0
  }

  /** Clamping changes nothing inside the domain and keeps the order everywhere. */
  lemma ClampKeepsOrder(a: real, b: real, lo: real, hi: real)
    requires lo < hi && a <= b
    ensures ClampedFraction(a, lo, hi) <= ClampedFraction(b, lo, hi)
    ensures lo <= a <= hi ==> PLOT_LEFT + ClampedFraction(a, lo, hi) * PLOT_WIDTH == XPosition(a, lo, hi)
    ensures lo <= a <= hi ==> PLOT_TOP + (1.0 - ClampedFraction(a, lo, hi)) * PLOT_HEIGHT == YPosition(a, lo, hi)
  {
    FractionOrder(a, b, lo, hi);
    FractionOrder(b, a, lo, hi);
  }

  // ---- logarithmic ticks ----

  function FilterPositive(values: seq<real>): (r: seq<real>)
    ensures forall v :: v in r <==> v in values && v > 0.0
  {
    if values == [] then []
    else (if values[0] > 0.0 then [values[0]] else []) + FilterPositive(values[1..])
  }

  /** The powers of ten from exponent `first` to `last`. */
  function Decades(first: int, last: int): seq<real> {
    seq(if last >= first then last - first + 1 else 0, i requires i >= 0 => Pow10(first + i))
  }

  /** `m` times a power of ten. */
  function PartOfDecade(m: nat, e: int): real {
    m as real * Pow10(e)
  }

  /** 1 to 9 times one power of ten, those within the range. */
  function InDecade(e: int, lo: real, hi: real, m: nat): (r: seq<real>)
    requires m <= 10
    ensures forall v | v in r :: lo <= v <= hi
    decreases 10 - m
  {
    if m == 10 then []
    else
      var v := PartOfDecade(m, e);
      (if m >= 1 && lo <= v <= hi then [v] else []) + InDecade(e, lo, hi, m + 1)
  }

  function Subdivided(first: int, last: int, lo: real, hi: real): (r: seq<real>)
    ensures forall v | v in r :: lo <= v <= hi
    decreases last - first
  {
    if last < first then [] else InDecade(first, lo, hi, 1) + Subdivided(first + 1, last, lo, hi)
  }

  /** The values whose leading part is 1, 2 or 5. */
  function OneTwoFive(values: seq<real>): (r: seq<real>)
    requires forall v | v in values :: v > 0.0
    ensures forall v | v in r :: v in values
  {
    if values == [] then []
    else
      var v := values[0];
      assert v in values && forall w | w in values[1..] :: w in values;
      var lead := v / Pow10(Adjusted(v));
      (if lead == 1.0 || lead == 2.0 || lead == 5.0 then [v] else []) + OneTwoFive(values[1..])
  }

  /** `_log_tick_values`. */
  function LogTicks(l: Logarithm, lo: real, hi: real): Ticks
    requires Genuine(l) && lo < hi
  {
    var rawLo, rawHi := l.pow10(lo), l.pow10(hi);
    PowOrder(l, lo, hi);
    if hi - lo < 1.0 then
      var t := LinearTicks(rawLo, rawHi, 6);
      Ticks(FilterPositive(t.major), FilterPositive(t.minor))
    else
      var parts := Subdivided(lo.Floor, hi.Floor, rawLo, rawHi);
      var major := if hi - lo < 2.5 then OneTwoFive(parts) else Decades(Ceiling(lo), hi.Floor);
      Ticks(major, Without(parts, major))
  }

  lemma PowOrder(l: Logarithm, a: real, b: real)
    requires Genuine(l)
    ensures a < b <==> l.pow10(a) < l.pow10(b)
  {
    assert l.log10(l.pow10(a)) == a && l.log10(l.pow10(b)) == b;
  }

  lemma {:induction false} AllPositive(values: seq<real>)
    requires forall v | v in values :: v > 0.0
    ensures FilterPositive(values) == values
  {
    if values != [] {
      assert values[0] in values && forall v | v in values[1..] :: v in values;
      AllPositive(values[1..]);
      assert [values[0]] + values[1..] == values;
    }
  }

  /** A logarithmic axis that spans less than a decade has between 3 and 9 major ticks. */
  lemma SubDecadeCount(l: Logarithm, lo: real, hi: real)
    requires Genuine(l) && lo < hi < lo + 1.0
    ensures 3 <= |LogTicks(l, lo, hi).major| <= 9
  {
    var rawLo, rawHi := l.pow10(lo), l.pow10(hi);
    PowOrder(l, lo, hi);
    var t := LinearTicks(rawLo, rawHi, 6);
    forall v | v in t.major ensures v > 0.0 {
      TicksInDomain(rawLo, rawHi, 6, v);
    }
    AllPositive(t.major);
    MajorTickCount(rawLo, rawHi, 6);
  }

  /** Every tick of a logarithmic axis lies between the ends of the domain, and no value is
      both a major and a minor tick. */
  lemma LogTicksInDomain(l: Logarithm, lo: real, hi: real, v: real)
    requires Genuine(l) && lo < hi
    requires v in LogTicks(l, lo, hi).major || v in LogTicks(l, lo, hi).minor
    ensures l.pow10(lo) <= v <= l.pow10(hi) && lo <= l.log10(v) <= hi
    ensures !(v in LogTicks(l, lo, hi).major && v in LogTicks(l, lo, hi).minor)
  {
    var rawLo, rawHi := l.pow10(lo), l.pow10(hi);
    PowOrder(l, lo, hi);
    if hi - lo < 1.0 {
      TicksInDomain(rawLo, rawHi, 6, v);
    } else if hi - lo >= 2.5 && v in LogTicks(l, lo, hi).major {
      var first := Ceiling(lo);
      var i :| 0 <= i < |Decades(first, hi.Floor)| && Decades(first, hi.Floor)[i] == v;
      var e := first + i;
      assert l.pow10(e as real) == v;
      PowOrder(l, lo, e as real);
      PowOrder(l, e as real, hi);
      PowOrder(l, e as real, lo);
      PowOrder(l, hi, e as real);
    }
    InRangeLog(l, lo, hi, v);
  }

  lemma InRangeLog(l: Logarithm, lo: real, hi: real, v: real)
    requires Genuine(l) && l.pow10(lo) <= v <= l.pow10(hi)
    ensures lo <= l.log10(v) <= hi
  {
    assert l.pow10(lo) > 0.0;
    PowOrder(l, l.log10(v), lo);
    PowOrder(l, hi, l.log10(v));
  }

  /** A logarithmic axis over at least two and a half decades has a major tick on every power
      of ten of its domain, at least two of them. */
  lemma DecadeTicks(l: Logarithm, lo: real, hi: real, e: int)
    requires Genuine(l) && hi - lo >= 2.5
    ensures |LogTicks(l, lo, hi).major| >= 2
    ensures lo <= e as real <= hi ==> Pow10(e) in LogTicks(l, lo, hi).major
  {
    var d := Decades(Ceiling(lo), hi.Floor);
    if lo <= e as real <= hi {
      assert d[e - Ceiling(lo)] == Pow10(e);
    }
  }

  // ---- logarithmic ticks in order ----

  lemma {:induction false} PositiveAscends(values: seq<real>)
    requires Ascending(values)
    ensures Ascending(FilterPositive(values))
  {
    if values != [] {
      PositiveAscends(values[1..]);
      KeepOrDrop(values, FilterPositive(values[1..]));
    }
  }

  lemma {:induction false} OneTwoFiveAscends(values: seq<real>)
    requires Ascending(values) && forall v | v in values :: v > 0.0
    ensures Ascending(OneTwoFive(values))
  {
    if values != [] {
      assert values[0] in values && forall w | w in values[1..] :: w in values;
      OneTwoFiveAscends(values[1..]);
      KeepOrDrop(values, OneTwoFive(values[1..]));
    }
  }

  lemma {:induction false} InDecadeAscends(e: int, lo: real, hi: real, m: nat)
    requires m <= 10
    ensures Ascending(InDecade(e, lo, hi, m))
    ensures forall v | v in InDecade(e, lo, hi, m) :: PartOfDecade(m, e) <= v < Pow10(e + 1) && Pow10(e) <= v
    decreases 10 - m
  {
    if m < 10 {
      var v, tail := PartOfDecade(m, e), InDecade(e, lo, hi, m + 1);
      InDecadeAscends(e, lo, hi, m + 1);
      PartsRise(m, e);
      JoinAscends(if m >= 1 && lo <= v <= hi then [v] else [], tail);
      if m >= 1 {
        PartBounds(m, e);
      }
    }
  }

  lemma PartsRise(m: nat, e: int)
    ensures PartOfDecade(m, e) < PartOfDecade(m + 1, e)
  {
    MulOrder(m as real, (m + 1) as real, Pow10(e));
  }

  lemma {:induction false} SubdividedAscends(first: int, last: int, lo: real, hi: real)
    ensures Ascending(Subdivided(first, last, lo, hi))
    ensures forall v | v in Subdivided(first, last, lo, hi) :: Pow10(first) <= v
    decreases last - first
  {
    if first <= last {
      InDecadeAscends(first, lo, hi, 1);
      SubdividedAscends(first + 1, last, lo, hi);
      Pow10Grows(first, first + 1);
      JoinAscends(InDecade(first, lo, hi, 1), Subdivided(first + 1, last, lo, hi));
    }
  }

  /** On every span the major and the minor ticks are listed from left to right, each once. */
  lemma LogTicksAscend(l: Logarithm, lo: real, hi: real)
    requires Genuine(l) && lo < hi
    ensures Ascending(LogTicks(l, lo, hi).major) && Ascending(LogTicks(l, lo, hi).minor)
  {
    var rawLo, rawHi := l.pow10(lo), l.pow10(hi);
    PowOrder(l, lo, hi);
    if hi - lo < 1.0 {
      TicksAscend(rawLo, rawHi, 6);
      PositiveAscends(LinearTicks(rawLo, rawHi, 6).major);
      PositiveAscends(LinearTicks(rawLo, rawHi, 6).minor);
    } else {
      var parts := Subdivided(lo.Floor, hi.Floor, rawLo, rawHi);
      SubdividedAscends(lo.Floor, hi.Floor, rawLo, rawHi);
      OneTwoFiveAscends(parts);
      DecadesAscend(Ceiling(lo), hi.Floor);
      WithoutAscends(parts, LogTicks(l, lo, hi).major);
    }
  }

  lemma DecadesAscend(first: int, last: int)
    ensures Ascending(Decades(first, last))
  {
    var d := Decades(first, last);
    forall i, j | 0 <= i < j < |d| ensures d[i] < d[j] {
      Pow10Grows(first + i, first + j);
    }
  }

  // ---- exactly which logarithmic ticks there are ----

  predicate IsLead(m: nat) {
    m == 1 || m == 2 || m == 5
  }

  ghost predicate PartAt(v: real, e: int) {
    exists m: nat :: 1 <= m <= 9 && v == PartOfDecade(m, e)
  }

  /** 1 to 9 times some power of ten. */
  ghost predicate IsPart(v: real) {
    exists e: int :: PartAt(v, e)
  }

  ghost predicate IsOneTwoFive(v: real) {
    exists m: nat, e: int :: IsLead(m) && v == PartOfDecade(m, e)
  }

  ghost predicate IsPowerOfTen(v: real) {
    exists e: int :: v == Pow10(e)
  }

  /** One of the multiples from `m` to 9. */
  ghost predicate PartFrom(v: real, e: int, m: nat) {
    exists k: nat :: 1 <= k <= 9 && m <= k && v == PartOfDecade(k, e)
  }

  lemma {:induction false} InDecadeAre(e: int, lo: real, hi: real, m: nat, v: real)
    requires m <= 10
    ensures v in InDecade(e, lo, hi, m) <==> lo <= v <= hi && PartFrom(v, e, m)
    decreases 10 - m
  {
    if m < 10 {
      InDecadeAre(e, lo, hi, m + 1, v);
      assert PartFrom(v, e, m) <==> (m >= 1 && v == PartOfDecade(m, e)) || PartFrom(v, e, m + 1);
    }
  }

  lemma DecadeIs(e: int, lo: real, hi: real, v: real, values: seq<real>)
    requires values == InDecade(e, lo, hi, 1)
    ensures v in values <==> lo <= v <= hi && PartAt(v, e)
  {
    InDecadeAre(e, lo, hi, 1, v);
    assert PartFrom(v, e, 1) <==> PartAt(v, e);
  }

  ghost predicate PartBetween(v: real, first: int, last: int) {
    exists e: int :: first <= e <= last && PartAt(v, e)
  }

  lemma PartBetweenStep(v: real, first: int, last: int)
    requires first <= last
    ensures PartBetween(v, first, last) <==> PartAt(v, first) || PartBetween(v, first + 1, last)
  {
  }

  lemma {:induction false} SubdividedAre(first: int, last: int, lo: real, hi: real, v: real)
    ensures v in Subdivided(first, last, lo, hi)
            <==> lo <= v <= hi && PartBetween(v, first, last)
    decreases last - first
  {
    if first <= last {
      DecadeIs(first, lo, hi, v, InDecade(first, lo, hi, 1));
      PartBetweenStep(v, first, last);
      SubdividedAre(first + 1, last, lo, hi, v);
    }
  }

  /** A part of a decade that lies in the domain belongs to one of the decades searched. */
  lemma PartInDomain(l: Logarithm, lo: real, hi: real, v: real, e: int)
    requires Genuine(l) && PartAt(v, e) && l.pow10(lo) <= v <= l.pow10(hi)
    ensures lo.Floor <= e <= hi.Floor
  {
    var m: nat :| 1 <= m <= 9 && v == PartOfDecade(m, e);
    PartBounds(m, e);
    assert l.pow10(e as real) == Pow10(e) && l.pow10((e + 1) as real) == Pow10(e + 1);
    PowOrder(l, hi, e as real);
    PowOrder(l, lo, (e + 1) as real);
  }

  lemma PartBounds(m: nat, e: int)
    requires 1 <= m <= 9
    ensures Pow10(e) <= PartOfDecade(m, e) < Pow10(e + 1)
  {
    Pow10Next(e);
    TimesBounds(m as real, Pow10(e), PartOfDecade(m, e));
  }

  lemma TimesBounds(m: real, p: real, v: real)
    requires 1.0 <= m < 10.0 && p > 0.0 && v == m * p
    ensures p <= v < 10.0 * p
  {
    assert (m - 1.0) * p >= 0.0;
    assert (10.0 - m) * p > 0.0;
  }

  lemma PartsAreExact(l: Logarithm, lo: real, hi: real, v: real)
    requires Genuine(l) && lo < hi
    ensures v in Subdivided(lo.Floor, hi.Floor, l.pow10(lo), l.pow10(hi))
            <==> l.pow10(lo) <= v <= l.pow10(hi) && IsPart(v)
  {
    SubdividedAre(lo.Floor, hi.Floor, l.pow10(lo), l.pow10(hi), v);
    if l.pow10(lo) <= v <= l.pow10(hi) && IsPart(v) {
      var e: int :| PartAt(v, e);
      PartInDomain(l, lo, hi, v, e);
      assert PartBetween(v, lo.Floor, hi.Floor);
    }
  }

  predicate LeadOf(v: real)
    requires v > 0.0
  {
    var lead := v / Pow10(Adjusted(v));
    lead == 1.0 || lead == 2.0 || lead == 5.0
  }

  lemma LeadOfPart(m: nat, e: int)
    requires 1 <= m <= 9
    ensures PartOfDecade(m, e) > 0.0 && (LeadOf(PartOfDecade(m, e)) <==> IsLead(m))
  {
    LeadOfValue(PartOfDecade(m, e), m as real, e, Pow10(e));
  }

  lemma LeadOfValue(v: real, m: real, e: int, p: real)
    requires 1.0 <= m < 10.0 && p == Pow10(e) && v == m * p
    ensures v > 0.0 && (LeadOf(v) <==> m == 1.0 || m == 2.0 || m == 5.0)
  {
    TimesBounds(m, p, v);
    Pow10Next(e);
    AdjustedIs(v, e);
    QuotientOf(v, m, p);
  }

  lemma QuotientOf(v: real, m: real, p: real)
    requires p > 0.0 && v == m * p
    ensures v / p == m
  {
    SameQuotient(m, p);
  }

  lemma {:induction false} OneTwoFiveAre(values: seq<real>, v: real)
    requires forall w | w in values :: w > 0.0
    ensures v in OneTwoFive(values) <==> v in values && LeadOf(v)
  {
    if values != [] {
      assert values[0] in values && forall w | w in values[1..] :: w in values;
      OneTwoFiveAre(values[1..], v);
      assert values == [values[0]] + values[1..];
    }
  }

  lemma OneTwoFiveIsLeadingPart(v: real)
    ensures IsOneTwoFive(v) <==> v > 0.0 && IsPart(v) && LeadOf(v)
  {
    if IsOneTwoFive(v) {
      var m: nat, e: int :| IsLead(m) && v == PartOfDecade(m, e);
      LeadOfPart(m, e);
      assert PartAt(v, e);
    }
    if v > 0.0 && IsPart(v) && LeadOf(v) {
      var e: int :| PartAt(v, e);
      var m: nat :| 1 <= m <= 9 && v == PartOfDecade(m, e);
      LeadOfPart(m, e);
    }
  }

  lemma DecadesAre(l: Logarithm, lo: real, hi: real, v: real)
    requires Genuine(l) && lo < hi
    ensures v in Decades(Ceiling(lo), hi.Floor) <==> l.pow10(lo) <= v <= l.pow10(hi) && IsPowerOfTen(v)
  {
    var first, d := Ceiling(lo), Decades(Ceiling(lo), hi.Floor);
    if v in d {
      var i :| 0 <= i < |d| && d[i] == v;
      PowerInDomain(l, lo, hi, first + i);
    }
    if l.pow10(lo) <= v <= l.pow10(hi) && IsPowerOfTen(v) {
      var e: int :| v == Pow10(e);
      PowerInDomain(l, lo, hi, e);
      assert d[e - first] == v;
    }
  }

  lemma PowerInDomain(l: Logarithm, lo: real, hi: real, e: int)
    requires Genuine(l)
    ensures l.pow10(lo) <= Pow10(e) <= l.pow10(hi) <==> lo <= e as real <= hi
  {
    assert l.pow10(e as real) == Pow10(e);
    PowOrder(l, e as real, lo);
    PowOrder(l, hi, e as real);
  }

  /** Below one decade the ticks are those of a linear axis. From one decade on, every multiple
      1 to 9 of a power of ten in the domain is a tick: the 1-2-5 values are the major ones
      below two and a half decades, from there on the powers of ten. */
  lemma LogTicksAreExact(l: Logarithm, lo: real, hi: real, v: real)
    requires Genuine(l) && lo < hi
    ensures var t, a, b := LogTicks(l, lo, hi), l.pow10(lo), l.pow10(hi);
            && (v in t.minor ==> v !in t.major)
            && if hi - lo < 1.0 then
                 a < b && var step := StepOf(a, b, 6);
                 && (v in t.major <==> MultipleIn(a, b, step, v))
                 && (v in t.major || v in t.minor
                     <==> MultipleIn(a, b, step, v) || MultipleIn(a, b, MinorStep(step), v))
               else
                 && (v in t.major <==> a <= v <= b && if hi - lo < 2.5 then IsOneTwoFive(v) else IsPowerOfTen(v))
                 && (v in t.major || v in t.minor <==> a <= v <= b && IsPart(v))
  {
    PowOrder(l, lo, hi);
    if hi - lo < 1.0 {
      TicksInDomain(l.pow10(lo), l.pow10(hi), 6, v);
    } else {
      PartsAreExact(l, lo, hi, v);
      if hi - lo < 2.5 {
        OneTwoFiveAre(Subdivided(lo.Floor, hi.Floor, l.pow10(lo), l.pow10(hi)), v);
        OneTwoFiveIsLeadingPart(v);
      } else {
        DecadesAre(l, lo, hi, v);
        PowersAreParts(v);
      }
    }
  }

  lemma PowersAreParts(v: real)
    ensures IsPowerOfTen(v) ==> IsPart(v)
  {
    if IsPowerOfTen(v) {
      var e: int :| v == Pow10(e);
      assert v == PartOfDecade(1, e);
      assert PartAt(v, e);
    }
  }

  // ---- how many 1-2-5 ticks there are ----

  /** `pow10` turns sums into products. */
  ghost predicate Multiplies(l: Logarithm) {
    forall a, b {:trigger Product(l, a, b)} :: Product(l, a, b)
  }

  ghost predicate Product(l: Logarithm, a: real, b: real) {
    l.pow10(a + b) == l.pow10(a) * l.pow10(b)
  }

  function Within(v: real, lo: real, hi: real): nat {
    if lo <= v <= hi then 1 else 0
  }

  /** The number of 1-2-5 values of one decade that lie in the range. */
  function LeadsOf(p: real, lo: real, hi: real): nat {
    Within(p, lo, hi) + Within(2.0 * p, lo, hi) + Within(5.0 * p, lo, hi)
  }

  function LeadsFrom(e: int, lo: real, hi: real, m: nat): nat
    requires m <= 10
    decreases 10 - m
  {
    if m == 10 then 0
    else (if IsLead(m) then Within(PartOfDecade(m, e), lo, hi) else 0) + LeadsFrom(e, lo, hi, m + 1)
  }

  lemma {:induction false} OneTwoFiveConcat(a: seq<real>, b: seq<real>)
    requires (forall v | v in a :: v > 0.0) && forall v | v in b :: v > 0.0
    ensures forall v | v in a + b :: v > 0.0
    ensures |OneTwoFive(a + b)| == |OneTwoFive(a)| + |OneTwoFive(b)|
  {
    if a == [] {
      assert a + b == b;
    } else {
      assert a[0] in a && forall v | v in a[1..] :: v in a;
      OneTwoFiveConcat(a[1..], b);
      assert (a + b)[1..] == a[1..] + b;
    }
  }

  lemma {:induction false} InDecadeCount(e: int, lo: real, hi: real, m: nat)
    requires 1 <= m <= 10 && lo > 0.0
    ensures |OneTwoFive(InDecade(e, lo, hi, m))| == LeadsFrom(e, lo, hi, m)
    decreases 10 - m
  {
    if m < 10 {
      InDecadeCount(e, lo, hi, m + 1);
      LeadOfPart(m, e);
      NextOfDecade(e, lo, hi, m, PartOfDecade(m, e), InDecade(e, lo, hi, m + 1), InDecade(e, lo, hi, m));
    }
  }

  lemma NextOfDecade(e: int, lo: real, hi: real, m: nat, v: real, others: seq<real>, all: seq<real>)
    requires lo > 0.0 && v > 0.0 && (forall w | w in others :: w > 0.0) && (LeadOf(v) <==> IsLead(m))
    requires all == (if lo <= v <= hi then [v] else []) + others
    ensures forall w | w in all :: w > 0.0
    ensures |OneTwoFive(all)| == (if IsLead(m) then Within(v, lo, hi) else 0) + |OneTwoFive(others)|
  {
    if lo <= v <= hi {
      OneMoreValue(v, others);
    } else {
      assert all == others;
    }
  }

  lemma OneMoreValue(v: real, others: seq<real>)
    requires v > 0.0 && forall w | w in others :: w > 0.0
    ensures forall w | w in [v] + others :: w > 0.0
    ensures |OneTwoFive([v] + others)| == (if LeadOf(v) then 1 else 0) + |OneTwoFive(others)|
  {
    assert ([v] + others)[1..] == others;
  }

  lemma LeadsOfDecade(e: int, lo: real, hi: real, p: real)
    requires p == Pow10(e)
    ensures LeadsFrom(e, lo, hi, 1) == LeadsOf(p, lo, hi)
  {
    assert PartOfDecade(1, e) == p && PartOfDecade(2, e) == 2.0 * p && PartOfDecade(5, e) == 5.0 * p;
    assert LeadsFrom(e, lo, hi, 6) == 0 by {
      assert LeadsFrom(e, lo, hi, 8) == 0;
    }
    assert LeadsFrom(e, lo, hi, 3) == Within(5.0 * p, lo, hi);
  }

  lemma SubdividedCount(first: int, last: int, lo: real, hi: real, p: real)
    requires first <= last && lo > 0.0 && p == Pow10(first)
    ensures |OneTwoFive(Subdivided(first, last, lo, hi))|
            == LeadsOf(p, lo, hi) + |OneTwoFive(Subdivided(first + 1, last, lo, hi))|
  {
    OneTwoFiveConcat(InDecade(first, lo, hi, 1), Subdivided(first + 1, last, lo, hi));
    InDecadeCount(first, lo, hi, 1);
    LeadsOfDecade(first, lo, hi, p);
  }

  /** Over a range from 10 to 317 times its lower end, whose ends are in the first and the last
      of two, three or four decades. */
  lemma LeadsInRange(p: real, lo: real, hi: real)
    requires p > 0.0 && p <= lo < 10.0 * p && 10.0 * lo <= hi < 317.0 * lo
    ensures hi < 100.0 * p ==> 3 <= LeadsOf(p, lo, hi) + LeadsOf(10.0 * p, lo, hi) <= 8
    ensures 100.0 * p <= hi < 1000.0 * p ==>
              3 <= LeadsOf(p, lo, hi) + LeadsOf(10.0 * p, lo, hi) + LeadsOf(100.0 * p, lo, hi) <= 8
    ensures 1000.0 * p <= hi ==>
              3 <= LeadsOf(p, lo, hi) + LeadsOf(10.0 * p, lo, hi) + LeadsOf(100.0 * p, lo, hi)
                   + LeadsOf(1000.0 * p, lo, hi) <= 8
  {
  }

  /** A span of one decade is a factor of ten, one of two and a half less than 317. */
  lemma SpanIsFactor(l: Logarithm, lo: real, hi: real)
    requires Genuine(l) && Multiplies(l) && 1.0 <= hi - lo < 2.5
    ensures 10.0 * l.pow10(lo) <= l.pow10(hi) < 317.0 * l.pow10(lo)
  {
    assert l.pow10(1 as real) == Pow10(1) == 10.0 * Pow10(0);
    assert Product(l, lo, 1.0) && Product(l, lo, 2.5) && Product(l, 2.5, 2.5);
    PowOrder(l, hi, lo + 1.0);
    PowOrder(l, hi, lo + 2.5);
    HalfDecades(l);
    BelowFactor(l.pow10(lo), l.pow10(2.5), l.pow10(hi));
  }

  lemma BelowFactor(x: real, r: real, h: real)
    requires x > 0.0 && r < 317.0 && h < x * r
    ensures h < 317.0 * x
  {
    MulOrder(r, 317.0, x);
  }

  lemma HalfDecades(l: Logarithm)
    requires Genuine(l) && Multiplies(l)
    ensures l.pow10(2.5) < 317.0
  {
    var r := l.pow10(2.5);
    assert Product(l, 2.5, 2.5);
    assert l.pow10(5 as real) == Pow10(5);
    assert Pow10(3) == 1000.0;
    assert Pow10(5) == 100000.0;
    assert r * r == 100000.0;
    if r >= 317.0 {
      MulOrder(317.0, r, r);
    }
  }

  /** A logarithmic axis over one to two and a half decades has 3 to 8 major ticks. */
  lemma OneTwoFiveCount(l: Logarithm, lo: real, hi: real)
    requires Genuine(l) && Multiplies(l) && 1.0 <= hi - lo < 2.5
    ensures 3 <= |LogTicks(l, lo, hi).major| <= 8
  {
    PowOrder(l, lo, hi);
    SpanIsFactor(l, lo, hi);
    DecadeOf(l, lo);
    DecadeOf(l, hi);
    CountOver(lo.Floor, hi.Floor, l.pow10(lo), l.pow10(hi), Pow10(lo.Floor));
  }

  lemma DecadeOf(l: Logarithm, x: real)
    requires Genuine(l)
    ensures Pow10(x.Floor) <= l.pow10(x) < Pow10(x.Floor + 1)
  {
    var e := x.Floor;
    assert l.pow10(e as real) == Pow10(e) && l.pow10((e + 1) as real) == Pow10(e + 1);
    PowOrder(l, x, e as real);
    PowOrder(l, x, (e + 1) as real);
  }

  lemma CountOver(first: int, last: int, lo: real, hi: real, p: real)
    requires p == Pow10(first) && first < last <= first + 3
    requires p <= lo < Pow10(first + 1) && Pow10(last) <= hi < Pow10(last + 1) && 10.0 * lo <= hi < 317.0 * lo
    ensures 3 <= |OneTwoFive(Subdivided(first, last, lo, hi))| <= 8
  {
    Pow10Next(first);
    Pow10Next(first + 1);
    Pow10Next(first + 2);
    Pow10Next(first + 3);
    CountByDecades(first, last, lo, hi, p, Pow10(first + 1), Pow10(first + 2), Pow10(first + 3));
    LeadsInRange(p, lo, hi);
  }

  lemma CountByDecades(first: int, last: int, lo: real, hi: real, p: real, p1: real, p2: real, p3: real)
    requires first < last <= first + 3 && lo > 0.0
    requires p == Pow10(first) && p1 == Pow10(first + 1) && p2 == Pow10(first + 2) && p3 == Pow10(first + 3)
    ensures |OneTwoFive(Subdivided(first, last, lo, hi))|
            == LeadsOf(p, lo, hi) + LeadsOf(p1, lo, hi) + (if first + 2 <= last then LeadsOf(p2, lo, hi) else 0)
               + (if first + 3 <= last then LeadsOf(p3, lo, hi) else 0)
  {
    SubdividedCount(first, last, lo, hi, p);
    SubdividedCount(first + 1, last, lo, hi, p1);
    if first + 2 <= last {
      SubdividedCount(first + 2, last, lo, hi, p2);
    }
    if first + 3 <= last {
      SubdividedCount(first + 3, last, lo, hi, p3);
    }
  }
}
