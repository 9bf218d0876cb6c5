/** The population of a scatter plot: which results are plotted, why the others are not, and
    where the plotted ones go. */
module ScatterPlot {
  import opened Text
  import opened PlotDomain

  /** A result with its two axis values and, for a metric, the stored interval of each. */
  datatype Item = Item(id: nat, x: Option<real>, y: Option<real>,
                       xInterval: Option<(real, real)>, yInterval: Option<(real, real)>)

  datatype Axis = Axis(scale: Scale, lower: Option<real>, upper: Option<real>)

  datatype Point = Point(id: nat, x: real, y: real)

  datatype Plot = Plot(points: seq<Point>, nulls: nat, logs: nat, ranges: nat,
                       xDomain: (real, real), yDomain: (real, real))

  /** Why a result is left out, or that it is not. */
  datatype Fate = NullValue | NonPositive | OutOfRange | Shown

  function FateOf(i: Item, xAxis: Axis, yAxis: Axis): Fate {
    if i.x.None? || i.y.None? then NullValue
    else if !Placeable(i.x.value, xAxis.scale) || !Placeable(i.y.value, yAxis.scale) then NonPositive
    else if !WithinBounds(i.x.value, xAxis.lower, xAxis.upper) || !WithinBounds(i.y.value, yAxis.lower, yAxis.upper)
    then OutOfRange
    else Shown
  }

  /** Why a result is left out, in terms of its values and of the two axes. */
  lemma FateCondition(i: Item, xAxis: Axis, yAxis: Axis)
    ensures FateOf(i, xAxis, yAxis) == NullValue <==> i.x == None || i.y == None
    ensures FateOf(i, xAxis, yAxis) == NonPositive
            <==> && i.x.Some? && i.y.Some?
                 && ((xAxis.scale == Log && i.x.value <= 0.0) || (yAxis.scale == Log && i.y.value <= 0.0))
    ensures FateOf(i, xAxis, yAxis) == Shown
            <==> && i.x.Some? && (xAxis.scale == Log ==> i.x.value > 0.0)
                 && (xAxis.lower.Some? ==> xAxis.lower.value <= i.x.value)
                 && (xAxis.upper.Some? ==> i.x.value <= xAxis.upper.value)
                 && i.y.Some? && (yAxis.scale == Log ==> i.y.value > 0.0)
                 && (yAxis.lower.Some? ==> yAxis.lower.value <= i.y.value)
                 && (yAxis.upper.Some? ==> i.y.value <= yAxis.upper.value)
  {
  }

  /** `_stored_interval`: a complete interval that can be drawn on the axis. */
  function Drawable(interval: Option<(real, real)>, scale: Scale): Option<(real, real)> {
    if interval.None? || interval.value.0 > interval.value.1 then None
    else if scale.Log? && (interval.value.0 <= 0.0 || interval.value.1 <= 0.0) then None
    else interval
  }

  /** The results with a given fate, in the order of the population. */
  function WithFate(items: seq<Item>, xAxis: Axis, yAxis: Axis, fate: Fate): seq<Item> {
    if items == [] then []
    else
      var last := items[|items| - 1];
      WithFate(items[..|items| - 1], xAxis, yAxis, fate) + (if FateOf(last, xAxis, yAxis) == fate then [last] else [])
  }

  /** Values that take part in the choice of the domain: those of every result that has two
      values its scales can show, in range or not. */
  predicate TakesPart(i: Item, xAxis: Axis, yAxis: Axis) {
    var f := FateOf(i, xAxis, yAxis);
    f == Shown || f == OutOfRange
  }

  /** The results that take part, in the order of the population. */
  function Participants(items: seq<Item>, xAxis: Axis, yAxis: Axis): (r: seq<Item>)
    ensures Numeric(r) && forall i | i in r :: TakesPart(i, xAxis, yAxis)
  {
    if items == [] then []
    else
      var last := items[|items| - 1];
      Participants(items[..|items| - 1], xAxis, yAxis) + (if TakesPart(last, xAxis, yAxis) then [last] else [])
  }

  lemma FateOfNext(items: seq<Item>, i: Item, xAxis: Axis, yAxis: Axis, fate: Fate)
    ensures WithFate(items + [i], xAxis, yAxis, fate)
            == WithFate(items, xAxis, yAxis, fate) + (if FateOf(i, xAxis, yAxis) == fate then [i] else [])
  {
    assert (items + [i])[..|items|] == items;
  }

  lemma {:induction false} ParticipantsKeepFates(items: seq<Item>, xAxis: Axis, yAxis: Axis, fate: Fate)
    requires fate == Shown || fate == OutOfRange
    ensures WithFate(Participants(items, xAxis, yAxis), xAxis, yAxis, fate) == WithFate(items, xAxis, yAxis, fate)
  {
    if items != [] {
      var last := items[|items| - 1];
      var before := Participants(items[..|items| - 1], xAxis, yAxis);
      ParticipantsKeepFates(items[..|items| - 1], xAxis, yAxis, fate);
      if TakesPart(last, xAxis, yAxis) {
        FateOfNext(before, last, xAxis, yAxis, fate);
      } else {
        assert Participants(items, xAxis, yAxis) == before;
        assert FateOf(last, xAxis, yAxis) != fate;
      }
    }
  }

  predicate Numeric(items: seq<Item>) {
    forall i | i in items :: i.x.Some? && i.y.Some?
  }

  function Values(items: seq<Item>, horizontal: bool): (r: seq<real>)
    requires Numeric(items)
    ensures forall i | i in items :: (if horizontal then i.x.value else i.y.value) in r
  {
    if items == [] then []
    else
      var last := items[|items| - 1];
      assert items == items[..|items| - 1] + [last];
      Values(items[..|items| - 1], horizontal) + [if horizontal then last.x.value else last.y.value]
  }

  function IntervalEnds(items: seq<Item>, scale: Scale, horizontal: bool): seq<real> {
    if items == [] then []
    else
      var last := items[|items| - 1];
      var interval := Drawable(if horizontal then last.xInterval else last.yInterval, scale);
      IntervalEnds(items[..|items| - 1], scale, horizontal)
      + (if interval.Some? then [interval.value.0, interval.value.1] else [])
  }

  /** `_domain_values`. */
  function DomainValues(items: seq<Item>, scale: Scale, horizontal: bool, uncertainty: bool): (r: seq<real>)
    requires Numeric(items)
    ensures forall i | i in items :: (if horizontal then i.x.value else i.y.value) in r
  {
    Values(items, horizontal) + (if uncertainty then IntervalEnds(items, scale, horizontal) else [])
  }

  function AxisDomain(l: Logarithm, items: seq<Item>, axis: Axis, horizontal: bool, uncertainty: bool)
    : PlotDomain.Outcome<(real, real)>
    requires Numeric(items)
  {
    Domain(l, DomainValues(items, axis.scale, horizontal, uncertainty), axis.scale, axis.lower, axis.upper)
  }

  /** The interval is complete, the right way round and, on a logarithmic axis, positive. */
  predicate CanBeDrawn(interval: Option<(real, real)>, scale: Scale) {
    interval.Some? && interval.value.0 <= interval.value.1 && (scale.Log? ==> interval.value.0 > 0.0)
  }

  function IntervalOf(i: Item, horizontal: bool): Option<(real, real)> {
    if horizontal then i.xInterval else i.yInterval
  }

  /** The value is one of the result's value on the axis and, with uncertainty shown, the
      ends of its interval there. */
  ghost predicate ValueOf(i: Item, scale: Scale, horizontal: bool, uncertainty: bool, v: real) {
    || Some(v) == (if horizontal then i.x else i.y)
    || (uncertainty && EndOf(i, scale, horizontal, v))
  }

  /** The value is an end of the result's drawable interval. */
  predicate EndOf(i: Item, scale: Scale, horizontal: bool, v: real) {
    && CanBeDrawn(IntervalOf(i, horizontal), scale)
    && (v == IntervalOf(i, horizontal).value.0 || v == IntervalOf(i, horizontal).value.1)
  }

  lemma {:induction false} IntervalEndsAre(items: seq<Item>, scale: Scale, horizontal: bool, v: real)
    ensures v in IntervalEnds(items, scale, horizontal)
            <==> exists i | i in items :: EndOf(i, scale, horizontal, v)
  {
    if items != [] {
      var init, last := items[..|items| - 1], items[|items| - 1];
      IntervalEndsAre(init, scale, horizontal, v);
      assert items == init + [last];
      assert v in IntervalEnds(items, scale, horizontal)
             <==> v in IntervalEnds(init, scale, horizontal) || EndOf(last, scale, horizontal, v);
      assert forall i :: i in items <==> i in init || i == last;
    }
  }

  lemma {:induction false} ValuesAre(items: seq<Item>, horizontal: bool, v: real)
    requires Numeric(items)
    ensures v in Values(items, horizontal) <==> exists i | i in items :: Some(v) == if horizontal then i.x else i.y
  {
    if items != [] {
      var init, last := items[..|items| - 1], items[|items| - 1];
      assert items == init + [last];
      ValuesAre(init, horizontal, v);
    }
  }

  /** The domain is chosen for exactly the values and the drawable interval ends of the
      results that take part. */
  lemma DomainValuesAre(items: seq<Item>, scale: Scale, horizontal: bool, uncertainty: bool, v: real)
    requires Numeric(items)
    ensures v in DomainValues(items, scale, horizontal, uncertainty)
            <==> exists i | i in items :: ValueOf(i, scale, horizontal, uncertainty, v)
  {
    IntervalEndsAre(items, scale, horizontal, v);
    ValuesAre(items, horizontal, v);
    if i :| i in items && ValueOf(i, scale, horizontal, uncertainty, v) {
      assert Some(v) == (if horizontal then i.x else i.y)
             || v in IntervalEnds(items, scale, horizontal);
    }
  }

  /** With uncertainty shown, every drawable interval of a result that takes part lies inside
      an automatic domain; an explicit bound may cut it off. */
  lemma IntervalsAreInside(l: Logarithm, items: seq<Item>, axis: Axis, horizontal: bool, i: Item)
    requires Genuine(l) && Numeric(items) && i in items && BoundsValid(axis.scale, axis.lower, axis.upper)
    requires CanBeDrawn(IntervalOf(i, horizontal), axis.scale)
    ensures var d := AxisDomain(l, items, axis, horizontal, true);
            var (low, high) := IntervalOf(i, horizontal).value;
            && d.Ok?
            && (WithinBounds(low, axis.lower, axis.upper) ==>
                  d.value.0 <= Transform(l, low, axis.scale) <= d.value.1)
            && (WithinBounds(high, axis.lower, axis.upper) ==>
                  d.value.0 <= Transform(l, high, axis.scale) <= d.value.1)
  {
    var values := DomainValues(items, axis.scale, horizontal, true);
    var (low, high) := IntervalOf(i, horizontal).value;
    assert ValueOf(i, axis.scale, horizontal, true, low) && ValueOf(i, axis.scale, horizontal, true, high);
    DomainValuesAre(items, axis.scale, horizontal, true, low);
    DomainValuesAre(items, axis.scale, horizontal, true, high);
    DomainExists(l, values, axis.scale, axis.lower, axis.upper);
    if WithinBounds(low, axis.lower, axis.upper) {
      InRangeIsInDomain(l, values, axis.scale, axis.lower, axis.upper, low);
    }
    if WithinBounds(high, axis.lower, axis.upper) {
      InRangeIsInDomain(l, values, axis.scale, axis.lower, axis.upper, high);
    }
  }

  /** `_point_declaration`. */
  function PointOf(l: Logarithm, i: Item, xAxis: Axis, yAxis: Axis, xd: (real, real), yd: (real, real)): Point
    requires i.x.Some? && i.y.Some? && xd.0 < xd.1 && yd.0 < yd.1
  {
    Point(i.id, XPosition(Transform(l, i.x.value, xAxis.scale), xd.0, xd.1),
          YPosition(Transform(l, i.y.value, yAxis.scale), yd.0, yd.1))
  }

  /** Inside the plot rectangle. */
  predicate Inside(p: Point) {
    && PLOT_LEFT <= p.x <= PLOT_LEFT + PLOT_WIDTH
    && PLOT_TOP <= p.y <= PLOT_TOP + PLOT_HEIGHT
  }

  lemma ShownIsInside(l: Logarithm, all: seq<Item>, i: Item, xAxis: Axis, yAxis: Axis, uncertainty: bool)
    requires Genuine(l) && Numeric(all) && i in all && FateOf(i, xAxis, yAxis) == Shown
    requires BoundsValid(xAxis.scale, xAxis.lower, xAxis.upper) && BoundsValid(yAxis.scale, yAxis.lower, yAxis.upper)
    ensures var xd, yd := AxisDomain(l, all, xAxis, true, uncertainty), AxisDomain(l, all, yAxis, false, uncertainty);
            && xd.Ok? && yd.Ok? && xd.value.0 < xd.value.1 && yd.value.0 < yd.value.1
            && Inside(PointOf(l, i, xAxis, yAxis, xd.value, yd.value))
  {
    var xs, ys := DomainValues(all, xAxis.scale, true, uncertainty), DomainValues(all, yAxis.scale, false, uncertainty);
    DomainExists(l, xs, xAxis.scale, xAxis.lower, xAxis.upper);
    DomainExists(l, ys, yAxis.scale, yAxis.lower, yAxis.upper);
    InRangeIsInDomain(l, xs, xAxis.scale, xAxis.lower, xAxis.upper, i.x.value);
    InRangeIsInDomain(l, ys, yAxis.scale, yAxis.lower, yAxis.upper, i.y.value);
    var xd := AxisDomain(l, all, xAxis, true, uncertainty).value;
    var yd := AxisDomain(l, all, yAxis, false, uncertainty).value;
    var tx, ty := Transform(l, i.x.value, xAxis.scale), Transform(l, i.y.value, yAxis.scale);
    PositionOrder(tx, tx, xd.0, xd.1);
    PositionOrder(ty, ty, yd.0, yd.1);
  }

  lemma {:induction false} FatesAddUp(items: seq<Item>, xAxis: Axis, yAxis: Axis)
    ensures |items| == |WithFate(items, xAxis, yAxis, NullValue)| + |WithFate(items, xAxis, yAxis, NonPositive)|
                       + |WithFate(items, xAxis, yAxis, OutOfRange)| + |WithFate(items, xAxis, yAxis, Shown)|
  {
    if items != [] {
      FatesAddUp(items[..|items| - 1], xAxis, yAxis);
    }
  }

  /** The points of the shown results, in order. */
  function PointsOf(l: Logarithm, shown: seq<Item>, xAxis: Axis, yAxis: Axis, xd: (real, real), yd: (real, real))
    : (r: seq<Point>)
    requires Numeric(shown) && xd.0 < xd.1 && yd.0 < yd.1
    ensures |r| == |shown| && forall k | 0 <= k < |r| :: r[k] == PointOf(l, shown[k], xAxis, yAxis, xd, yd)
  {
    seq(|shown|, k requires 0 <= k < |shown| => PointOf(l, shown[k], xAxis, yAxis, xd, yd))
  }

  /** Among shown results the horizontal order of points is the order of x values, and the
      vertical order, counted downwards, is the reverse of the order of y values. */
  lemma PointsKeepOrder(l: Logarithm, i: Item, j: Item, xAxis: Axis, yAxis: Axis, xd: (real, real), yd: (real, real))
    requires Genuine(l) && xd.0 < xd.1 && yd.0 < yd.1
    requires FateOf(i, xAxis, yAxis) == Shown && FateOf(j, xAxis, yAxis) == Shown
    ensures var p, q := PointOf(l, i, xAxis, yAxis, xd, yd), PointOf(l, j, xAxis, yAxis, xd, yd);
            (i.x.value < j.x.value <==> p.x < q.x) && (i.y.value < j.y.value <==> p.y > q.y)
  {
    TransformOrder(l, xAxis.scale, i.x.value, j.x.value);
    TransformOrder(l, yAxis.scale, i.y.value, j.y.value);
    PositionOrder(Transform(l, i.x.value, xAxis.scale), Transform(l, j.x.value, xAxis.scale), xd.0, xd.1);
    PositionOrder(Transform(l, i.y.value, yAxis.scale), Transform(l, j.y.value, yAxis.scale), yd.0, yd.1);
  }

  lemma {:induction false} ShownAreNumeric(items: seq<Item>, xAxis: Axis, yAxis: Axis)
    ensures forall i | i in WithFate(items, xAxis, yAxis, Shown) :: i in items && FateOf(i, xAxis, yAxis) == Shown
    ensures Numeric(WithFate(items, xAxis, yAxis, Shown))
  {
    if items != [] {
      ShownAreNumeric(items[..|items| - 1], xAxis, yAxis);
    }
  }

  /** What the plot is. Every counter counts exactly the results with that fate, so the
      counters and the points add up to the population; the domains are those of the results
      that take part, ordered and never empty; the points are those of the shown results in
      the given order, all inside the plot rectangle. */
  ghost predicate IsPlot(l: Logarithm, items: seq<Item>, xAxis: Axis, yAxis: Axis, uncertainty: bool, r: Plot) {
    var taking, shown := Participants(items, xAxis, yAxis), WithFate(items, xAxis, yAxis, Shown);
    && r.nulls == |WithFate(items, xAxis, yAxis, NullValue)|
    && r.logs == |WithFate(items, xAxis, yAxis, NonPositive)|
    && r.ranges == |WithFate(items, xAxis, yAxis, OutOfRange)|
    && |items| == |r.points| + r.nulls + r.logs + r.ranges
    && AxisDomain(l, taking, xAxis, true, uncertainty) == PlotDomain.Ok(r.xDomain)
    && AxisDomain(l, taking, yAxis, false, uncertainty) == PlotDomain.Ok(r.yDomain)
    && r.xDomain.0 < r.xDomain.1 && r.yDomain.0 < r.yDomain.1
    && Numeric(shown) && r.points == PointsOf(l, shown, xAxis, yAxis, r.xDomain, r.yDomain)
    && forall p | p in r.points :: Inside(p)
  }

  /** The population part of `build_result_scatter_plot`; it never raises for validated
      bounds. */
  method Build(l: Logarithm, items: seq<Item>, xAxis: Axis, yAxis: Axis, uncertainty: bool) returns (r: Plot)
    requires Genuine(l)
    requires BoundsValid(xAxis.scale, xAxis.lower, xAxis.upper) && BoundsValid(yAxis.scale, yAxis.lower, yAxis.upper)
    ensures IsPlot(l, items, xAxis, yAxis, uncertainty, r)
  {
    var candidates: seq<Item> := [];
    var nulls, logs := 0, 0;
    for k := 0 to |items|
      invariant nulls == |WithFate(items[..k], xAxis, yAxis, NullValue)|
      invariant logs == |WithFate(items[..k], xAxis, yAxis, NonPositive)|
      invariant candidates == Participants(items[..k], xAxis, yAxis)
    {
      var i := items[k];
      assert items[..k + 1][..k] == items[..k];
      if i.x.None? || i.y.None? {
        nulls := nulls + 1;
      } else if !Placeable(i.x.value, xAxis.scale) || !Placeable(i.y.value, yAxis.scale) {
        logs := logs + 1;
      } else {
        candidates := candidates + [i];
      }
    }
    assert items[..|items|] == items;
    DomainsExist(l, candidates, xAxis, yAxis, uncertainty);
    var xd := AxisDomain(l, candidates, xAxis, true, uncertainty).value;
    var yd := AxisDomain(l, candidates, yAxis, false, uncertainty).value;
    var points, ranges := Place(l, candidates, xAxis, yAxis, xd, yd);
    ParticipantsKeepFates(items, xAxis, yAxis, Shown);
    ParticipantsKeepFates(items, xAxis, yAxis, OutOfRange);
    FatesAddUp(items, xAxis, yAxis);
    PointsInside(l, candidates, xAxis, yAxis, uncertainty, points);
    return Plot(points, nulls, logs, ranges, xd, yd);
  }

  lemma DomainsExist(l: Logarithm, candidates: seq<Item>, xAxis: Axis, yAxis: Axis, uncertainty: bool)
    requires Genuine(l) && Numeric(candidates)
    requires BoundsValid(xAxis.scale, xAxis.lower, xAxis.upper) && BoundsValid(yAxis.scale, yAxis.lower, yAxis.upper)
    ensures var xd, yd := AxisDomain(l, candidates, xAxis, true, uncertainty),
                          AxisDomain(l, candidates, yAxis, false, uncertainty);
            xd.Ok? && yd.Ok? && xd.value.0 < xd.value.1 && yd.value.0 < yd.value.1
  {
    DomainExists(l, DomainValues(candidates, xAxis.scale, true, uncertainty), xAxis.scale, xAxis.lower, xAxis.upper);
    DomainExists(l, DomainValues(candidates, yAxis.scale, false, uncertainty), yAxis.scale, yAxis.lower, yAxis.upper);
  }

  lemma PointsInside(l: Logarithm, candidates: seq<Item>, xAxis: Axis, yAxis: Axis, uncertainty: bool,
                     points: seq<Point>)
    requires Genuine(l) && Numeric(candidates)
    requires BoundsValid(xAxis.scale, xAxis.lower, xAxis.upper) && BoundsValid(yAxis.scale, yAxis.lower, yAxis.upper)
    requires var xd, yd := AxisDomain(l, candidates, xAxis, true, uncertainty),
                           AxisDomain(l, candidates, yAxis, false, uncertainty);
             && xd.Ok? && yd.Ok? && xd.value.0 < xd.value.1 && yd.value.0 < yd.value.1
             && Numeric(WithFate(candidates, xAxis, yAxis, Shown))
             && points == PointsOf(l, WithFate(candidates, xAxis, yAxis, Shown), xAxis, yAxis, xd.value, yd.value)
    ensures forall p | p in points :: Inside(p)
  {
    var shown := WithFate(candidates, xAxis, yAxis, Shown);
    ShownAreNumeric(candidates, xAxis, yAxis);
    forall p | p in points ensures Inside(p) {
      var k :| 0 <= k < |points| && points[k] == p;
      assert shown[k] in shown;
      ShownIsInside(l, candidates, shown[k], xAxis, yAxis, uncertainty);
    }
  }

  /** The second pass: range omissions, and the points of the rest. */
  method Place(l: Logarithm, candidates: seq<Item>, xAxis: Axis, yAxis: Axis, xd: (real, real), yd: (real, real))
    returns (points: seq<Point>, ranges: nat)
    requires Numeric(candidates) && xd.0 < xd.1 && yd.0 < yd.1
    requires forall c | c in candidates :: TakesPart(c, xAxis, yAxis)
    ensures ranges == |WithFate(candidates, xAxis, yAxis, OutOfRange)|
    ensures Numeric(WithFate(candidates, xAxis, yAxis, Shown))
    ensures points == PointsOf(l, WithFate(candidates, xAxis, yAxis, Shown), xAxis, yAxis, xd, yd)
  {
    var inRange: seq<Item> := [];
    ranges := 0;
    for k := 0 to |candidates|
      invariant ranges == |WithFate(candidates[..k], xAxis, yAxis, OutOfRange)|
      invariant inRange == WithFate(candidates[..k], xAxis, yAxis, Shown)
    {
      var i := candidates[k];
      assert i in candidates && TakesPart(i, xAxis, yAxis);
      TakeNext(candidates, k);
      FateOfNext(candidates[..k], i, xAxis, yAxis, OutOfRange);
      FateOfNext(candidates[..k], i, xAxis, yAxis, Shown);
      if !WithinBounds(i.x.value, xAxis.lower, xAxis.upper) || !WithinBounds(i.y.value, yAxis.lower, yAxis.upper) {
        ranges := ranges + 1;
      } else {
        inRange := inRange + [i];
      }
    }
    assert candidates[..|candidates|] == candidates;
    ShownAreNumeric(candidates, xAxis, yAxis);
    points := PointsOf(l, inRange, xAxis, yAxis, xd, yd);
  }
}
