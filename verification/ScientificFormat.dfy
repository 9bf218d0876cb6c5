/** Compact display of numbers: a fixed number of significant digits, in plain notation for
    exponents from -1 to 3 and scientific notation otherwise. A displayed text is represented
    by what it says, since trailing zeros are trimmed: equal values in the same notation have
    the same text. */
module ScientificFormat {
  import opened PlotTicks

  datatype Display = Plain(value: real) | Scientific(mantissa: real, exponent: int)

  function Value(d: Display): real {
    match d
    case Plain(v) => v
    case Scientific(m, e) => m * Pow10(e)
  }

  function Abs(x: real): real {
    if x < 0.0 then -x else x
  }

  /** Round half to even. */
  function Round(x: real): int {
    var f := x.Floor;
    var part := x - f as real;
    if part < 0.5 then f else if part > 0.5 then f + 1 else if f % 2 == 0 then f else f + 1
  }

  /** The nearest multiple of one `m`-th. */
  function Nearest(x: real, m: real): real
    requires m > 0.0
  {
    Round(x * m) as real / m
  }

  /** `format(x, ".<places>f")`. */
  function Fixed(x: real, places: nat): real {
    Nearest(x, Pow10(places))
  }

  /** `format_scientific_value` for a finite number. */
  function Format(x: real, digits: int): Display {
    if x == 0.0 then Plain(0.0)
    else
      var n: nat := if digits > 1 then digits else 1;
      var e := Adjusted(Abs(x));
      if e <= -2 || e >= 4 then
        var m := Fixed(x / Pow10(e), n - 1);
        if Abs(m) >= 10.0 then Scientific(Fixed(m / 10.0, n - 1), e + 1) else Scientific(m, e)
      else
        Plain(Fixed(x, if n - e - 1 > 0 then n - e - 1 else 0))
  }

  // ---- rounding ----

  lemma RoundIsNear(x: real)
    ensures -0.5 <= Round(x) as real - x <= 0.5
  {
  }

  /** A number half way between two integers is rounded to the even one. */
  lemma TiesGoToEven(n: int)
    ensures Round(n as real + 0.5) == if n % 2 == 0 then n else n + 1
  {
    assert (n as real + 0.5).Floor == n;
  }

  lemma RoundOfInt(n: int)
    ensures Round(n as real) == n
  {
  }

  lemma RoundOrder(x: real, y: real)
    requires x <= y
    ensures Round(x) <= Round(y)
  {
  }

  lemma RoundNegates(x: real)
    ensures Round(-x) == -Round(x)
  {
    var f := x.Floor;
    if x == f as real {
      assert (-x).Floor == -f;
    } else {
      assert (-x).Floor == -f - 1;
    }
  }

  predicate IsWhole(r: real) {
    r == r.Floor as real
  }

  /** `x` is a multiple of one `m`-th. */
  predicate WholeTimes(x: real, m: real) {
    IsWhole(x * m)
  }

  lemma DivideBack(x: real, m: real)
    requires m > 0.0
    ensures x * m / m == x
  {
    Quotient(x * m, m);
    SameProduct(x * m / m, x, m);
  }

  lemma SameProduct(a: real, b: real, m: real)
    requires m > 0.0 && a * m == b * m
    ensures a == b
  {
    MulOrder(a, b, m);
    MulOrder(b, a, m);
  }

  /** A multiple of the unit is its own nearest multiple. */
  lemma NearestKeeps(x: real, m: real)
    requires m > 0.0 && WholeTimes(x, m)
    ensures Nearest(x, m) == x
  {
    RoundOfInt((x * m).Floor);
    DivideBack(x, m);
  }

  lemma NearestIsMultiple(x: real, m: real)
    requires m > 0.0
    ensures WholeTimes(Nearest(x, m), m)
  {
    Quotient(Round(x * m) as real, m);
    assert Nearest(x, m) * m == Round(x * m) as real;
  }

  lemma DivideOrder(a: real, b: real, m: real)
    requires m > 0.0 && a <= b
    ensures a / m <= b / m
  {
    Quotient(a, m);
    Quotient(b, m);
    MulOrder(a / m, b / m, m);
  }

  lemma NearestOrder(x: real, y: real, m: real)
    requires m > 0.0 && x <= y
    ensures Nearest(x, m) <= Nearest(y, m)
  {
    MulOrder(x, y, m);
    RoundOrder(x * m, y * m);
    DivideOrder(Round(x * m) as real, Round(y * m) as real, m);
  }

  /** The error is at most half a unit. */
  lemma NearestIsNear(x: real, m: real, unit: real)
    requires m > 0.0 && unit * m == 1.0
    ensures Abs(Nearest(x, m) - x) <= 0.5 * unit
  {
    var v := Nearest(x, m);
    RoundIsNear(x * m);
    Quotient(Round(x * m) as real, m);
    assert v * m == Round(x * m) as real;
    ErrorBound(v, x, m, unit);
  }

  lemma ErrorBound(v: real, x: real, m: real, unit: real)
    requires m > 0.0 && unit * m == 1.0 && -0.5 <= v * m - x * m <= 0.5
    ensures Abs(v - x) <= 0.5 * unit
  {
    AtMostHalf(v, x, m, unit);
    AtMostHalf(x, v, m, unit);
  }

  lemma AtMostHalf(a: real, b: real, m: real, unit: real)
    requires m > 0.0 && unit * m == 1.0 && a * m - b * m <= 0.5
    ensures a - b <= 0.5 * unit
  {
    var d, h := a - b, 0.5 * unit;
    assert d * m == a * m - b * m;
    assert h * m == 0.5;
    MulOrder(d, h, m);
  }

  lemma NearestNegates(x: real, m: real)
    requires m > 0.0
    ensures Nearest(-x, m) == -Nearest(x, m)
  {
    assert (-x) * m == -(x * m);
    RoundNegates(x * m);
    NegateQuotient(Round(x * m) as real, m);
  }

  lemma NegateQuotient(a: real, m: real)
    requires m > 0.0
    ensures (-a) / m == -(a / m)
  {
    Quotient(a, m);
    Quotient(-a, m);
    assert (-(a / m)) * m == -(a / m * m);
    SameProduct((-a) / m, -(a / m), m);
  }

  // ---- powers ----

  lemma RegroupProduct(x: real, y: real, y10: real, z: real, z10: real)
    requires y10 == 10.0 * y && z10 == 10.0 * z && x * y == z
    ensures x * y10 == z10
  {
    assert x * (10.0 * y) == 10.0 * (x * y);
  }

  lemma Pow10Sum(a: int, b: nat)
    ensures Pow10(a) * Pow10(b) == Pow10(a + b)
  {
    Pow10SumIs(a, b, Pow10(a), Pow10(b), Pow10(a + b));
  }

  lemma {:induction false} Pow10SumIs(a: int, b: nat, p: real, q: real, r: real)
    requires p == Pow10(a) && q == Pow10(b) && r == Pow10(a + b)
    ensures p * q == r
  {
    if b > 0 {
      var q1, r1 := Pow10(b - 1), Pow10(a + b - 1);
      Pow10SumIs(a, b - 1, p, q1, r1);
      Pow10Next(b - 1);
      Pow10Next(a + b - 1);
      RegroupProduct(p, q1, q, r1, r);
    }
  }

  /** A power of ten is a whole number of any unit that is not larger. */
  lemma PowerIsWhole(e: int, places: nat)
    requires e + places >= 0
    ensures WholeTimes(Pow10(e), Pow10(places))
  {
    Pow10Sum(e, places);
    WholePower(e + places);
  }

  lemma {:induction false} WholePower(k: nat)
    ensures IsWhole(Pow10(k))
  {
    if k > 0 {
      WholePower(k - 1);
      assert Pow10(k) == (10 * Pow10(k - 1).Floor) as real;
    }
  }

  lemma UnitOfPlaces(places: nat)
    ensures Pow10(-(places as int)) * Pow10(places) == 1.0
  {
    Pow10Sum(-(places as int), places);
  }

  // ---- what is displayed ----

  function Digits(digits: int): (n: nat)
    ensures n >= 1
  {
    if digits > 1 then digits else 1
  }

  /** Places after the point in plain notation. */
  function Places(e: int, n: nat): nat {
    if n - e - 1 > 0 then n - e - 1 else 0
  }

  lemma AbsNearest(x: real, m: real)
    requires m > 0.0
    ensures Abs(Nearest(x, m)) == Nearest(Abs(x), m)
    ensures x > 0.0 ==> Nearest(x, m) >= 0.0
  {
    NearestNegates(x, m);
    var z := if x < 0.0 then -x else x;
    NearestOrder(0.0, z, m);
    assert Nearest(0.0, m) == 0.0 by {
      assert 0.0 * m == 0.0;
      NearestKeeps(0.0, m);
    }
  }

  /** Rounding to a unit that divides both ends keeps a value between them. */
  lemma NearestBetween(x: real, lo: real, hi: real, m: real)
    requires m > 0.0 && lo <= x <= hi && WholeTimes(lo, m) && WholeTimes(hi, m)
    ensures lo <= Nearest(x, m) <= hi
  {
    NearestOrder(lo, x, m);
    NearestOrder(x, hi, m);
    NearestKeeps(lo, m);
    NearestKeeps(hi, m);
  }

  lemma PowerIsWholeOf(e: int, places: nat, p: real, u: real)
    requires e + places >= 0 && p == Pow10(e) && u == Pow10(places)
    ensures WholeTimes(p, u)
  {
    Pow10Sum(e, places);
    WholePower(e + places);
    assert p * u == Pow10(e + places);
  }

  /** In plain notation the exponent stays, or the value is rounded up to the next power of
      ten. */
  lemma PlainRange(x: real, e: int, places: nat)
    requires Pow10(e) <= x < Pow10(e + 1) && e + places >= 0
    ensures Pow10(e) <= Fixed(x, places) <= Pow10(e + 1)
  {
    var lo, hi, m := Pow10(e), Pow10(e + 1), Pow10(places);
    PowerIsWholeOf(e, places, lo, m);
    PowerIsWholeOf(e + 1, places, hi, m);
    NearestBetween(x, lo, hi, m);
  }

  lemma FractionOf(x: real)
    requires x != 0.0
    ensures var m := Pow10(Adjusted(Abs(x)));
            1.0 <= Abs(x / m) < 10.0 && x / m * m == x && Abs(x / m) == Abs(x) / m
  {
    var e := Adjusted(Abs(x));
    var m := Pow10(e);
    Pow10Next(e);
    FractionRange(Abs(x), m);
    Quotient(x, m);
    NegateQuotient(x, m);
    NegateQuotient(-x, m);
  }

  /** The mantissa of scientific notation before a carry. */
  function Mantissa(x: real, n: nat): real
    requires x != 0.0 && n >= 1
  {
    Fixed(x / Pow10(Adjusted(Abs(x))), n - 1)
  }

  lemma MantissaRange(x: real, n: nat)
    requires x != 0.0 && n >= 1
    ensures 1.0 <= Abs(Mantissa(x, n)) <= 10.0
    ensures WholeTimes(Mantissa(x, n), Pow10(n - 1))
  {
    var f := x / Pow10(Adjusted(Abs(x)));
    FractionOf(x);
    PowerIsWhole(0, n - 1);
    PowerIsWhole(1, n - 1);
    assert Pow10(0) == 1.0 && Pow10(1) == 10.0 * Pow10(0);
    NearestBetween(Abs(f), 1.0, 10.0, Pow10(n - 1));
    AbsNearest(f, Pow10(n - 1));
    NearestIsMultiple(f, Pow10(n - 1));
  }

  /** One tenth of a mantissa of plus or minus 10 is displayed exactly. */
  lemma CarriedMantissa(m: real, places: nat)
    requires m == 10.0 || m == -10.0
    ensures Fixed(m / 10.0, places) == m / 10.0
  {
    var u := Pow10(places);
    WholePower(places);
    assert m / 10.0 == 1.0 || m / 10.0 == -1.0;
    NearestKeeps(1.0, u);
    NearestNegates(1.0, u);
  }

  /** The form of every display of a non-zero number. */
  lemma FormatShape(x: real, digits: int)
    requires x != 0.0
    ensures var n, e := Digits(digits), Adjusted(Abs(x));
            if -2 < e < 4 then Format(x, digits) == Plain(Fixed(x, Places(e, n)))
            else if Abs(Mantissa(x, n)) == 10.0 then Format(x, digits) == Scientific(Mantissa(x, n) / 10.0, e + 1)
            else Format(x, digits) == Scientific(Mantissa(x, n), e)
  {
    var n, e := Digits(digits), Adjusted(Abs(x));
    if !(-2 < e < 4) {
      MantissaRange(x, n);
      if Abs(Mantissa(x, n)) == 10.0 {
        CarriedMantissa(Mantissa(x, n), n - 1);
      }
    }
  }

  /** A scientific display has one digit before the point, also after a carry. */
  lemma MantissaIsNormal(x: real, digits: int)
    ensures var d := Format(x, digits); d.Scientific? ==> 1.0 <= Abs(d.mantissa) < 10.0
  {
    if x != 0.0 {
      FormatShape(x, digits);
      MantissaRange(x, Digits(digits));
    }
  }

  // ---- the error ----

  lemma ProductIs(a: real, b: real, c: real, p: real, q: real)
    requires b * p == 1.0 && c * p == a && q == a * b
    ensures q == c
  {
    assert q == c * (p * b);
  }

  lemma Pow10SumAny(a: int, b: int, p: real, q: real, r: real)
    requires p == Pow10(a) && q == Pow10(b) && r == Pow10(a + b)
    ensures p * q == r
  {
    if b >= 0 {
      Pow10SumIs(a, b, p, q, r);
    } else {
      var k := Pow10(-b);
      Pow10SumIs(a + b, -b, r, k, p);
      Pow10SumIs(b, -b, q, k, 1.0);
      ProductIs(p, q, r, k, p * q);
    }
  }

  lemma Pow10AtLeastOne(k: nat)
    ensures Pow10(k) >= 1.0
  {
    if k > 0 {
      Pow10Grows(0, k);
    }
  }

  /** Scaling both numbers scales their distance. */
  lemma ScaledError(m: real, f: real, half: real, scale: real)
    requires scale > 0.0 && Abs(m - f) <= half
    ensures Abs(m * scale - f * scale) <= half * scale
  {
    MulOrder(m - f, half, scale);
    MulOrder(f - m, half, scale);
    assert (m - f) * scale == m * scale - f * scale;
    assert (f - m) * scale == f * scale - m * scale;
  }

  lemma PlainError(x: real, e: int, n: nat)
    requires n >= 1
    ensures Abs(Fixed(x, Places(e, n)) - x) <= 0.5 * Pow10(e - n + 1)
  {
    var places := Places(e, n);
    var unit := Pow10(-(places as int));
    UnitOfPlaces(places);
    NearestIsNear(x, Pow10(places), unit);
    if n - e - 1 <= 0 {
      Pow10AtLeastOne(e - n + 1);
      assert unit == 1.0;
    }
  }

  lemma ErrorIn(x: real, f: real, m: real, scale: real, unit: real, last: real)
    requires scale > 0.0 && f * scale == x && Abs(m - f) <= 0.5 * unit && unit * scale == last
    ensures Abs(m * scale - x) <= 0.5 * last
  {
    ScaledError(m, f, 0.5 * unit, scale);
    assert 0.5 * unit * scale == 0.5 * (unit * scale);
  }

  lemma MantissaNear(x: real, n: nat, scale: real, unit: real)
    requires x != 0.0 && n >= 1 && scale == Pow10(Adjusted(Abs(x))) && unit == Pow10(1 - n)
    ensures Abs(Mantissa(x, n) - x / scale) <= 0.5 * unit
  {
    UnitOfPlaces(n - 1);
    FixedIsNear(x / scale, n - 1, Pow10(n - 1), unit);
  }

  lemma FixedIsNear(f: real, places: nat, p: real, unit: real)
    requires p == Pow10(places) && unit * p == 1.0
    ensures Abs(Fixed(f, places) - f) <= 0.5 * unit
  {
    NearestIsNear(f, p, unit);
  }

  /** The displayed value differs from the number by at most half a unit in its last
      significant place. */
  lemma DisplayIsNear(x: real, digits: int)
    requires x != 0.0
    ensures Abs(Value(Format(x, digits)) - x) <= 0.5 * Pow10(Adjusted(Abs(x)) - Digits(digits) + 1)
  {
    var n, e := Digits(digits), Adjusted(Abs(x));
    if -2 < e < 4 {
      FormatShape(x, digits);
      PlainError(x, e, n);
    } else {
      ScientificDisplayIsNear(x, digits, e, Pow10(e - n + 1));
    }
  }

  lemma ScientificDisplayIsNear(x: real, digits: int, e: int, last: real)
    requires x != 0.0 && e == Adjusted(Abs(x)) && !(-2 < e < 4) && last == Pow10(e - Digits(digits) + 1)
    ensures Abs(Value(Format(x, digits)) - x) <= 0.5 * last
  {
    var n: int := Digits(digits);
    ShownError(x, digits, n, e, Pow10(e), Pow10(1 - n), last, Mantissa(x, n));
  }

  lemma ShownError(x: real, digits: int, n: int, e: int, scale: real, unit: real, last: real, m: real)
    requires x != 0.0 && n == Digits(digits) && e == Adjusted(Abs(x)) && !(-2 < e < 4)
    requires scale == Pow10(e) && unit == Pow10(1 - n) && last == Pow10(e - n + 1) && m == Mantissa(x, n)
    ensures Abs(Value(Format(x, digits)) - x) <= 0.5 * last
  {
    ScientificError(x, n, e, scale, unit, last, m);
    ScientificValue(x, digits, e, scale, m);
  }

  lemma ScientificError(x: real, n: nat, e: int, scale: real, unit: real, last: real, m: real)
    requires x != 0.0 && n >= 1 && e == Adjusted(Abs(x)) && scale == Pow10(e) && unit == Pow10(1 - n)
    requires last == Pow10(e - n + 1) && m == Mantissa(x, n)
    ensures Abs(m * scale - x) <= 0.5 * last
  {
    assert 1 - n + e == e - n + 1;
    Pow10SumAny(1 - n, e, unit, scale, last);
    MantissaNear(x, n, scale, unit);
    FromFraction(x, m, scale, unit, last);
  }

  lemma FromFraction(x: real, m: real, scale: real, unit: real, last: real)
    requires scale > 0.0 && unit * scale == last && Abs(m - x / scale) <= 0.5 * unit
    ensures Abs(m * scale - x) <= 0.5 * last
  {
    Quotient(x, scale);
    ErrorIn(x, x / scale, m, scale, unit, last);
  }

  /** A carry does not change the displayed value. */
  lemma ScientificValue(x: real, digits: int, e: int, p: real, m: real)
    requires x != 0.0 && e == Adjusted(Abs(x)) && !(-2 < e < 4)
    requires p == Pow10(e) && m == Mantissa(x, Digits(digits))
    ensures Value(Format(x, digits)) == m * p
  {
    FormatShape(x, digits);
    ShapeValue(Format(x, digits), m, e, p);
  }

  lemma ShapeValue(d: Display, m: real, e: int, p: real)
    requires d == Scientific(m, e) || d == Scientific(m / 10.0, e + 1)
    requires p == Pow10(e)
    ensures Value(d) == m * p
  {
    Pow10Next(e);
    CarryValue(m, p, Pow10(e + 1));
  }

  lemma CarryValue(m: real, p: real, q: real)
    requires q == 10.0 * p
    ensures m / 10.0 * q == m * p
  {
  }

  // ---- displaying a display ----

  /** Format the displayed number once more. */
  function Again(d: Display, digits: int): Display {
    Format(Value(d), digits)
  }

  lemma AbsProduct(m: real, p: real)
    requires p > 0.0
    ensures Abs(m * p) == Abs(m) * p
  {
    if m < 0.0 {
      MulOrder(m, 0.0, p);
      assert m * p == -((-m) * p);
    } else {
      MulOrder(0.0, m, p);
    }
  }

  /** A plain display is repeated, unless rounding has reached 10000. */
  lemma PlainAgain(x: real, digits: int)
    requires x != 0.0 && -2 < Adjusted(Abs(x)) < 4
    ensures var d := Format(x, digits);
            && d.Plain?
            && Again(d, digits) == (if Abs(d.value) == Pow10(4) then Scientific(d.value / Pow10(4), 4) else d)
  {
    var n, e := Digits(digits), Adjusted(Abs(x));
    var places := Places(e, n);
    var v := Fixed(x, places);
    FormatShape(x, digits);
    AbsNearest(x, Pow10(places));
    PlainRange(Abs(x), e, places);
    if Abs(v) < Pow10(e + 1) {
      AdjustedIs(Abs(v), e);
      NearestIsMultiple(x, Pow10(places));
      NearestKeeps(v, Pow10(places));
      FormatShape(v, digits);
      if e < 3 {
        Pow10Grows(e + 1, 4);
      }
    } else {
      PowerAgain(v, e + 1, digits);
    }
  }

  /** A power of ten displays as itself. */
  lemma PowerAgain(v: real, e: int, digits: int)
    requires Abs(v) == Pow10(e) && -1 <= e <= 4
    ensures Format(v, digits) == if e == 4 then Scientific(v / Pow10(4), 4) else Plain(v)
    ensures e < 4 ==> Abs(v) != Pow10(4)
  {
    var n := Digits(digits);
    Pow10Next(e);
    AdjustedIs(Abs(v), e);
    FormatShape(v, digits);
    if e == 4 {
      UnitMantissa(v, n);
    } else {
      Pow10Grows(e, 4);
      KeepsPower(v, e, Places(e, n));
    }
  }

  lemma KeepsPower(v: real, e: int, places: nat)
    requires Abs(v) == Pow10(e) && e + places >= 0
    ensures Fixed(v, places) == v
  {
    var p, u := Pow10(e), Pow10(places);
    PowerIsWholeOf(e, places, p, u);
    NearestKeeps(p, u);
    NearestNegates(p, u);
  }

  lemma UnitMantissa(v: real, n: nat)
    requires v != 0.0 && n >= 1 && Abs(v) == Pow10(Adjusted(Abs(v)))
    ensures Mantissa(v, n) == v / Pow10(Adjusted(Abs(v))) && Abs(Mantissa(v, n)) == 1.0
  {
    var p := Pow10(Adjusted(Abs(v)));
    FractionOf(v);
    Quotient(p, p);
    SameProduct(p / p, 1.0, p);
    assert Abs(v / p) == 1.0;
    KeepsPower(v / p, 0, n - 1);
  }

  lemma ProductRange(m: real, p: real, v: real)
    requires 1.0 <= Abs(m) < 10.0 && p > 0.0 && v == m * p
    ensures p <= Abs(v) < 10.0 * p && v / p == m
  {
    AbsProduct(m, p);
    RangeTimes(Abs(m), p, Abs(v));
    DivideBack(m, p);
  }

  lemma RangeTimes(a: real, p: real, w: real)
    requires 1.0 <= a < 10.0 && p > 0.0 && w == a * p
    ensures p <= w < 10.0 * p
  {
    assert (a - 1.0) * p >= 0.0;
    assert (10.0 - a) * p > 0.0;
  }

  /** A scientific display is repeated, unless a carry has brought its exponent to -1. */
  lemma ScientificAgain(m: real, e: int, digits: int, p: real, v: real)
    requires 1.0 <= Abs(m) < 10.0 && WholeTimes(m, Pow10(Digits(digits) - 1)) && (e <= -2 || e >= 4)
    requires p == Pow10(e) && v == m * p
    ensures Format(v, digits) == Scientific(m, e)
  {
    ProductRange(m, p, v);
    Pow10Next(e);
    AdjustedIs(Abs(v), e);
    FormatShape(v, digits);
    NearestKeeps(m, Pow10(Digits(digits) - 1));
  }

  /** When formatting again changes the display: for plus or minus 10000 in plain notation,
      and for plus or minus one times ten to the -1 in scientific notation; both only arise
      from a carry. */
  predicate Unsettled(d: Display) {
    match d
    case Plain(v) => Abs(v) == Pow10(4)
    case Scientific(_, e) => e == -1
  }

  /** Formatting the display again changes it exactly when it is unsettled, and formatting it
      twice always reaches a fixed point. */
  predicate Settles(d: Display, digits: int) {
    && (Again(d, digits) == d <==> !Unsettled(d))
    && Again(Again(d, digits), digits) == Again(d, digits)
  }

  /** Formatting a display again changes nothing except in the two cases of a carry across
      the limits of plain notation, and formatting it twice always reaches a fixed point. */
  lemma FormattingSettles(x: real, digits: int)
    ensures Settles(Format(x, digits), digits)
  {
    if x != 0.0 {
      var e := Adjusted(Abs(x));
      if -2 < e < 4 {
        PlainAgain(x, digits);
        var v := Format(x, digits).value;
        if Abs(v) == Pow10(4) {
          PlainSettles(v, digits, Pow10(4));
        }
      } else {
        ScientificSettles(x, digits);
      }
    } else {
      assert Abs(0.0) != Pow10(4);
    }
  }

  /** 10000 reached by rounding is displayed as 1e4, and that as itself. */
  lemma PlainSettles(v: real, digits: int, p: real)
    requires p == Pow10(4) && Abs(v) == p
    ensures Format(v, digits) == Scientific(v / p, 4) && Again(Scientific(v / p, 4), digits) == Scientific(v / p, 4)
  {
    PowerAgain(v, 4, digits);
    ValueOfTenThousands(v, p);
  }

  lemma ValueOfTenThousands(v: real, p: real)
    requires p == Pow10(4)
    ensures Value(Scientific(v / p, 4)) == v
  {
    Quotient(v, p);
    ValueIs(v / p, 4, p, v);
  }

  lemma ScientificSettles(x: real, digits: int)
    requires x != 0.0 && !(-2 < Adjusted(Abs(x)) < 4)
    ensures Settles(Format(x, digits), digits)
  {
    var n, e := Digits(digits), Adjusted(Abs(x));
    var m := Mantissa(x, n);
    FormatShape(x, digits);
    MantissaRange(x, n);
    if Abs(m) == 10.0 {
      CarrySettles(m / 10.0, e + 1, digits);
    } else {
      NoCarrySettles(m, e, digits);
    }
  }

  lemma NoCarrySettles(m: real, e: int, digits: int)
    requires 1.0 <= Abs(m) < 10.0 && WholeTimes(m, Pow10(Digits(digits) - 1)) && (e <= -2 || e >= 4)
    ensures Settles(Scientific(m, e), digits)
  {
    RepeatedWithValue(m, e, digits, Pow10(e), m * Pow10(e));
  }

  lemma RepeatedWithValue(m: real, e: int, digits: int, p: real, v: real)
    requires 1.0 <= Abs(m) < 10.0 && WholeTimes(m, Pow10(Digits(digits) - 1)) && (e <= -2 || e >= 4)
    requires p == Pow10(e) && v == m * p
    ensures Settles(Scientific(m, e), digits)
  {
    ScientificAgain(m, e, digits, p, v);
    ValueIs(m, e, p, v);
    RepeatedSettles(Scientific(m, e), digits, v);
  }

  lemma ValueIs(m: real, e: int, p: real, v: real)
    requires p == Pow10(e) && v == m * p
    ensures v == Value(Scientific(m, e))
  {
  }

  lemma RepeatedSettles(d: Display, digits: int, v: real)
    requires v == Value(d) && Format(v, digits) == d && !Unsettled(d)
    ensures Settles(d, digits)
  {
    assert Again(d, digits) == d;
  }

  /** After a carry: 1 times a power of ten. */
  lemma CarrySettles(u: real, e: int, digits: int)
    requires (u == 1.0 || u == -1.0) && (e <= -1 || e >= 5)
    ensures Settles(Scientific(u, e), digits)
  {
    if e == -1 {
      CarryToTenth(u, digits, Pow10(-1));
    } else {
      WholePower(Digits(digits) - 1);
      UnitIsWhole(u, Pow10(Digits(digits) - 1));
      NoCarrySettles(u, e, digits);
    }
  }

  lemma CarryToTenth(u: real, digits: int, p: real)
    requires (u == 1.0 || u == -1.0) && p == Pow10(-1)
    ensures Settles(Scientific(u, -1), digits)
  {
    var v := u * p;
    assert v == p || v == -p;
    PowerAgain(v, -1, digits);
    assert Again(Scientific(u, -1), digits) == Plain(v);
    assert Again(Plain(v), digits) == Plain(v);
  }

  lemma UnitIsWhole(u: real, p: real)
    requires (u == 1.0 || u == -1.0) && IsWhole(p)
    ensures WholeTimes(u, p)
  {
    assert -p == (-(p.Floor)) as real;
    assert (-p).Floor == -(p.Floor);
    assert u * p == p || u * p == -p;
  }

  // ---- when a display is unsettled ----

  /** Within half a unit below 10000 for plain notation, or below 0.1 for scientific
      notation; a tie counts, because a power of ten is an even number of units. */
  predicate RoundsToLimit(x: real, digits: int) {
    x != 0.0
    && var n, a := Digits(digits), Abs(x);
       || (Adjusted(a) == 3 && a >= Pow10(4) - 0.5 * Pow10(-(Places(3, n) as int)))
       || (Adjusted(a) == -2 && a >= Pow10(-1) - 0.5 * Pow10(-(n as int) - 1))
  }

  lemma RoundReaches(y: real, n: int)
    requires y <= n as real && n % 2 == 0
    ensures Round(y) == n <==> y >= n as real - 0.5
  {
  }

  /** A value is rounded up to `p`, an even number of units, exactly from half a unit below. */
  lemma NearestReaches(x: real, p: real, m: real, unit: real, n: int)
    requires m > 0.0 && unit * m == 1.0 && x <= p && p * m == n as real && n % 2 == 0
    ensures Nearest(x, m) == p <==> x >= p - 0.5 * unit
  {
    var y := x * m;
    assert y <= n as real by {
      MulOrder(x, p, m);
    }
    RoundReaches(y, n);
    Quotient(Round(x * m) as real, m);
    DivideBack(p, m);
    HalfUnit(x, p, m, unit);
  }

  lemma HalfUnit(x: real, p: real, m: real, unit: real)
    requires m > 0.0 && unit * m == 1.0
    ensures x >= p - 0.5 * unit <==> x * m >= p * m - 0.5
  {
    var q := p - 0.5 * unit;
    assert q * m == p * m - 0.5 * (unit * m);
    MulOrder(q, x, m);
  }

  lemma EvenPower(k: nat) returns (n: int)
    requires k > 0
    ensures Pow10(k) == n as real && n % 2 == 0
  {
    WholePower(k - 1);
    Pow10Next(k - 1);
    n := TenTimes(Pow10(k - 1), Pow10(k));
  }

  lemma TenTimes(p: real, q: real) returns (n: int)
    requires IsWhole(p) && q == 10.0 * p
    ensures q == n as real && n % 2 == 0
  {
    n := 10 * p.Floor;
    TenIsEven(p.Floor);
    assert n as real == 10.0 * p.Floor as real;
  }

  lemma TenIsEven(t: int)
    ensures (10 * t) % 2 == 0
  {
    assert 10 * t == 2 * (5 * t);
  }

  lemma PlainReaches(x: real, places: nat, m: real, unit: real, p: real)
    requires m == Pow10(places) && unit == Pow10(-(places as int)) && p == Pow10(4) && Abs(x) <= p
    ensures Abs(Fixed(x, places)) == p <==> Abs(x) >= p - 0.5 * unit
  {
    var n := EvenPower(4 + places);
    Pow10SumIs(4, places, p, m, Pow10(4 + places));
    Pow10SumIs(-(places as int), places, unit, m, 1.0);
    AbsNearest(x, m);
    NearestReaches(Abs(x), p, m, unit, n);
  }

  lemma PlainUnsettled(x: real, digits: int)
    requires x != 0.0 && -2 < Adjusted(Abs(x)) < 4
    ensures Unsettled(Format(x, digits)) <==> RoundsToLimit(x, digits)
  {
    var n, e := Digits(digits), Adjusted(Abs(x));
    var places := Places(e, n);
    FormatShape(x, digits);
    if e == 3 {
      PlainReaches(x, places, Pow10(places), Pow10(-(places as int)), Pow10(4));
    } else {
      PlainRange(Abs(x), e, places);
      AbsNearest(x, Pow10(places));
      Pow10Grows(e + 1, 4);
    }
  }

  lemma MantissaReaches(f: real, n: nat, m: real, unit: real)
    requires n >= 1 && m == Pow10(n - 1) && unit == Pow10(1 - n as int) && Abs(f) <= 10.0
    ensures Abs(Fixed(f, n - 1)) == 10.0 <==> Abs(f) >= 10.0 - 0.5 * unit
  {
    var k := EvenPower(n);
    Pow10Next(n - 1);
    Pow10SumIs(1 - n as int, n - 1, unit, m, 1.0);
    AbsNearest(f, m);
    NearestReaches(Abs(f), 10.0, m, unit, k);
  }

  /** The same limit before and after scaling by the power of ten. */
  lemma ScaledLimit(a: real, f: real, p: real, unit: real, last: real, limit: real)
    requires p > 0.0 && f * p == a && unit * p == last && limit == 10.0 * p
    ensures f >= 10.0 - 0.5 * unit <==> a >= limit - 0.5 * last
  {
    var q := 10.0 - 0.5 * unit;
    assert q * p == 10.0 * p - 0.5 * (unit * p);
    MulOrder(q, f, p);
  }

  lemma SmallUnsettled(x: real, n: nat, p: real, unit: real, last: real, limit: real)
    requires x != 0.0 && n >= 1 && Adjusted(Abs(x)) == -2 && p == Pow10(-2) && unit == Pow10(1 - n as int)
    requires last == Pow10(-(n as int) - 1) && limit == Pow10(-1)
    ensures Abs(Mantissa(x, n)) == 10.0 <==> Abs(x) >= limit - 0.5 * last
  {
    var f := x / p;
    FractionOf(x);
    Quotient(Abs(x), p);
    MantissaReaches(f, n, Pow10(n - 1), unit);
    Pow10SumAny(1 - n as int, -2, unit, p, last);
    Pow10Next(-2);
    ScaledLimit(Abs(x), Abs(f), p, unit, last, limit);
  }

  lemma ScientificUnsettled(x: real, digits: int)
    requires x != 0.0 && !(-2 < Adjusted(Abs(x)) < 4)
    ensures Unsettled(Format(x, digits)) <==> RoundsToLimit(x, digits)
  {
    var n := Digits(digits);
    FormatShape(x, digits);
    if Adjusted(Abs(x)) == -2 {
      SmallUnsettled(x, n, Pow10(-2), Pow10(1 - n as int), Pow10(-(n as int) - 1), Pow10(-1));
    }
  }

  /** Formatting a displayed number again changes nothing exactly when the number itself does
      not round to one of the two limits of plain notation; twice is always enough. */
  lemma FormattingRepeats(x: real, digits: int)
    ensures Again(Format(x, digits), digits) == Format(x, digits) <==> !RoundsToLimit(x, digits)
    ensures Again(Again(Format(x, digits), digits), digits) == Again(Format(x, digits), digits)
  {
    FormattingSettles(x, digits);
    UnsettledCondition(x, digits);
  }

  lemma UnsettledCondition(x: real, digits: int)
    ensures Unsettled(Format(x, digits)) <==> RoundsToLimit(x, digits)
  {
    if x == 0.0 {
      assert Abs(0.0) != Pow10(4);
    } else if -2 < Adjusted(Abs(x)) < 4 {
      PlainUnsettled(x, digits);
    } else {
      ScientificUnsettled(x, digits);
    }
  }

  /** Both limits are reached: 9999.9 shows as 10000, which shows as 1e4; 0.099999 shows as
      1e-1, which shows as 0.1. */
  lemma UnsettledExamples()
    ensures Format(9999.9, 4) == Plain(10000.0) && Format(10000.0, 4) == Scientific(1.0, 4)
    ensures Format(0.099999, 4) == Scientific(1.0, -1) && Format(0.1, 4) == Plain(0.1)
  {
    NearTenThousand();
    Powers();
    PowerAgain(10000.0, 4, 4);
    NearOneTenth();
    PowerAgain(0.1, -1, 4);
  }

  lemma NearTenThousand()
    ensures Format(9999.9, 4) == Plain(10000.0)
  {
    Powers();
    AdjustedIs(9999.9, 3);
    assert Round(9999.9 * 1.0) == 10000;
  }

  lemma NearOneTenth()
    ensures Format(0.099999, 4) == Scientific(1.0, -1)
  {
    Powers();
    AdjustedIs(0.099999, -2);
    FormatShape(0.099999, 4);
    assert 0.099999 / 0.01 == 9.9999;
    assert Round(9.9999 * 1000.0) == 10000;
    assert Mantissa(0.099999, 4) == 10.0;
  }

  lemma Powers()
    ensures Pow10(0) == 1.0 && Pow10(1) == 10.0 && Pow10(2) == 100.0 && Pow10(3) == 1000.0
    ensures Pow10(4) == 10000.0 && Pow10(5) == 100000.0 && Pow10(-1) == 0.1 && Pow10(-2) == 0.01
  {
    assert Pow10(2) == 100.0 && Pow10(3) == 1000.0;
    assert Pow10(4) == 10000.0;
  }
}
