/** The displayed texts themselves. The trimmed text of a number is determined by its value
    and determines it, so what is proved of displays holds of texts. */
module DisplayText {
  import opened Text
  import opened PlotTicks
  import opened ScientificFormat

  // ---- fixed-point texts ----

  /** The last `places` digits of `n`. */
  function Fraction(n: nat, places: nat): (s: string)
    ensures |s| == places && AllDigits(s)
  {
    if places == 0 then "" else Fraction(n / 10, places - 1) + [DigitChar(n % 10)]
  }

  /** The digits of `n` before its last `places`, at least one. */
  function Whole(n: nat, places: nat): (s: string)
    ensures s != "" && AllDigits(s)
  {
    if places == 0 then Numeral(n) else Whole(n / 10, places - 1)
  }

  /** `n` units of the last of `places` decimal places. */
  function FixedText(n: nat, places: nat): string {
    if places == 0 then Whole(n, 0) else Whole(n, places) + "." + Fraction(n, places)
  }

  function TrimRight(s: string, c: char): string {
    if s != "" && s[|s| - 1] == c then TrimRight(s[..|s| - 1], c) else s
  }

  /** `_trim_decimal`. */
  function TrimDecimal(s: string): string {
    if '.' in s then TrimRight(TrimRight(s, '0'), '.') else s
  }

  /** `format(x, ".<places>f")`, trimmed. */
  function FixedString(x: real, places: nat): string {
    (if x < 0.0 then "-" else "") + TrimDecimal(FixedText(Units(x, places), places))
  }

  /** The rounded number of units in the last place. */
  function Units(x: real, places: nat): nat {
    UnitsAt(Abs(x), Pow10(places))
  }

  function UnitsAt(a: real, scale: real): nat
    requires a >= 0.0 && scale > 0.0
  {
    MulOrder(0.0, a, scale);
    RoundOrder(0.0, a * scale);
    Round(a * scale)
  }

  // ---- trimming ----

  /** Without trailing zeros. */
  predicate Minimal(n: nat, places: nat) {
    places == 0 || n % 10 != 0
  }

  function Trimmed(n: nat, places: nat): (r: (nat, nat))
    ensures Minimal(r.0, r.1)
  {
    if places > 0 && n % 10 == 0 then Trimmed(n / 10, places - 1) else (n, places)
  }

  lemma {:induction false} NoPoint(s: string)
    requires AllDigits(s)
    ensures '.' !in s && 'e' !in s && '-' !in s
  {
  }

  lemma TrimRightAppend(s: string, c: char)
    ensures TrimRight(s + [c], c) == TrimRight(s, c)
  {
    assert (s + [c])[..|s|] == s;
  }

  /** Trimming leaves the fixed-point text of the same number without trailing zeros. */
  lemma {:induction false} TrimIsFixed(n: nat, places: nat)
    ensures TrimDecimal(FixedText(n, places)) == FixedText(Trimmed(n, places).0, Trimmed(n, places).1)
  {
    if places == 0 {
      NoPoint(FixedText(n, 0));
    } else if n % 10 != 0 {
      NothingTrimmed(n, places);
    } else {
      if places == 1 {
        TrimTenth(n);
      } else {
        TrimZero(n, places);
      }
      TrimIsFixed(n / 10, places - 1);
    }
  }

  lemma NothingTrimmed(n: nat, places: nat)
    requires places > 0 && n % 10 != 0
    ensures TrimDecimal(FixedText(n, places)) == FixedText(n, places)
  {
    var s := FixedText(n, places);
    assert s[|s| - 1] == Fraction(n, places)[places - 1] == DigitChar(n % 10);
  }

  lemma TrimZero(n: nat, places: nat)
    requires places > 1 && n % 10 == 0
    ensures TrimDecimal(FixedText(n, places)) == TrimDecimal(FixedText(n / 10, places - 1))
  {
    var front := FixedText(n / 10, places - 1);
    Associative(Whole(n, places) + ".", Fraction(n / 10, places - 1), ['0']);
    assert FixedText(n, places) == front + ['0'];
    assert front[|Whole(n, places)|] == '.';
    assert (front + ['0'])[|Whole(n, places)|] == '.';
    TrimRightAppend(front, '0');
  }

  lemma TrimTenth(n: nat)
    requires n % 10 == 0
    ensures TrimDecimal(FixedText(n, 1)) == TrimDecimal(FixedText(n / 10, 0))
  {
    var w := Numeral(n / 10);
    var s := FixedText(n, 1);
    assert Whole(n, 1) == Whole(n / 10, 0) == w;
    assert Fraction(n, 1) == "" + ['0'];
    assert s == w + "." + ['0'];
    TrimRightAppend(w + ".", '0');
    assert TrimRight(w + ".", '0') == w + ".";
    TrimRightAppend(w, '.');
    NoPoint(w);
    assert TrimRight(w, '.') == w;
    assert '.' in s;
  }

  // ---- texts and values ----

  /** The text is the trimmed decimal notation of the value. */
  ghost predicate Shows(s: string, v: real) {
    exists n: nat, places: nat, scale: real :: Denotes(s, v, n, places, scale)
  }

  ghost predicate Denotes(s: string, v: real, n: nat, places: nat, scale: real) {
    && Minimal(n, places) && scale == Pow10(places) && HasUnits(Abs(v), scale, n)
    && s == (if v < 0.0 then "-" else "") + FixedText(n, places)
  }

  predicate HasUnits(a: real, scale: real, n: nat) {
    a * scale == n as real
  }

  lemma ShiftedUnits(v: real, n: nat, p: real, p10: real)
    requires HasUnits(v, p10, n) && p10 == 10.0 * p && n % 10 == 0
    ensures HasUnits(v, p, n / 10)
  {
    assert 10.0 * (v * p) == v * p10;
    assert n == 10 * (n / 10);
  }

  lemma {:induction false} TrimmedUnits(v: real, n: nat, places: nat, scale: real) returns (r: real)
    requires scale == Pow10(places) && HasUnits(v, scale, n)
    ensures r == Pow10(Trimmed(n, places).1) && HasUnits(v, r, Trimmed(n, places).0)
  {
    r := scale;
    if places > 0 && n % 10 == 0 {
      var next := Pow10(places - 1);
      Pow10Next(places - 1);
      ShiftedUnits(v, n, next, scale);
      r := TrimmedUnits(v, n / 10, places - 1, next);
    }
  }

  /** Fixed-point formatting shows the rounded value. */
  lemma FixedShows(x: real, places: nat)
    requires Fixed(x, places) != 0.0
    ensures Shows(FixedString(x, places), Fixed(x, places))
  {
    FixedShowsUnits(x, places, Pow10(places), Units(x, places), Fixed(x, places));
  }

  lemma FixedShowsUnits(x: real, places: nat, m: real, n: nat, v: real)
    requires m == Pow10(places) && n == Units(x, places) && v == Nearest(x, m) && v != 0.0
    ensures Shows(FixedString(x, places), v)
  {
    AbsNearest(x, m);
    UnitsIs(x, places, m);
    UnitsOfNearest(Abs(x), m, Abs(v), n);
    var scale := TrimmedUnits(Abs(v), n, places, m);
    TrimIsFixed(n, places);
    SameSign(x, m);
    assert Denotes(FixedString(x, places), v, Trimmed(n, places).0, Trimmed(n, places).1, scale);
  }

  lemma UnitsIs(x: real, places: nat, m: real)
    requires m == Pow10(places)
    ensures Units(x, places) == UnitsAt(Abs(x), m)
  {
  }

  lemma UnitsOfNearest(x: real, m: real, v: real, n: nat)
    requires x >= 0.0 && m > 0.0 && v == Nearest(x, m) && n == UnitsAt(x, m)
    ensures HasUnits(v, m, n)
  {
    Quotient(Round(x * m) as real, m);
  }

  lemma SameSign(x: real, m: real)
    requires m > 0.0 && Nearest(x, m) != 0.0
    ensures Nearest(x, m) < 0.0 <==> x < 0.0
  {
    if x >= 0.0 {
      NearestOrder(0.0, x, m);
    } else {
      NearestOrder(x, 0.0, m);
    }
    assert Nearest(0.0, m) == 0.0 by {
      assert 0.0 * m == 0.0;
      NearestKeeps(0.0, m);
    }
  }

  lemma TensDivide(n: nat, m: nat, v: real, p: real, q: real, k: nat)
    requires HasUnits(v, p, n) && HasUnits(v, q, m) && k >= 1 && q == Pow10(k) * p
    ensures m % 10 == 0
  {
    WholePower(k - 1);
    Pow10Next(k - 1);
    var t := Pow10(k - 1).Floor;
    assert q == 10.0 * (t as real * p);
    assert m as real == 10.0 * (t as real * n as real) by {
      assert v * (10.0 * (t as real * p)) == 10.0 * (t as real * (v * p));
    }
    assert m == 10 * (t * n);
  }

  /** The places and units of a value without trailing zeros are unique. */
  lemma UnitsUnique(v: real, n: nat, p: nat, m: nat, q: nat, pp: real, qq: real)
    requires Minimal(n, p) && Minimal(m, q) && pp == Pow10(p) && qq == Pow10(q)
    requires HasUnits(v, pp, n) && HasUnits(v, qq, m)
    ensures n == m && p == q
  {
    if p < q {
      FewerPlaces(v, n, p, m, q, pp, qq);
    } else if q < p {
      FewerPlaces(v, m, q, n, p, qq, pp);
    }
  }

  lemma FewerPlaces(v: real, n: nat, p: nat, m: nat, q: nat, pp: real, qq: real)
    requires p < q && pp == Pow10(p) && qq == Pow10(q) && HasUnits(v, pp, n) && HasUnits(v, qq, m)
    ensures m % 10 == 0
  {
    Pow10SumIs(q - p, p, Pow10(q - p), pp, qq);
    TensDivide(n, m, v, pp, qq, q - p);
  }

  /** A value has one text. */
  lemma OneText(s: string, t: string, v: real)
    requires Shows(s, v) && Shows(t, v)
    ensures s == t
  {
    var n: nat, p: nat, pp: real :| Denotes(s, v, n, p, pp);
    var m: nat, q: nat, qq: real :| Denotes(t, v, m, q, qq);
    UnitsUnique(Abs(v), n, p, m, q, pp, qq);
  }

  // ---- reading a text back ----

  lemma {:induction false} DigitsOfUnits(n: nat, places: nat)
    ensures AllDigits(Whole(n, places) + Fraction(n, places))
    ensures NumeralValue(Whole(n, places) + Fraction(n, places)) == n
  {
    var s := Whole(n, places) + Fraction(n, places);
    if places == 0 {
      assert s == Numeral(n);
      NumeralRoundTrip(n);
    } else {
      DigitsOfUnits(n / 10, places - 1);
      assert s[..|s| - 1] == Whole(n / 10, places - 1) + Fraction(n / 10, places - 1);
    }
  }

  /** The text determines the units and the places. */
  lemma FixedTextInjective(n: nat, p: nat, m: nat, q: nat)
    requires FixedText(n, p) == FixedText(m, q)
    ensures n == m && p == q
  {
    var s := FixedText(n, p);
    PointSplits(n, p);
    PointSplits(m, q);
    DigitsOfUnits(n, p);
    DigitsOfUnits(m, q);
    var tail := SplitDigits(s).1;
    if tail != "" {
      assert tail[1..] == Fraction(n, p) && tail[1..] == Fraction(m, q);
    } else {
      assert Fraction(n, p) == Fraction(m, q);
    }
  }

  lemma PointSplits(n: nat, p: nat)
    ensures var r := SplitDigits(FixedText(n, p));
            r.0 == Whole(n, p) && r.1 == if p == 0 then "" else "." + Fraction(n, p)
  {
    var tail := if p == 0 then "" else "." + Fraction(n, p);
    SplitDigitsOf(Whole(n, p), tail);
    assert FixedText(n, p) == Whole(n, p) + tail;
  }

  /** A text has one value. */
  lemma OneValue(s: string, v: real, w: real)
    requires Shows(s, v) && Shows(s, w)
    ensures v == w
  {
    var n: nat, p: nat, pp: real :| Denotes(s, v, n, p, pp);
    var m: nat, q: nat, qq: real :| Denotes(s, w, m, q, qq);
    NoSign(n, p);
    NoSign(m, q);
    SameDigits(v < 0.0, FixedText(n, p), w < 0.0, FixedText(m, q));
    FixedTextInjective(n, p, m, q);
    SameUnits(Abs(v), Abs(w), n, pp, qq);
    assert v == if v < 0.0 then -Abs(v) else Abs(v);
  }

  lemma SameUnits(a: real, b: real, n: nat, p: real, q: real)
    requires p > 0.0 && p == q && HasUnits(a, p, n) && HasUnits(b, q, n)
    ensures a == b
  {
    SameProduct(a, b, p);
  }

  lemma SameDigits(negative: bool, a: string, minus: bool, b: string)
    requires a != "" && b != "" && a[0] != '-' && b[0] != '-'
    requires (if negative then "-" else "") + a == (if minus then "-" else "") + b
    ensures negative == minus && a == b
  {
    var s := (if negative then "-" else "") + a;
    assert negative ==> s[0] == '-' && s[1..] == a;
    assert minus ==> s[0] == '-' && s[1..] == b;
    assert !negative ==> s == a;
    assert !minus ==> s == b;
  }

  lemma NoSign(n: nat, p: nat)
    ensures FixedText(n, p) != "" && FixedText(n, p)[0] != '-' && 'e' !in FixedText(n, p)
  {
    var s := FixedText(n, p);
    assert s[0] == Whole(n, p)[0];
    NoPoint(Whole(n, p));
    NoPoint(Fraction(n, p));
  }

  // ---- displayed texts ----

  function IntText(e: int): string {
    if e < 0 then "-" + Numeral(-e) else Numeral(e)
  }

  /** `format_scientific_value`; `value` is what the rendered mantissa is read back as. */
  ghost predicate Displays(x: real, digits: int, text: string) {
    if x == 0.0 then text == "0"
    else
      var n, e := Digits(digits), Adjusted(Abs(x));
      if e <= -2 || e >= 4 then
        MantissaDisplays(x / Pow10(e), n - 1, e, text)
      else
        text == FixedString(x, Places(e, n))
  }

  /** The rendered mantissa with its exponent, after the carry when it reads as 10. */
  function Normalised(f: real, places: nat, e: int, value: real): string {
    if Abs(value) >= 10.0 then FixedString(value / 10.0, places) + "e" + IntText(e + 1)
    else FixedString(f, places) + "e" + IntText(e)
  }

  ghost predicate MantissaDisplays(f: real, places: nat, e: int, text: string) {
    exists value :: ReadsAs(FixedString(f, places), value) && text == Normalised(f, places, e, value)
  }

  /** `Decimal(text)`. */
  ghost predicate ReadsAs(s: string, value: real) {
    Shows(s, value)
  }

  /** The text of a display: its value or mantissa in trimmed decimal notation. */
  ghost predicate TextOf(d: Display, text: string) {
    match d
    case Plain(v) => if v == 0.0 then text == "0" else Shows(text, v)
    case Scientific(m, e) => exists t :: Shows(t, m) && text == t + "e" + IntText(e)
  }

  /** The text that formatting produces is the text of the display. */
  lemma FormattedText(x: real, digits: int, text: string)
    ensures Displays(x, digits, text) <==> TextOf(Format(x, digits), text)
  {
    if x != 0.0 {
      var n, e := Digits(digits), Adjusted(Abs(x));
      if -2 < e < 4 {
        PlainText(x, e, n, text);
        FormatShape(x, digits);
      } else {
        ScientificFormatted(x, digits, n, e, Format(x, digits), text);
      }
    }
  }

  lemma ScientificFormatted(x: real, digits: int, n: nat, e: int, d: Display, text: string)
    requires x != 0.0 && n == Digits(digits) && e == Adjusted(Abs(x)) && (e <= -2 || e >= 4) && d == Format(x, digits)
    ensures Displays(x, digits, text) <==> TextOf(d, text)
  {
    var f, m := x / Pow10(e), Mantissa(x, n);
    DisplaysMantissa(x, digits, n, e, f, text);
    MantissaRange(x, n);
    MantissaOf(x, n, e, f, m);
    MantissaText(f, n - 1, e, m, text);
    ScientificShape(x, digits, n, e, d, m);
    SameDisplayText(d, m, e, text);
  }

  lemma SameDisplayText(d: Display, m: real, e: int, text: string)
    requires d == if Abs(m) == 10.0 then Scientific(m / 10.0, e + 1) else Scientific(m, e)
    ensures TextOf(d, text) <==> TextOf(if Abs(m) == 10.0 then Scientific(m / 10.0, e + 1) else Scientific(m, e), text)
  {
  }

  lemma DisplaysMantissa(x: real, digits: int, n: nat, e: int, f: real, text: string)
    requires x != 0.0 && n == Digits(digits) && e == Adjusted(Abs(x)) && (e <= -2 || e >= 4) && f == x / Pow10(e)
    ensures Displays(x, digits, text) <==> MantissaDisplays(f, n - 1, e, text)
  {
  }

  lemma MantissaOf(x: real, n: nat, e: int, f: real, m: real)
    requires x != 0.0 && n >= 1 && e == Adjusted(Abs(x)) && f == x / Pow10(e) && m == Mantissa(x, n)
    ensures m == Fixed(f, n - 1)
  {
  }

  lemma ScientificShape(x: real, digits: int, n: nat, e: int, d: Display, m: real)
    requires x != 0.0 && n == Digits(digits) && e == Adjusted(Abs(x)) && (e <= -2 || e >= 4) && d == Format(x, digits)
    requires m == Mantissa(x, n)
    ensures d == if Abs(m) == 10.0 then Scientific(m / 10.0, e + 1) else Scientific(m, e)
  {
    FormatShape(x, digits);
  }

  lemma PlainText(x: real, e: int, n: nat, text: string)
    requires x != 0.0 && n >= 1 && e == Adjusted(Abs(x)) && -2 < e < 4
    ensures Fixed(x, Places(e, n)) != 0.0
    ensures text == FixedString(x, Places(e, n)) <==> Shows(text, Fixed(x, Places(e, n)))
  {
    var places := Places(e, n);
    PlainRange(Abs(x), e, places);
    AbsNearest(x, Pow10(places));
    FixedShows(x, places);
    if Shows(text, Fixed(x, places)) {
      OneText(text, FixedString(x, places), Fixed(x, places));
    }
  }

  lemma MantissaText(f: real, places: nat, e: int, m: real, text: string)
    requires m == Fixed(f, places) && 1.0 <= Abs(m) <= 10.0
    ensures MantissaDisplays(f, places, e, text)
            <==> TextOf(if Abs(m) == 10.0 then Scientific(m / 10.0, e + 1) else Scientific(m, e), text)
  {
    FixedShows(f, places);
    OnlyValue(FixedString(f, places), m);
    assert ReadsAs(FixedString(f, places), m);
    if Abs(m) == 10.0 {
      CarriedMantissa(m, places);
      FixedShows(m / 10.0, places);
      OnlyText(FixedString(m / 10.0, places), m / 10.0);
    } else {
      OnlyText(FixedString(f, places), m);
    }
  }

  lemma OnlyValue(s: string, v: real)
    requires Shows(s, v)
    ensures forall w :: Shows(s, w) <==> w == v
  {
    forall w | Shows(s, w) ensures w == v {
      OneValue(s, w, v);
    }
  }

  lemma OnlyText(s: string, v: real)
    requires Shows(s, v)
    ensures forall t :: Shows(t, v) <==> t == s
  {
    forall t | Shows(t, v) ensures t == s {
      OneText(t, s, v);
    }
  }

  lemma NoExponentMark(s: string, v: real)
    requires Shows(s, v)
    ensures 'e' !in s
  {
    var n: nat, p: nat, pp: real :| Denotes(s, v, n, p, pp);
    NoSign(n, p);
  }

  lemma {:induction false} SplitAtMark(a: string, x: string, b: string, y: string)
    requires 'e' !in a && 'e' !in b && a + ("e" + x) == b + ("e" + y)
    ensures a == b && x == y
  {
    var s := a + ("e" + x);
    assert s[|a|] == 'e' && s[|b|] == 'e';
    assert forall i | 0 <= i < |a| :: s[i] == a[i];
    assert forall i | 0 <= i < |b| :: s[i] == b[i];
    assert |a| == |b|;
    assert s[..|a|] == a && s[..|b|] == b;
    assert s[|a| + 1..] == x && s[|b| + 1..] == y;
  }

  lemma IntTextInjective(e: int, f: int)
    requires IntText(e) == IntText(f)
    ensures e == f
  {
    if e < 0 {
      assert IntText(e)[0] == '-';
      assert IntText(e)[1..] == Numeral(-e);
    }
    if f < 0 {
      assert IntText(f)[0] == '-';
      assert IntText(f)[1..] == Numeral(-f);
    }
    if e < 0 && f < 0 {
      NumeralInjective(-e, -f);
    } else if e >= 0 && f >= 0 {
      NumeralInjective(e, f);
    }
  }

  lemma ZeroText(v: real)
    requires Shows("0", v)
    ensures v == 0.0
  {
    assert Numeral(0) == "0";
    assert FixedText(0, 0) == "0";
    assert Denotes("0", 0.0, 0, 0, 1.0);
    OneValue("0", v, 0.0);
  }

  /** A text belongs to one display. */
  lemma TextDeterminesDisplay(d: Display, d': Display, text: string)
    requires TextOf(d, text) && TextOf(d', text)
    ensures d == d'
  {
    assert 'e' !in "0";
    match (d, d')
    case (Plain(v), Plain(w)) =>
      if v == 0.0 && w != 0.0 {
        ZeroText(w);
      } else if v != 0.0 && w == 0.0 {
        ZeroText(v);
      } else if v != 0.0 {
        OneValue(text, v, w);
      }
    case (Scientific(m, e), Scientific(m', e')) =>
      var t :| Shows(t, m) && text == t + "e" + IntText(e);
      var t' :| Shows(t', m') && text == t' + "e" + IntText(e');
      NoExponentMark(t, m);
      NoExponentMark(t', m');
      Associative(t, "e", IntText(e));
      Associative(t', "e", IntText(e'));
      SplitAtMark(t, IntText(e), t', IntText(e'));
      OneValue(t, m, m');
      IntTextInjective(e, e');
    case (Plain(v), Scientific(m, e)) =>
      MarkTells(v, m, e, text);
    case (Scientific(m, e), Plain(v)) =>
      MarkTells(v, m, e, text);
  }

  lemma MarkTells(v: real, m: real, e: int, text: string)
    requires TextOf(Plain(v), text)
    ensures !TextOf(Scientific(m, e), text)
  {
    assert 'e' !in "0";
    if v != 0.0 {
      NoExponentMark(text, v);
    }
    assert forall t :: |t + "e" + IntText(e)| > |t| && (t + "e" + IntText(e))[|t|] == 'e';
  }

  /** Every number is displayed. */
  lemma SomeText(x: real, digits: int) returns (text: string)
    ensures Displays(x, digits, text)
  {
    if x == 0.0 {
      text := "0";
    } else {
      var n, e := Digits(digits), Adjusted(Abs(x));
      if e <= -2 || e >= 4 {
        var f, m := x / Pow10(e), Mantissa(x, n);
        MantissaRange(x, n);
        MantissaOf(x, n, e, f, m);
        text := Normalised(f, n - 1, e, m);
        SomeMantissaText(f, n - 1, e, m, text);
        DisplaysMantissa(x, digits, n, e, f, text);
      } else {
        text := FixedString(x, Places(e, n));
      }
    }
  }

  lemma SomeMantissaText(f: real, places: nat, e: int, m: real, text: string)
    requires m == Fixed(f, places) && m != 0.0 && text == Normalised(f, places, e, m)
    ensures MantissaDisplays(f, places, e, text)
  {
    FixedShows(f, places);
    assert ReadsAs(FixedString(f, places), m);
  }

  /** Two numbers have the same displayed text exactly when they have the same display. */
  lemma SameTextSameDisplay(x: real, y: real, digits: int, digits': int, text: string)
    requires Displays(x, digits, text)
    ensures Displays(y, digits', text) <==> Format(y, digits') == Format(x, digits)
  {
    FormattedText(x, digits, text);
    FormattedText(y, digits', text);
    if Displays(y, digits', text) {
      TextDeterminesDisplay(Format(x, digits), Format(y, digits'), text);
    }
  }

  /** Formatting the displayed number again gives the same text exactly when the number does
      not round to one of the two limits of plain notation. */
  lemma TextSettles(x: real, digits: int, text: string)
    requires Displays(x, digits, text)
    ensures Displays(Value(Format(x, digits)), digits, text) <==> !RoundsToLimit(x, digits)
  {
    FormattingRepeats(x, digits);
    SameTextSameDisplay(x, Value(Format(x, digits)), digits, digits, text);
  }
}
