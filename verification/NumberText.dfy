/** Numeric literals: the regular expression that recognises them, and the two
    printers (`str` of an `int` and of a `Decimal`) whose output it must read back. */
module NumberText {
  import opened Text

  /** A finite `decimal.Decimal`: sign, coefficient and exponent are all significant
      (1.0 and 1.00 are different values of this type). */
  datatype Decimal = Decimal(negative: bool, coefficient: nat, exponent: int)

  datatype Exponent = NoExponent | Power(mark: char, sign: string, digits: string)

  /** The pieces of a numeric literal, in the order they are written. */
  datatype NumberLiteral =
    NumberLiteral(negative: bool, whole: string, point: bool, fraction: string, power: Exponent)

  predicate WellFormedPower(e: Exponent) {
    e.Power? ==>
      (e.mark == 'e' || e.mark == 'E') && (e.sign == "" || e.sign == "+" || e.sign == "-")
      && e.digits != "" && AllDigits(e.digits)
  }

  predicate WellFormed(p: NumberLiteral) {
    && AllDigits(p.whole) && AllDigits(p.fraction)
    && (!p.point ==> p.fraction == "" && p.whole != "")
    && (p.point && p.whole == "" ==> p.fraction != "")
    && WellFormedPower(p.power)
  }

  /** The literal followed by `rest`. */
  function PowerOnto(e: Exponent, rest: string): string {
    match e
    case NoExponent => rest
    case Power(mark, sign, digits) => [mark] + (sign + (digits + rest))
  }

  function TailOnto(p: NumberLiteral, rest: string): string {
    if p.point then "." + (p.fraction + PowerOnto(p.power, rest)) else PowerOnto(p.power, rest)
  }

  function WriteOnto(p: NumberLiteral, rest: string): string {
    if p.negative then "-" + (p.whole + TailOnto(p, rest)) else p.whole + TailOnto(p, rest)
  }

  function Write(p: NumberLiteral): string {
    WriteOnto(p, "")
  }

  lemma WriteAppends(p: NumberLiteral, rest: string)
    ensures WriteOnto(p, rest) == Write(p) + rest
  {
    assert PowerOnto(p.power, rest) == PowerOnto(p.power, "") + rest;
    assert TailOnto(p, rest) == TailOnto(p, "") + rest;
  }

  function ReadSign(s: string): (string, string) {
    if s != "" && (s[0] == '+' || s[0] == '-') then ([s[0]], s[1..]) else ("", s)
  }

  /** `(?:[eE][+-]?\d+)?`, greedy; the second component is what follows. */
  function ReadPower(s: string): (Exponent, string)
  {
    if s == "" || (s[0] != 'e' && s[0] != 'E') then (NoExponent, s)
    else
      var (sign, unsigned) := ReadSign(s[1..]);
      var (digits, rest) := SplitDigits(unsigned);
      if digits == "" then (NoExponent, s) else (Power(s[0], sign, digits), rest)
  }

  /** `(?:\.\d*)?`, greedy. */
  function ReadFraction(s: string): (bool, string, string)
  {
    if s != "" && s[0] == '.' then
      var (digits, rest) := SplitDigits(s[1..]);
      (true, digits, rest)
    else (false, "", s)
  }

  /** `\d+(?:\.\d*)?|\.\d+`, then the exponent, greedy. */
  function ReadUnsigned(s: string, negative: bool): Option<(NumberLiteral, string)>
  {
    var (whole, after) := SplitDigits(s);
    var (point, fraction, tail) := ReadFraction(after);
    if whole == "" && fraction == "" then None
    else
      var (power, rest) := ReadPower(tail);
      Some((NumberLiteral(negative, whole, point, fraction, power), rest))
  }

  /** The literal that the tokeniser's `number` alternative matches at the start of
      `s`, and what follows it. */
  function Read(s: string): Option<(NumberLiteral, string)>
  {
    if s != "" && s[0] == '-' then ReadUnsigned(s[1..], true) else ReadUnsigned(s, false)
  }

  lemma ReadPowerSound(s: string)
    ensures var (e, rest) := ReadPower(s); WellFormedPower(e) && PowerOnto(e, rest) == s
  {
    if s != "" && (s[0] == 'e' || s[0] == 'E') {
      var (sign, unsigned) := ReadSign(s[1..]);
      SplitDigitsSound(unsigned);
      assert s == [s[0]] + (sign + unsigned);
    }
  }

  lemma ReadUnsignedSound(s: string, negative: bool)
    requires ReadUnsigned(s, negative).Some?
    ensures var (p, rest) := ReadUnsigned(s, negative).value;
            WellFormed(p) && p.whole + TailOnto(p, rest) == s && p.negative == negative
  {
    SplitDigitsSound(s);
    var (whole, after) := SplitDigits(s);
    if after != "" && after[0] == '.' {
      SplitDigitsSound(after[1..]);
      assert after == "." + after[1..];
    }
    ReadPowerSound(ReadFraction(after).2);
  }

  /** What is read, written back in front of what follows, is the input. */
  lemma ReadSound(s: string)
    requires Read(s).Some?
    ensures var (p, rest) := Read(s).value;
            WellFormed(p) && WriteOnto(p, rest) == s && |rest| < |s|
  {
    if s[0] == '-' {
      ReadUnsignedSound(s[1..], true);
      assert s == "-" + s[1..];
    } else {
      ReadUnsignedSound(s, false);
    }
    var (p, rest) := Read(s).value;
    WriteAppends(p, rest);
  }

  predicate EndsNumber(rest: string) {
    rest != "" ==> !IsDigit(rest[0]) && rest[0] != '.' && rest[0] != 'e' && rest[0] != 'E'
  }

  lemma ReadPowerOf(e: Exponent, rest: string)
    requires WellFormedPower(e) && EndsNumber(rest)
    ensures ReadPower(PowerOnto(e, rest)) == (e, rest)
  {
    if e.Power? {
      SplitDigitsOf(e.digits, rest);
      var unsigned := e.digits + rest;
      assert unsigned[0] == e.digits[0] && IsDigit(unsigned[0]);
      assert ReadSign(e.sign + unsigned) == (e.sign, unsigned) by {
        if e.sign == "" {
          assert e.sign + unsigned == unsigned;
        }
      }
    }
  }

  lemma ReadUnsignedOf(p: NumberLiteral, rest: string)
    requires WellFormed(p) && EndsNumber(rest)
    ensures ReadUnsigned(p.whole + TailOnto(p, rest), p.negative) == Some((p, rest))
  {
    ReadPowerOf(p.power, rest);
    var power := PowerOnto(p.power, rest);
    SplitDigitsOf(p.fraction, power);
    SplitDigitsOf(p.whole, TailOnto(p, rest));
  }

  /** Maximal munch reads back exactly what was written. */
  lemma ReadWrite(p: NumberLiteral, rest: string)
    requires WellFormed(p) && EndsNumber(rest)
    ensures Read(WriteOnto(p, rest)) == Some((p, rest))
  {
    ReadUnsignedOf(p, rest);
  }

  // ---- integers ----

  function Magnitude(n: int): nat {
    if n < 0 then -n else n
  }

  function IntegerLiteral(n: int): NumberLiteral {
    NumberLiteral(n < 0, Numeral(Magnitude(n)), false, "", NoExponent)
  }

  /** `int(text)` for a literal without point or exponent. */
  function IntegerOf(p: NumberLiteral): int
    requires WellFormed(p)
  {
    var n: int := NumeralValue(p.whole);
    if p.negative then -n else n
  }

  lemma IntegerRoundTrip(n: int)
    ensures WellFormed(IntegerLiteral(n)) && IntegerOf(IntegerLiteral(n)) == n
  {
    NumeralRoundTrip(Magnitude(n));
  }

  /** `str(n)`, read as a number token and converted, is `n`. */
  lemma IntegerTextRoundTrip(n: int, rest: string)
    requires EndsNumber(rest)
    ensures var r := Read(Write(IntegerLiteral(n)) + rest);
            r.Some? && r.value.1 == rest && WellFormed(r.value.0) && IntegerOf(r.value.0) == n
    ensures forall c | c in Write(IntegerLiteral(n)) :: IsDigit(c) || c == '-'
  {
    IntegerRoundTrip(n);
    WriteAppends(IntegerLiteral(n), rest);
    ReadWrite(IntegerLiteral(n), rest);
  }

  // ---- decimals ----

  function SignedExponent(e: int): Exponent {
    Power('E', if e < 0 then "-" else "+", Numeral(Magnitude(e)))
  }

  /** Where `str` puts the decimal point: after the digits that precede it in plain
      notation when the exponent is not positive and the value not tiny, otherwise after
      the first digit, with a power of ten. */
  function PointPlace(left: int, exponent: int): int {
    if exponent <= 0 && left > -6 then left else 1
  }

  function PlacePoint(negative: bool, digits: string, dot: int, power: Exponent): NumberLiteral {
    if dot <= 0 then NumberLiteral(negative, "0", true, Zeros(-dot) + digits, power)
    else if dot >= |digits| then
      NumberLiteral(negative, digits + Zeros(dot - |digits|), false, "", power)
    else NumberLiteral(negative, digits[..dot], true, digits[dot..], power)
  }

  /** `str(d)`. */
  function DecimalLiteral(d: Decimal): NumberLiteral {
    var digits := Numeral(d.coefficient);
    var left := d.exponent + |digits|;
    var dot := PointPlace(left, d.exponent);
    PlacePoint(d.negative, digits, dot, if left == dot then NoExponent else SignedExponent(left - dot))
  }

  function PowerValue(e: Exponent): int
    requires WellFormedPower(e)
  {
    match e
    case NoExponent => 0
    case Power(_, sign, digits) =>
      var n: int := NumeralValue(digits);
      if sign == "-" then -n else n
  }

  /** `Decimal(text)`. */
  function DecimalOf(p: NumberLiteral): Decimal
    requires WellFormed(p)
  {
    Decimal(p.negative, NumeralValue(p.whole + p.fraction), PowerValue(p.power) - |p.fraction|)
  }

  function Ten(n: nat): nat {
    if n == 0 then 1 else 10 * Ten(n - 1)
  }

  lemma {:induction false} ConcatValue(a: string, b: string)
    requires AllDigits(a) && AllDigits(b)
    ensures AllDigits(a + b) && NumeralValue(a + b) == NumeralValue(a) * Ten(|b|) + NumeralValue(b)
  {
    if b == "" {
      assert a + b == a;
    } else {
      var init := b[..|b| - 1];
      ConcatValue(a, init);
      assert (a + b)[..|a + b| - 1] == a + init;
      ShiftDigits(NumeralValue(a), Ten(|init|));
    }
  }

  lemma ShiftDigits(x: nat, t: nat)
    ensures x * (10 * t) == 10 * (x * t)
  {
  }

  /** The decimal of a literal has the value the literal denotes: its coefficient is the whole
      part followed by the fraction, in units of the last digit of the fraction. */
  lemma DecimalMeans(p: NumberLiteral)
    requires WellFormed(p)
    ensures var d := DecimalOf(p);
            var power: int := if p.power.Power? then NumeralValue(p.power.digits) else 0;
            && d.negative == p.negative
            && d.coefficient == NumeralValue(p.whole) * Ten(|p.fraction|) + NumeralValue(p.fraction)
            && d.exponent + |p.fraction| == if p.power.Power? && p.power.sign == "-" then -power else power
  {
    ConcatValue(p.whole, p.fraction);
  }

  /** A literal without point or exponent is one of digits and a sign. */
  lemma LiteralCharacters(p: NumberLiteral)
    requires WellFormed(p)
    ensures !p.point && p.power.NoExponent? <==> forall c | c in Write(p) :: c != '.' && c != 'e' && c != 'E'
  {
    var tail := TailOnto(p, "");
    assert Write(p) == (if p.negative then "-" else "") + (p.whole + tail);
    assert forall c | c in tail :: c in Write(p);
    if p.point {
      assert tail[0] == '.' && tail[0] in tail;
    } else if p.power.Power? {
      assert tail[0] == p.power.mark && tail[0] in tail;
    } else {
      assert tail == "";
    }
  }

  lemma SignedExponentRoundTrip(e: int)
    ensures WellFormedPower(SignedExponent(e)) && PowerValue(SignedExponent(e)) == e
  {
    NumeralRoundTrip(Magnitude(e));
  }

  lemma TinyPlacement(digits: string, zeros: nat)
    requires AllDigits(digits)
    ensures AllDigits(Zeros(zeros) + digits)
    ensures NumeralValue("0" + (Zeros(zeros) + digits)) == NumeralValue(digits)
  {
    LeadingZeros(zeros, digits);
    LeadingZeros(zeros + 1, digits);
    assert "0" + (Zeros(zeros) + digits) == Zeros(zeros + 1) + digits;
  }

  lemma PlacePointValue(negative: bool, digits: string, dot: int, power: Exponent)
    requires digits != "" && AllDigits(digits) && WellFormedPower(power) && dot <= |digits|
    ensures var p := PlacePoint(negative, digits, dot, power);
            WellFormed(p) && p.negative == negative && p.power == power
            && NumeralValue(p.whole + p.fraction) == NumeralValue(digits)
            && |p.fraction| == |digits| - dot
  {
    if dot <= 0 {
      TinyPlacement(digits, -dot);
    } else if dot >= |digits| {
      assert digits + Zeros(0) == digits && digits + "" == digits;
    } else {
      assert digits[..dot] + digits[dot..] == digits;
    }
  }

  /** Printing a decimal and reading it back gives the same sign, coefficient and exponent. */
  lemma DecimalRoundTrip(d: Decimal)
    ensures WellFormed(DecimalLiteral(d)) && DecimalOf(DecimalLiteral(d)) == d
  {
    var digits := Numeral(d.coefficient);
    var left := d.exponent + |digits|;
    var dot := PointPlace(left, d.exponent);
    SignedExponentRoundTrip(left - dot);
    NumeralRoundTrip(d.coefficient);
    PlacePointValue(d.negative, digits, dot,
                    if left == dot then NoExponent else SignedExponent(left - dot));
  }

  /** `str(d)`, read as a number token and converted, is `d`. */
  lemma DecimalTextRoundTrip(d: Decimal, rest: string)
    requires EndsNumber(rest)
    ensures var r := Read(Write(DecimalLiteral(d)) + rest);
            r.Some? && r.value.1 == rest && WellFormed(r.value.0) && DecimalOf(r.value.0) == d
  {
    DecimalRoundTrip(d);
    WriteAppends(DecimalLiteral(d), rest);
    ReadWrite(DecimalLiteral(d), rest);
  }
}
