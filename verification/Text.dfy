/** Strings as the registry uses them: decimal numerals (`str` and `int` of a
    non-negative integer), splitting at a separator and joining. */
module Text {

  datatype Option<+T> = None | Some(value: T)

  lemma Associative<T>(a: seq<T>, b: seq<T>, c: seq<T>)
    ensures a + b + c == a + (b + c)
  {
  }

  lemma TakeNext<T>(s: seq<T>, i: nat)
    requires i < |s|
    ensures s[..i + 1] == s[..i] + [s[i]]
  {
  }

  predicate IsDigit(c: char) {
    '0' <= c <= '9'
  }

  predicate AllDigits(s: string) {
    forall i | 0 <= i < |s| :: IsDigit(s[i])
  }

  function DigitChar(d: nat): (c: char)
    requires d < 10
    ensures IsDigit(c) && c as int - '0' as int == d
  {
    '0' + d as char
  }

  /** The decimal numeral of `n`: no leading zeros. */
  function Numeral(n: nat): (s: string)
    ensures s != "" && AllDigits(s)
    ensures |s| > 1 ==> s[0] != '0'
  {
    if n < 10 then [DigitChar(n)] else Numeral(n / 10) + [DigitChar(n % 10)]
  }

  /** The number a run of digits denotes. */
  function NumeralValue(s: string): nat
    requires AllDigits(s)
  {
    if s == "" then 0
    else 10 * NumeralValue(s[..|s| - 1]) + (s[|s| - 1] as int - '0' as int)
  }

  lemma {:induction false} NumeralRoundTrip(n: nat)
    ensures NumeralValue(Numeral(n)) == n
  {
    if n >= 10 {
      NumeralRoundTrip(n / 10);
      assert Numeral(n)[..|Numeral(n)| - 1] == Numeral(n / 10);
    }
  }

  lemma NumeralInjective(m: nat, n: nat)
    requires Numeral(m) == Numeral(n)
    ensures m == n
  {
    NumeralRoundTrip(m);
    NumeralRoundTrip(n);
  }

  function Zeros(n: nat): (s: string)
    ensures |s| == n && AllDigits(s)
  {
    if n == 0 then "" else "0" + Zeros(n - 1)
  }

  lemma {:induction false} LeadingZeros(n: nat, s: string)
    requires AllDigits(s)
    ensures AllDigits(Zeros(n) + s)
    ensures NumeralValue(Zeros(n) + s) == NumeralValue(s)
    decreases n, |s|
  {
    if s != "" {
      LeadingZeros(n, s[..|s| - 1]);
      assert (Zeros(n) + s)[..|Zeros(n) + s| - 1] == Zeros(n) + s[..|s| - 1];
    } else if n > 0 {
      assert Zeros(n) + s == Zeros(n);
      ZerosValue(n);
    }
  }

  lemma {:induction false} ZerosValue(n: nat)
    ensures NumeralValue(Zeros(n)) == 0
  {
    if n > 0 {
      ZerosLast(n);
      ZerosValue(n - 1);
    }
  }

  lemma {:induction false} ZerosLast(n: nat)
    requires n > 0
    ensures Zeros(n)[..n - 1] == Zeros(n - 1) && Zeros(n)[n - 1] == '0'
  {
    if n > 1 {
      ZerosLast(n - 1);
    }
  }

  /** The longest prefix of digits, and what follows it. */
  function SplitDigits(s: string): (r: (string, string))
  {
    if s == "" || !IsDigit(s[0]) then ("", s)
    else
      var tail := SplitDigits(s[1..]);
      ([s[0]] + tail.0, tail.1)
  }

  lemma {:induction false} SplitDigitsSound(s: string)
    ensures var r := SplitDigits(s);
            AllDigits(r.0) && r.0 + r.1 == s && (r.1 != "" ==> !IsDigit(r.1[0]))
  {
    if s != "" && IsDigit(s[0]) {
      SplitDigitsSound(s[1..]);
    }
  }

  lemma {:induction false} SplitDigitsOf(digits: string, rest: string)
    requires AllDigits(digits)
    requires rest != "" ==> !IsDigit(rest[0])
    ensures SplitDigits(digits + rest) == (digits, rest)
  {
    if digits == "" {
      assert digits + rest == rest;
    } else {
      assert (digits + rest)[1..] == digits[1..] + rest;
      SplitDigitsOf(digits[1..], rest);
      assert [digits[0]] + digits[1..] == digits;
    }
  }

  predicate IsUpper(c: char) {
    'A' <= c <= 'Z'
  }

  function LowerChar(c: char): char {
    if IsUpper(c) then c - 'A' + 'a' else c
  }

  /** `str.lower` on ASCII text. */
  function Lower(s: string): (r: string)
    ensures |r| == |s|
    ensures forall i | 0 <= i < |s| :: r[i] == LowerChar(s[i])
  {
    if s == "" then "" else [LowerChar(s[0])] + Lower(s[1..])
  }

  lemma LowerFixed(s: string)
    requires forall i | 0 <= i < |s| :: !IsUpper(s[i])
    ensures Lower(s) == s
  {
  }
}
