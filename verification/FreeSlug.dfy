/** The search for an unused slug when a record is revised. */
module FreeSlug {
  import opened Text

  const LIMIT := 200

  /** `s.rstrip("-")`. */
  function TrimHyphens(s: string): (r: string)
    ensures |r| <= |s|
  {
    if s != "" && s[|s| - 1] == '-' then TrimHyphens(s[..|s| - 1]) else s
  }

  /** `s[:k]`, where a negative bound counts from the end. */
  function Slice(s: string, k: int): string {
    if k >= |s| then s
    else if k >= 0 then s[..k]
    else if |s| + k >= 0 then s[..|s| + k]
    else ""
  }

  function Base(slug: string): string {
    slug + "-revision"
  }

  function First(slug: string): string {
    TrimHyphens(Slice(Base(slug), LIMIT))
  }

  function Suffix(number: nat): string {
    "-" + Numeral(number)
  }

  function Numbered(slug: string, number: nat): string {
    TrimHyphens(Slice(Base(slug), LIMIT - |Suffix(number)|)) + Suffix(number)
  }

  /** The candidates in the order they are tried: the plain one, then those numbered from 2. */
  function Candidate(slug: string, k: nat): string {
    if k == 0 then First(slug) else Numbered(slug, k + 1)
  }

  /** The `k`-th candidate is the first unused one. */
  ghost predicate StopsAt(slug: string, used: set<string>, k: nat) {
    Candidate(slug, k) !in used && forall j: nat | j < k :: Candidate(slug, j) in used
  }

  /** The loop of `_successor_initial`; `rejected` counts the candidates found in use. */
  method SuccessorSlug(slug: string, used: set<string>) returns (candidate: string, rejected: nat)
    ensures candidate == Candidate(slug, rejected) && StopsAt(slug, used, rejected)
    ensures rejected <= |used| + 1
    ensures !Collides(slug) ==> rejected <= |used|
    ensures |Numeral(|used| + 2)| < 200 ==> |candidate| <= 200
  {
    candidate := First(slug);
    var number := 2;
    while candidate in used
      invariant number >= 2 && candidate == Candidate(slug, number - 2)
      invariant forall j: nat | j < number - 2 :: Candidate(slug, j) in used
      decreases |used| + 3 - number
    {
      RejectedCandidates(slug, used, number - 1);
      candidate := Numbered(slug, number);
      number := number + 1;
    }
    rejected := number - 2;
    RejectedCandidates(slug, used, rejected);
    if rejected > 0 {
      LengthOfNumbered(slug, rejected + 1);
      NumeralLengthOrder(rejected + 1, |used| + 2);
    }
  }

  // ---- distinct candidates ----

  /** Numbered candidates with different numbers differ: the number is what follows the last
      hyphen. */
  lemma NumberedInjective(slug: string, m: nat, n: nat)
    requires Numbered(slug, m) == Numbered(slug, n)
    ensures m == n
  {
    var a := TrimHyphens(Slice(Base(slug), LIMIT - |Suffix(m)|));
    var b := TrimHyphens(Slice(Base(slug), LIMIT - |Suffix(n)|));
    SameNumeral(a, Numeral(m), b, Numeral(n));
    NumeralInjective(m, n);
  }

  lemma SameNumeral(a: string, m: string, b: string, n: string)
    requires AllDigits(m) && AllDigits(n) && a + ("-" + m) == b + ("-" + n)
    ensures m == n
  {
    var s := a + ("-" + m);
    assert s[|a|] == '-' && s[|b|] == '-';
    assert forall k | |a| < k < |s| :: s[k] == m[k - |a| - 1];
    assert forall k | |b| < k < |s| :: s[k] == n[k - |b| - 1];
    assert |a| == |b|;
    assert s[|a| + 1..] == m && s[|b| + 1..] == n;
  }

  /** The digits at the end of a text. */
  function LastDigits(s: string): (r: string)
    ensures AllDigits(r)
  {
    if s != "" && IsDigit(s[|s| - 1]) then LastDigits(s[..|s| - 1]) + [s[|s| - 1]] else ""
  }

  /** The plain candidate is also one of the numbered ones; the only possible number is the
      one it ends with. */
  predicate Collides(slug: string) {
    var number := NumeralValue(LastDigits(First(slug)));
    number >= 2 && First(slug) == Numbered(slug, number)
  }

  lemma {:induction false} LastDigitsOf(a: string, digits: string)
    requires AllDigits(digits)
    ensures LastDigits(a + "-" + digits) == digits
  {
    var s := a + "-" + digits;
    if digits != "" {
      var d := digits[..|digits| - 1];
      LastDigitsOf(a, d);
      assert s[..|s| - 1] == a + "-" + d;
      assert d + [digits[|digits| - 1]] == digits;
    }
  }

  lemma CollidesExactly(slug: string)
    ensures Collides(slug) <==> exists n: nat :: n >= 2 && First(slug) == Numbered(slug, n)
  {
    forall n: nat | n >= 2 && First(slug) == Numbered(slug, n) ensures Collides(slug) {
      var a := TrimHyphens(Slice(Base(slug), LIMIT - |Suffix(n)|));
      LastDigitsOf(a, Numeral(n));
      Associative(a, "-", Numeral(n));
      NumeralRoundTrip(n);
    }
  }

  lemma {:induction false} TrimmedPart(s: string)
    ensures var t := TrimHyphens(s);
            && t <= s && (t != "" ==> t[|t| - 1] != '-')
            && (forall i | |t| <= i < |s| :: s[i] == '-')
  {
    if s != "" && s[|s| - 1] == '-' {
      TrimmedPart(s[..|s| - 1]);
    }
  }

  /** In front of its number a candidate is the slug with "-revision", cut to the limit and
      then to its last character that is no hyphen. */
  lemma CandidateStem(slug: string, k: nat) returns (stem: string)
    requires k > 0 ==> |Numeral(k + 1)| < 199
    ensures Candidate(slug, k) == stem + (if k == 0 then "" else "-" + Numeral(k + 1))
    ensures stem <= slug + "-revision" && (stem != "" ==> stem[|stem| - 1] != '-')
    ensures var room := 200 - (if k == 0 then 0 else 1 + |Numeral(k + 1)|);
            && |stem| <= room
            && (forall i | |stem| <= i < |slug| + 9 && i < room :: (slug + "-revision")[i] == '-')
  {
    var room := LIMIT - (if k == 0 then 0 else |Suffix(k + 1)|);
    var cut := Slice(Base(slug), room);
    TrimmedPart(cut);
    stem := TrimHyphens(cut);
    assert stem + "" == stem;
    assert |"-revision"| == 9;
  }

  /** Unless the length limit cuts them, the candidates are the slug with "-revision" and then
      with "-revision-2", "-revision-3" and so on. */
  lemma ShortCandidates(slug: string, k: nat)
    requires |slug| + 9 + (if k == 0 then 0 else 1 + |Numeral(k + 1)|) <= 200
    ensures Candidate(slug, k) == slug + "-revision" + (if k == 0 then "" else "-" + Numeral(k + 1))
  {
    var base := slug + "-revision";
    assert |base| == |slug| + 9 && base[|base| - 1] == 'n';
    assert base + "" == base;
  }

  /** No slug of at most 198 characters collides: its plain candidate ends in a letter. */
  lemma ShortSlugsDoNotCollide(slug: string)
    requires |slug| <= 198
    ensures !Collides(slug)
  {
    var s := Slice(Base(slug), LIMIT);
    var last := s[|s| - 1];
    assert last == "-revision"[|s| - 1 - |slug|];
    assert "-revision"[1..] == "revision";
    assert First(slug) == s && LastDigits(s) == "";
  }

  // ---- how many candidates are tried ----

  ghost function Texts(f: nat -> string, from: nat, to: nat): (s: set<string>)
    requires from <= to
    ensures forall x :: x in s <==> exists j: nat :: from <= j < to && x == f(j)
  {
    if from == to then {} else Texts(f, from, to - 1) + {f(to - 1)}
  }

  /** From index 1 on, all texts differ. */
  ghost predicate Distinct(f: nat -> string) {
    forall i: nat, j: nat | i >= 1 && j >= 1 && f(i) == f(j) :: i == j
  }

  lemma {:induction false} DistinctTexts(f: nat -> string, to: nat)
    requires Distinct(f) && 1 <= to
    ensures |Texts(f, 1, to)| == to - 1
  {
    if 1 < to {
      DistinctTexts(f, to - 1);
    }
  }

  lemma {:induction false} TextsFromFirst(f: nat -> string, to: nat)
    requires to >= 1
    ensures Texts(f, 0, to) == {f(0)} + Texts(f, 1, to)
  {
    if to > 1 {
      TextsFromFirst(f, to - 1);
    }
  }

  lemma SubsetSize(a: set<string>, b: set<string>)
    requires a <= b
    ensures |a| <= |b|
  {
    assert b == a + (b - a);
  }

  /** If the first `k` texts are all used, at least `k - 1` texts are, and `k` when the text
      at index 0 is not met again. */
  lemma Pigeonhole(f: nat -> string, used: set<string>, k: nat)
    requires Distinct(f) && forall j: nat | j < k :: f(j) in used
    ensures k <= |used| + 1
    ensures (forall j: nat | j >= 1 :: f(j) != f(0)) ==> k <= |used|
  {
    if k > 0 {
      DistinctTexts(f, k);
      TextsFromFirst(f, k);
      SubsetSize(Texts(f, 1, k), used);
      SubsetSize(Texts(f, 0, k), used);
    }
  }

  /** If the text at index 0 is met again at `n`, `n - 1` used texts can make the first `n`
      unusable. */
  lemma WorstCase(f: nat -> string, n: nat) returns (used: set<string>)
    requires Distinct(f) && n >= 1 && f(0) == f(n)
    ensures |used| == n && f(n + 1) !in used && forall j: nat | j < n + 1 :: f(j) in used
  {
    used := FirstTexts(f, n);
    assert f(n) in used;
  }

  lemma FirstTexts(f: nat -> string, n: nat) returns (used: set<string>)
    requires Distinct(f) && n >= 1
    ensures |used| == n && f(n + 1) !in used && forall j: nat | 1 <= j < n + 1 :: f(j) in used
  {
    used := Texts(f, 1, n + 1);
    DistinctTexts(f, n + 1);
    NextIsNew(f, n + 1);
  }

  lemma NextIsNew(f: nat -> string, to: nat)
    requires Distinct(f) && 1 <= to
    ensures f(to) !in Texts(f, 1, to)
  {
    forall j: nat | 1 <= j < to ensures f(to) != f(j) {
    }
  }

  /** The candidates as a function of their index. */
  ghost predicate Enumerates(f: nat -> string, slug: string) {
    forall k: nat :: f(k) == Candidate(slug, k)
  }

  lemma CandidatesDistinct(slug: string, f: nat -> string)
    requires Enumerates(f, slug)
    ensures Distinct(f)
  {
    forall i: nat, j: nat | i >= 1 && j >= 1 && f(i) == f(j) ensures i == j {
      SameCandidate(slug, i, j);
    }
  }

  lemma SameCandidate(slug: string, i: nat, j: nat)
    requires i >= 1 && j >= 1 && Candidate(slug, i) == Candidate(slug, j)
    ensures i == j
  {
    NumberedInjective(slug, i + 1, j + 1);
  }

  lemma NotMetAgain(slug: string, f: nat -> string)
    requires Enumerates(f, slug) && !Collides(slug)
    ensures forall j: nat | j >= 1 :: f(j) != f(0)
  {
    forall j: nat | j >= 1 ensures f(j) != f(0) {
      FirstMetAgain(slug, j);
    }
  }

  lemma FirstMetAgain(slug: string, j: nat)
    requires j >= 1
    ensures Candidate(slug, j) == Candidate(slug, 0) ==> Collides(slug)
  {
    CollidesExactly(slug);
  }

  lemma RejectedCandidates(slug: string, used: set<string>, k: nat)
    requires forall j: nat | j < k :: Candidate(slug, j) in used
    ensures k <= |used| + 1
    ensures !Collides(slug) ==> k <= |used|
  {
    var f := (k: nat) => Candidate(slug, k);
    CandidatesDistinct(slug, f);
    if !Collides(slug) {
      NotMetAgain(slug, f);
    }
    Pigeonhole(f, used, k);
  }

  /** The search tries at most one candidate more than there are used slugs, whatever is
      used, exactly when the plain candidate is not also a numbered one. */
  lemma SearchBound(slug: string)
    ensures (forall used: set<string>, k: nat | StopsAt(slug, used, k) :: k <= |used|) <==> !Collides(slug)
  {
    forall used: set<string>, k: nat | StopsAt(slug, used, k) && !Collides(slug) ensures k <= |used| {
      RejectedCandidates(slug, used, k);
    }
    if Collides(slug) {
      WorstUsed(slug, NumeralValue(LastDigits(First(slug))), (k: nat) => Candidate(slug, k));
    }
  }

  lemma WorstUsed(slug: string, n: nat, f: nat -> string)
    requires n >= 2 && Candidate(slug, n - 1) == Candidate(slug, 0) && Enumerates(f, slug)
    ensures exists used: set<string>, k: nat :: StopsAt(slug, used, k) && k == |used| + 1
  {
    CandidatesDistinct(slug, f);
    var used := WorstCase(f, n - 1);
    assert forall j: nat | j < n :: f(j) == Candidate(slug, j);
    assert StopsAt(slug, used, n);
  }

  /** A slug of 200 characters that ends in `-2` collides: with only that slug in use, the
      loop rejects it twice and takes its third candidate. */
  lemma CollisionExample(used: set<string>, x: string)
    requires |x| == 198 && x[|x| - 1] != '-' && used == {x + "-2"}
    ensures Collides(x + "-2") && StopsAt(x + "-2", used, 2)
  {
    var slug := x + "-2";
    ExampleFirst(slug, x);
    ExampleSecond(slug, x);
    FirstMetAgain(slug, 1);
    TwoRejected(slug, used);
  }

  lemma TwoRejected(slug: string, used: set<string>)
    requires Candidate(slug, 0) == slug && Candidate(slug, 1) == slug && used == {slug}
    ensures StopsAt(slug, used, 2)
  {
    if Candidate(slug, 2) == slug {
      SameCandidate(slug, 1, 2);
    }
  }

  lemma ExampleFirst(slug: string, x: string)
    requires |x| == LIMIT - 2 && slug == x + "-2"
    ensures First(slug) == slug
  {
    assert Slice(Base(slug), LIMIT) == slug;
  }

  lemma ExampleSecond(slug: string, x: string)
    requires |x| == LIMIT - 2 && x[|x| - 1] != '-' && slug == x + "-2"
    ensures Numbered(slug, 2) == slug
  {
    assert Suffix(2) == "-2";
    assert Slice(Base(slug), LIMIT - 2) == x;
  }

  // ---- length ----

  /** A numbered candidate fits exactly when its suffix alone does. */
  lemma LengthOfNumbered(slug: string, number: nat)
    ensures |Numbered(slug, number)| <= 200 <==> |Numeral(number)| < 200
  {
  }

  lemma {:induction false} NumeralLengthOrder(m: nat, n: nat)
    requires m <= n
    ensures |Numeral(m)| <= |Numeral(n)|
  {
    if m >= 10 {
      NumeralLengthOrder(m / 10, n / 10);
    }
  }
}
