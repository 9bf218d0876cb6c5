/** Compiling a filter to a boolean condition, and what that condition selects. A
    condition is a tree over atoms (column, lookup, value). */
module FilterMeaning {
  import opened FilterSyntax
  import opened FilterPrinter
  import opened FilterRoundTrip

  datatype LookupKind = Exact | GreaterThan | AtLeast | LessThan | AtMost | HasText | HasPrefix | HasSuffix

  datatype Condition =
    | Atom(column: string, lookup: LookupKind, value: Value)
    | Both(left: Condition, right: Condition)
    | Either(left: Condition, right: Condition)
    | Negated(inner: Condition)

  function CompareLookup(op: CompareOp): LookupKind {
    match op
    case Eq => Exact case Ne => Exact case Gt => GreaterThan case Ge => AtLeast
    case Lt => LessThan case Le => AtMost
  }

  function FunctionLookup(name: FunctionName): LookupKind {
    match name case Contains => HasText case StartsWith => HasPrefix case EndsWith => HasSuffix
  }

  function Combine(op: LogicOp, a: Condition, b: Condition): Condition {
    match op case And => Both(a, b) case Or => Either(a, b)
  }

  /** `_compile_filter`. */
  function Compile(ghost ctx: Context, f: Filter): Condition
    requires WellTyped(ctx, f)
    decreases f, 1
  {
    match f
    case Logic(op, children) =>
      assert AllWellTyped(ctx, children);
      CompileMore(ctx, op, Compile(ctx, children[0]), children[1..])
    case Not(child) => Negated(Compile(ctx, child))
    case Function(name, field, argument) => Atom(field.ormName, FunctionLookup(name), argument)
    case Compare(op, field, value) =>
      var atom := Atom(field.ormName, CompareLookup(op), value);
      if op.Ne? then Negated(atom) else atom
  }

  /** `result & child` or `result | child`, from left to right. */
  function CompileMore(ghost ctx: Context, op: LogicOp, result: Condition, fs: seq<Filter>): Condition
    requires AllWellTyped(ctx, fs)
    decreases fs, 0
  {
    if fs == [] then result
    else CompileMore(ctx, op, Combine(op, result, Compile(ctx, fs[0])), fs[1..])
  }

  // ---- what a filter means, without compiling it ----

  /** A row gives every column a value. */
  type Row = string -> Value

  /** A strict order on the values of a column. Values that it does not tell apart are equal,
      such as 1.0 and 1.00. */
  type Less = (Value, Value) -> bool

  ghost predicate IsStrictOrder(less: Less) {
    && (forall a, b :: less(a, b) ==> !less(b, a))
    && (forall a, b, c :: less(a, b) && less(b, c) ==> less(a, c))
  }

  predicate Same(less: Less, a: Value, b: Value) {
    !less(a, b) && !less(b, a)
  }

  predicate Occurs(part: string, whole: string) {
    exists i | 0 <= i <= |whole| :: part <= whole[i..]
  }

  /** The last characters of `whole` are `part`. */
  predicate Ending(part: string, whole: string) {
    |part| <= |whole| && whole[|whole| - |part|..] == part
  }

  /** What a lookup asks of the value in a column. A comparison with null asks whether the
      column is null; every other lookup fails on a null column. */
  predicate Matches(less: Less, lookup: LookupKind, column: Value, argument: Value) {
    if column.Null? || argument.Null? then lookup.Exact? && column == argument
    else match lookup
         case Exact => Same(less, column, argument)
         case GreaterThan => less(argument, column)
         case AtLeast => !less(column, argument)
         case LessThan => less(column, argument)
         case AtMost => !less(argument, column)
         case HasText => column.Text? && argument.Text? && Occurs(argument.text, column.text)
         case HasPrefix => column.Text? && argument.Text? && argument.text <= column.text
         case HasSuffix => column.Text? && argument.Text? && Ending(argument.text, column.text)
  }

  function MatchesAtom(less: Less, row: Row): Condition -> bool {
    (c: Condition) => c.Atom? && Matches(less, c.lookup, row(c.column), c.value)
  }

  /** The rows a filter asks for, by the values in the columns of its fields. `ne` is the
      opposite of `eq`; `and`, `or` and `not` have their usual meaning. */
  ghost predicate Satisfies(less: Less, row: Row, f: Filter)
    decreases f
  {
    match f
    case Compare(op, field, value) =>
      var v := row(field.ormName);
      var equal := if value.Null? then v.Null? else !v.Null? && Same(less, v, value);
      var comparable := !v.Null? && !value.Null?;
      (match op
       case Eq => equal
       case Ne => !equal
       case Gt => comparable && less(value, v)
       case Ge => comparable && (less(value, v) || equal)
       case Lt => comparable && less(v, value)
       case Le => comparable && (less(v, value) || equal))
    case Function(name, field, argument) =>
      var v := row(field.ormName);
      v.Text? && argument.Text?
      && (match name
          case Contains => exists before, after :: v.text == before + argument.text + after
          case StartsWith => exists after :: v.text == argument.text + after
          case EndsWith => exists before :: v.text == before + argument.text)
    case Not(child) => !Satisfies(less, row, child)
    case Logic(And, children) => forall c | c in children :: Satisfies(less, row, c)
    case Logic(Or, children) => exists c | c in children :: Satisfies(less, row, c)
  }

  // ---- readings of a condition ----

  /** A reading of `&`, `|` and `~` over truth values `T`. */
  datatype Reading<!T> = Reading(both: (T, T) -> T, either: (T, T) -> T, negate: T -> T) {
    function Join(op: LogicOp, a: T, b: T): T {
      match op case And => both(a, b) case Or => either(a, b)
    }
  }

  ghost predicate IsAssociative<T(!new)>(r: Reading<T>) {
    forall op, a, b, c :: r.Join(op, r.Join(op, a, b), c) == r.Join(op, a, r.Join(op, b, c))
  }

  function Evaluate<T>(r: Reading<T>, row: Condition -> T, c: Condition): T {
    match c
    case Atom(_, _, _) => row(c)
    case Both(a, b) => r.both(Evaluate(r, row, a), Evaluate(r, row, b))
    case Either(a, b) => r.either(Evaluate(r, row, a), Evaluate(r, row, b))
    case Negated(a) => r.negate(Evaluate(r, row, a))
  }

  datatype Truth = True | False | Unknown

  /** Python's and SQL's two-valued reading. */
  const TWO_VALUED := Reading((a: bool, b: bool) => a && b, (a: bool, b: bool) => a || b, (a: bool) => !a)

  /** SQL's three-valued reading (Kleene). */
  const KLEENE := Reading(
    (a: Truth, b: Truth) =>
      if a == False || b == False then False else if a == True && b == True then True else Unknown,
    (a: Truth, b: Truth) =>
      if a == True || b == True then True else if a == False && b == False then False else Unknown,
    (a: Truth) => match a case True => False case False => True case Unknown => Unknown)

  /** The value of a non-empty chain. */
  ghost function Total<T>(ctx: Context, r: Reading<T>, row: Condition -> T, op: LogicOp, fs: seq<Filter>): T
    requires fs != [] && AllWellTyped(ctx, fs)
  {
    var first := Evaluate(r, row, Compile(ctx, fs[0]));
    if |fs| == 1 then first else r.Join(op, first, Total(ctx, r, row, op, fs[1..]))
  }

  lemma {:induction false} MoreIsTotal<T(!new)>(ctx: Context, r: Reading<T>, row: Condition -> T, op: LogicOp,
                                                result: Condition, fs: seq<Filter>)
    requires IsAssociative(r) && AllWellTyped(ctx, fs)
    ensures Evaluate(r, row, CompileMore(ctx, op, result, fs))
            == if fs == [] then Evaluate(r, row, result)
               else r.Join(op, Evaluate(r, row, result), Total(ctx, r, row, op, fs))
    decreases |fs|
  {
    if fs != [] {
      MoreIsTotal(ctx, r, row, op, Combine(op, result, Compile(ctx, fs[0])), fs[1..]);
    }
  }

  lemma LogicIsTotal<T(!new)>(ctx: Context, r: Reading<T>, row: Condition -> T, f: Filter)
    requires IsAssociative(r) && WellTyped(ctx, f) && f.Logic?
    ensures Evaluate(r, row, Compile(ctx, f)) == Total(ctx, r, row, f.logic, f.children)
  {
    MoreIsTotal(ctx, r, row, f.logic, Compile(ctx, f.children[0]), f.children[1..]);
  }

  lemma {:induction false} TotalAppend<T(!new)>(ctx: Context, r: Reading<T>, row: Condition -> T, op: LogicOp,
                                                fs: seq<Filter>, gs: seq<Filter>)
    requires IsAssociative(r) && fs != [] && gs != []
    requires AllWellTyped(ctx, fs) && AllWellTyped(ctx, gs)
    ensures AllWellTyped(ctx, fs + gs)
    ensures Total(ctx, r, row, op, fs + gs)
            == r.Join(op, Total(ctx, r, row, op, fs), Total(ctx, r, row, op, gs))
    decreases |fs|
  {
    AllWellTypedAppend(ctx, fs, gs);
    if |fs| == 1 {
      assert (fs + gs)[1..] == gs;
    } else {
      assert (fs + gs)[1..] == fs[1..] + gs;
      TotalAppend(ctx, r, row, op, fs[1..], gs);
    }
  }

  /** Merging nested chains does not change what a condition selects, under any reading in
      which `&` and `|` are associative. */
  lemma {:induction false} FlattenPreserves<T(!new)>(ctx: Context, r: Reading<T>, row: Condition -> T, f: Filter)
    requires IsAssociative(r) && WellTyped(ctx, f)
    ensures WellTyped(ctx, Flatten(f))
    ensures Evaluate(r, row, Compile(ctx, Flatten(f))) == Evaluate(r, row, Compile(ctx, f))
    decreases f, 1
  {
    FlattenWellTyped(ctx, f);
    match f
    case Not(child) => FlattenPreserves(ctx, r, row, child);
    case Logic(op, children) =>
      SplicePreserves(ctx, r, row, op, children);
      LogicIsTotal(ctx, r, row, f);
      LogicIsTotal(ctx, r, row, Flatten(f));
    case _ =>
  }

  lemma {:induction false} SplicePreserves<T(!new)>(ctx: Context, r: Reading<T>, row: Condition -> T, op: LogicOp,
                                                    fs: seq<Filter>)
    requires IsAssociative(r) && fs != [] && AllWellTyped(ctx, fs)
    ensures SpliceAll(op, fs) != [] && AllWellTyped(ctx, SpliceAll(op, fs))
    ensures Total(ctx, r, row, op, SpliceAll(op, fs)) == Total(ctx, r, row, op, fs)
    decreases fs, 0
  {
    SpliceWellTyped(ctx, op, fs);
    SplicedPreserves(ctx, r, row, op, fs[0]);
    var s := Spliced(op, Flatten(fs[0]));
    if |fs| == 1 {
      assert s + [] == s;
    } else {
      SplicePreserves(ctx, r, row, op, fs[1..]);
      TotalAppend(ctx, r, row, op, s, SpliceAll(op, fs[1..]));
    }
  }

  lemma {:induction false} SplicedPreserves<T(!new)>(ctx: Context, r: Reading<T>, row: Condition -> T, op: LogicOp,
                                                     f: Filter)
    requires IsAssociative(r) && WellTyped(ctx, f)
    ensures Spliced(op, Flatten(f)) != [] && AllWellTyped(ctx, Spliced(op, Flatten(f)))
    ensures Total(ctx, r, row, op, Spliced(op, Flatten(f))) == Evaluate(r, row, Compile(ctx, f))
    decreases f, 2
  {
    FlattenPreserves(ctx, r, row, f);
    var g := Flatten(f);
    SplicedNonEmpty(ctx, op, f);
    if g.Logic? && g.logic == op {
      LogicIsTotal(ctx, r, row, g);
    } else {
      assert [g][1..] == [];
    }
  }

  /** The compiled condition selects exactly the rows that the filter asks for. */
  lemma {:induction false} CompiledMeansFilter(ctx: Context, less: Less, row: Row, f: Filter)
    requires WellTyped(ctx, f) && IsStrictOrder(less)
    ensures Evaluate(TWO_VALUED, MatchesAtom(less, row), Compile(ctx, f)) == Satisfies(less, row, f)
    decreases f, 1
  {
    match f
    case Compare(_, _, _) => ComparisonMeans(ctx, less, row, f);
    case Function(_, _, _) => CallMeans(ctx, less, row, f);
    case Not(child) => CompiledMeansFilter(ctx, less, row, child);
    case Logic(op, children) =>
      LogicIsTotal(ctx, TWO_VALUED, MatchesAtom(less, row), f);
      TotalMeansAll(ctx, less, row, op, children);
  }

  lemma ComparisonMeans(ctx: Context, less: Less, row: Row, f: Filter)
    requires WellTyped(ctx, f) && IsStrictOrder(less) && f.Compare?
    ensures Evaluate(TWO_VALUED, MatchesAtom(less, row), Compile(ctx, f)) == Satisfies(less, row, f)
  {
    var v := row(f.field.ormName);
    assert less(v, f.value) ==> !less(f.value, v);
  }

  lemma CallMeans(ctx: Context, less: Less, row: Row, f: Filter)
    requires WellTyped(ctx, f) && f.Function?
    ensures Evaluate(TWO_VALUED, MatchesAtom(less, row), Compile(ctx, f)) == Satisfies(less, row, f)
  {
    if row(f.field.ormName).Text? {
      var whole, part := row(f.field.ormName).text, f.argument.text;
      OccursMeans(part, whole);
      PrefixMeans(part, whole);
      EndingMeans(part, whole);
    }
  }

  lemma OccursMeans(part: string, whole: string)
    ensures Occurs(part, whole) <==> exists before, after :: whole == before + part + after
  {
    if Occurs(part, whole) {
      var i :| 0 <= i <= |whole| && part <= whole[i..];
      assert whole == whole[..i] + part + whole[i..][|part|..];
    }
    if before, after :| whole == before + part + after {
      assert whole[|before|..] == part + after;
    }
  }

  lemma PrefixMeans(part: string, whole: string)
    ensures part <= whole <==> exists after :: whole == part + after
  {
    if part <= whole {
      assert whole == part + whole[|part|..];
    }
  }

  lemma EndingMeans(part: string, whole: string)
    ensures Ending(part, whole) <==> exists before :: whole == before + part
  {
    if Ending(part, whole) {
      assert whole == whole[..|whole| - |part|] + part;
    }
    if before :| whole == before + part {
      assert |before| == |whole| - |part|;
    }
  }

  lemma {:induction false} TotalMeansAll(ctx: Context, less: Less, row: Row, op: LogicOp, fs: seq<Filter>)
    requires fs != [] && AllWellTyped(ctx, fs) && IsStrictOrder(less)
    ensures Total(ctx, TWO_VALUED, MatchesAtom(less, row), op, fs)
            == if op.And? then forall c | c in fs :: Satisfies(less, row, c)
               else exists c | c in fs :: Satisfies(less, row, c)
    decreases fs, 0
  {
    CompiledMeansFilter(ctx, less, row, fs[0]);
    if |fs| == 1 {
      assert fs == [fs[0]];
    } else {
      TotalMeansAll(ctx, less, row, op, fs[1..]);
      assert fs == [fs[0]] + fs[1..];
    }
  }

  /** An accepted filter and its canonical text, read again, select the same rows: for
      every assignment of truth values to the atoms, two-valued or three-valued. */
  lemma CanonicalTextSelectsTheSame(ctx: Context, source: string)
    requires Valid(ctx) && ParseFilter(ctx, source).Ok?
    ensures var f := ParseFilter(ctx, source).value;
            var again := ParseFilter(ctx, Render(f, 0));
            && again.Ok? && WellTyped(ctx, f) && WellTyped(ctx, again.value)
            && (forall row :: Evaluate(TWO_VALUED, row, Compile(ctx, again.value))
                              == Evaluate(TWO_VALUED, row, Compile(ctx, f)))
            && (forall row :: Evaluate(KLEENE, row, Compile(ctx, again.value))
                              == Evaluate(KLEENE, row, Compile(ctx, f)))
            && Render(again.value, 0) == Render(f, 0)
  {
    var f := ParseFilter(ctx, source).value;
    ParsedIsWellTyped(ctx, source);
    ReparseAccepted(ctx, source);
    FlattenWellTyped(ctx, f);
    forall row
      ensures Evaluate(TWO_VALUED, row, Compile(ctx, Flatten(f))) == Evaluate(TWO_VALUED, row, Compile(ctx, f))
    {
      FlattenPreserves(ctx, TWO_VALUED, row, f);
    }
    forall row ensures Evaluate(KLEENE, row, Compile(ctx, Flatten(f))) == Evaluate(KLEENE, row, Compile(ctx, f)) {
      FlattenPreserves(ctx, KLEENE, row, f);
    }
    RenderFlatten(ctx, f, 0);
  }
}
