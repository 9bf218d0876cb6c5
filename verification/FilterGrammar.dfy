/** The grammar of `$filter` as derivation trees: `or` binds loosest, then `and`, then
    `not`, then comparisons, calls and parentheses. It is written without reference to
    the parser; `Yield` is the token list a derivation spells, `Tree` the syntax tree it
    stands for. */
module FilterGrammar {
  import opened Text
  import opened FilterSyntax

  datatype Level = Chain(op: LogicOp) | NotLevel

  datatype Derivation =
    | Single(inner: Derivation)
    | More(first: Derivation, keyword: Token, rest: Derivation)
    | Negation(keyword: Token, inner: Derivation)
    | Group(open: Token, inner: Derivation, close: Token)
    | Comparison(field: Token, operator: Token, literal: Token)
    | Call(name: Token, open: Token, field: Token, comma: Token, literal: Token, close: Token)

  predicate IsKeyword(t: Token, word: string) {
    t.kind.IdentToken? && Lower(t.text) == word
  }

  /** The level of the operands of a chain. */
  function Below(op: LogicOp): Level {
    match op case Or => Chain(And) case And => NotLevel
  }

  function Yield(d: Derivation): seq<Token> {
    match d
    case Single(inner) => Yield(inner)
    case More(first, keyword, rest) => Yield(first) + ([keyword] + Yield(rest))
    case Negation(keyword, inner) => [keyword] + Yield(inner)
    case Group(open, inner, close) => [open] + (Yield(inner) + [close])
    case Comparison(field, operator, literal) => [field, operator, literal]
    case Call(name, open, field, comma, literal, close) => [name, open, field, comma, literal, close]
  }

  /** A field name, an operator word and a literal that fit together. */
  predicate TypedComparison(ctx: Context, field: Token, operator: Token, literal: Token) {
    && field.kind.IdentToken? && Lookup(ctx.fields, field.text).Some?
    && operator.kind.IdentToken? && CompareOpOf(Lower(operator.text)).Some?
    && var f := Lookup(ctx.fields, field.text).value;
       var v := LiteralValue(ctx, literal, f);
       v.Ok? && Comparable(CompareOpOf(Lower(operator.text)).value, f, v.value)
  }

  /** A text function, a string field and a string. */
  predicate TypedCall(ctx: Context, name: Token, field: Token, literal: Token) {
    && name.kind.IdentToken? && FunctionOf(Lower(name.text)).Some?
    && field.kind.IdentToken? && Lookup(ctx.fields, field.text).Some?
    && var f := Lookup(ctx.fields, field.text).value;
       f.kind.StringKind? && LiteralValue(ctx, literal, f).Ok? && !LiteralValue(ctx, literal, f).value.Null?
  }

  predicate Derives(ctx: Context, level: Level, d: Derivation)
    decreases d
  {
    match level
    case Chain(op) =>
      (match d
       case Single(inner) => Derives(ctx, Below(op), inner)
       case More(first, keyword, rest) =>
         Derives(ctx, Below(op), first) && IsKeyword(keyword, LogicWord(op)) && Derives(ctx, level, rest)
       case _ => false)
    case NotLevel =>
      (match d
       case Negation(keyword, inner) => IsKeyword(keyword, "not") && Derives(ctx, NotLevel, inner)
       case Group(open, inner, close) =>
         open.kind.LeftParen? && close.kind.RightParen? && Derives(ctx, Chain(Or), inner)
       case Comparison(field, operator, literal) => TypedComparison(ctx, field, operator, literal)
       case Call(name, open, field, comma, literal, close) =>
         open.kind.LeftParen? && comma.kind.Comma? && close.kind.RightParen?
         && TypedCall(ctx, name, field, literal)
       case _ => false)
  }

  /** The node made of the operands of a chain: one operand stands for itself. */
  function Gather(op: LogicOp, operands: seq<Filter>): Filter
    requires operands != []
  {
    if |operands| == 1 then operands[0] else Logic(op, operands)
  }

  function Operands(ctx: Context, op: LogicOp, d: Derivation): (r: seq<Filter>)
    requires Derives(ctx, Chain(op), d)
    ensures r != []
    decreases d, 0
  {
    match d
    case Single(inner) => [Tree(ctx, Below(op), inner)]
    case More(first, _, rest) => [Tree(ctx, Below(op), first)] + Operands(ctx, op, rest)
  }

  function Tree(ctx: Context, level: Level, d: Derivation): Filter
    requires Derives(ctx, level, d)
    decreases d, 1
  {
    match level
    case Chain(op) => Gather(op, Operands(ctx, op, d))
    case NotLevel =>
      match d
      case Negation(_, inner) => Not(Tree(ctx, NotLevel, inner))
      case Group(_, inner, _) => Tree(ctx, Chain(Or), inner)
      case Comparison(field, operator, literal) =>
        var f := Lookup(ctx.fields, field.text).value;
        Compare(CompareOpOf(Lower(operator.text)).value, f, LiteralValue(ctx, literal, f).value)
      case Call(name, _, field, _, literal, _) =>
        var f := Lookup(ctx.fields, field.text).value;
        Function(FunctionOf(Lower(name.text)).value, f, LiteralValue(ctx, literal, f).value)
  }

  /** Two chains joined by a keyword. */
  function Concat(d: Derivation, keyword: Token, e: Derivation): Derivation {
    match d
    case More(first, k, rest) => More(first, k, Concat(rest, keyword, e))
    case Single(inner) => More(inner, keyword, e)
    case _ => d
  }

  lemma {:induction false} ConcatDerives(ctx: Context, op: LogicOp, d: Derivation, keyword: Token, e: Derivation)
    requires Derives(ctx, Chain(op), d) && Derives(ctx, Chain(op), e) && IsKeyword(keyword, LogicWord(op))
    ensures Derives(ctx, Chain(op), Concat(d, keyword, e))
    ensures Operands(ctx, op, Concat(d, keyword, e)) == Operands(ctx, op, d) + Operands(ctx, op, e)
    decreases d
  {
    if d.More? {
      ConcatDerives(ctx, op, d.rest, keyword, e);
      Associative([Tree(ctx, Below(op), d.first)], Operands(ctx, op, d.rest), Operands(ctx, op, e));
    }
  }

  lemma {:induction false} ConcatYield(ctx: Context, op: LogicOp, d: Derivation, keyword: Token, e: Derivation)
    requires Derives(ctx, Chain(op), d)
    ensures Yield(Concat(d, keyword, e)) == Yield(d) + ([keyword] + Yield(e))
    decreases d
  {
    if d.More? {
      var tail := [keyword] + Yield(e);
      ConcatYield(ctx, op, d.rest, keyword, e);
      Associative([d.keyword], Yield(d.rest), tail);
      Associative(Yield(d.first), [d.keyword] + Yield(d.rest), tail);
    }
  }

  /** Every derivable tree is well typed. */
  lemma {:induction false} TreeIsWellTyped(ctx: Context, level: Level, d: Derivation)
    requires Valid(ctx) && Derives(ctx, level, d)
    ensures WellTyped(ctx, Tree(ctx, level, d))
    ensures level.Chain? ==> AllWellTyped(ctx, Operands(ctx, level.op, d))
    decreases d
  {
    match level
    case Chain(op) =>
      if d.Single? {
        TreeIsWellTyped(ctx, Below(op), d.inner);
      } else {
        TreeIsWellTyped(ctx, Below(op), d.first);
        TreeIsWellTyped(ctx, level, d.rest);
        var all := Operands(ctx, op, d);
        assert all[0] == Tree(ctx, Below(op), d.first) && all[1..] == Operands(ctx, op, d.rest);
      }
    case NotLevel =>
      match d
      case Negation(_, inner) => TreeIsWellTyped(ctx, NotLevel, inner);
      case Group(_, inner, _) => TreeIsWellTyped(ctx, Chain(Or), inner);
      case Comparison(field, _, literal) =>
        LookupIsKnown(ctx, field.text);
      case Call(_, _, field, _, literal, _) =>
        LookupIsKnown(ctx, field.text);
  }

  lemma LookupIsKnown(ctx: Context, name: string)
    requires Lookup(ctx.fields, name).Some?
    ensures Known(ctx, Lookup(ctx.fields, name).value)
  {
  }
}
