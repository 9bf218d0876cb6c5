/** The recursive-descent parser as a function of the token list, compared with the grammar
    in both directions. A token list here has no end marker: the empty list stands for it. */
module FilterParser {
  import opened Text
  import opened FilterSyntax
  import opened FilterGrammar

  const MAX_FILTER_NODES: nat := 100

  /** A result with the tokens left and the number of nodes still allowed. */
  datatype Parsed<+T> = Done(value: T, rest: seq<Token>, budget: nat) | Stop(code: Code)

  predicate NextIs(ts: seq<Token>, kind: TokenKind) {
    ts != [] && ts[0].kind == kind
  }

  predicate NextIsKeyword(ts: seq<Token>, word: string) {
    ts != [] && IsKeyword(ts[0], word)
  }

  /** `_node`: count a node, refuse the one beyond the limit. */
  function MakeNode(node: Filter, rest: seq<Token>, n: nat): Parsed<Filter> {
    if n == 0 then Stop(FilterTooComplex) else Done(node, rest, n - 1)
  }

  function ParseChain(ctx: Context, op: LogicOp, ts: seq<Token>, n: nat): (r: Parsed<Filter>)
    ensures r.Done? ==> |r.rest| < |ts|
    decreases |ts|, if op.Or? then 6 else 3
  {
    match ParseOperands(ctx, op, ts, n)
    case Stop(c) => Stop(c)
    case Done(operands, rest, m) =>
      if |operands| == 1 then Done(operands[0], rest, m)
      else MakeNode(Logic(op, operands), rest, m)
  }

  function ParseOperands(ctx: Context, op: LogicOp, ts: seq<Token>, n: nat): (r: Parsed<seq<Filter>>)
    ensures r.Done? ==> |r.rest| < |ts| && r.value != []
    decreases |ts|, if op.Or? then 5 else 2
  {
    match ParseOperand(ctx, op, ts, n)
    case Stop(c) => Stop(c)
    case Done(first, rest, m) => MoreOperands(ctx, op, [first], rest, m)
  }

  /** The rest of a chain, after `operands` have been read. */
  function MoreOperands(ctx: Context, op: LogicOp, operands: seq<Filter>, ts: seq<Token>, n: nat)
    : (r: Parsed<seq<Filter>>)
    requires operands != []
    ensures r.Done? ==> |r.rest| <= |ts| && r.value != []
    decreases |ts|, 0
  {
    if !NextIsKeyword(ts, LogicWord(op)) then Done(operands, ts, n)
    else match ParseOperand(ctx, op, ts[1..], n)
         case Stop(c) => Stop(c)
         case Done(next, rest, m) => MoreOperands(ctx, op, operands + [next], rest, m)
  }

  function ParseOperand(ctx: Context, op: LogicOp, ts: seq<Token>, n: nat): (r: Parsed<Filter>)
    ensures r.Done? ==> |r.rest| < |ts|
    decreases |ts|, if op.Or? then 4 else 1
  {
    if op.Or? then ParseChain(ctx, And, ts, n) else ParseNot(ctx, ts, n)
  }

  function ParseNot(ctx: Context, ts: seq<Token>, n: nat): (r: Parsed<Filter>)
    ensures r.Done? ==> |r.rest| < |ts|
    decreases |ts|, 0
  {
    if NextIsKeyword(ts, "not") then
      match ParseNot(ctx, ts[1..], n)
      case Stop(c) => Stop(c)
      case Done(child, rest, m) => MakeNode(Not(child), rest, m)
    else if NextIs(ts, LeftParen) then
      match ParseChain(ctx, Or, ts[1..], n)
      case Stop(c) => Stop(c)
      case Done(inner, rest, m) =>
        if NextIs(rest, RightParen) then Done(inner, rest[1..], m) else Stop(UnexpectedToken)
    else if !NextIs(ts, IdentToken) then Stop(UnexpectedToken)
    else if NextIs(ts[1..], LeftParen) then ParseCall(ctx, ts[0], ts[1..], n)
    else ParseComparison(ctx, ts[0], ts[1..], n)
  }

  function ParseComparison(ctx: Context, name: Token, ts: seq<Token>, n: nat): (r: Parsed<Filter>)
    ensures r.Done? ==> |r.rest| < |ts|
  {
    var field := Lookup(ctx.fields, name.text);
    if field.None? then Stop(UnknownField)
    else if !NextIs(ts, IdentToken) then Stop(UnexpectedToken)
    else
      var op := CompareOpOf(Lower(ts[0].text));
      if op.None? then Stop(UnsupportedOperator)
      else if |ts| < 2 then Stop(ExpectedLiteral)
      else match LiteralValue(ctx, ts[1], field.value)
           case Fail(c) => Stop(c)
           case Ok(v) =>
             match CheckComparison(op.value, field.value, v)
             case Fail(c) => Stop(c)
             case Ok(_) => MakeNode(Compare(op.value, field.value, v), ts[2..], n)
  }

  /** `_parse_function`: `ts` starts with the opening parenthesis. */
  function ParseCall(ctx: Context, name: Token, ts: seq<Token>, n: nat): (r: Parsed<Filter>)
    requires NextIs(ts, LeftParen)
    ensures r.Done? ==> |r.rest| < |ts|
  {
    var function_ := FunctionOf(Lower(name.text));
    if function_.None? then Stop(UnsupportedFunction)
    else if !NextIs(ts[1..], IdentToken) then Stop(UnexpectedToken)
    else
      var field := Lookup(ctx.fields, ts[1].text);
      if field.None? then Stop(UnknownField)
      else if !field.value.kind.StringKind? then Stop(TypeMismatch)
      else if !NextIs(ts[2..], Comma) then Stop(UnexpectedToken)
      else if |ts| < 4 then Stop(ExpectedLiteral)
      else match LiteralValue(ctx, ts[3], field.value)
           case Fail(c) => Stop(c)
           case Ok(v) =>
             if v.Null? then Stop(TypeMismatch)
             else if !NextIs(ts[4..], RightParen) then Stop(UnexpectedToken)
             else MakeNode(Function(function_.value, field.value, v), ts[5..], n)
  }

  /** `parse`: the whole token list must be used. */
  function ParseTokens(ctx: Context, ts: seq<Token>, limit: nat): Outcome<Filter> {
    match ParseChain(ctx, Or, ts, limit)
    case Stop(c) => Fail(c)
    case Done(f, rest, _) => if rest == [] then Ok(f) else Fail(UnexpectedToken)
  }

  // ---- one comparison and one call ----

  predicate IsNull(literal: Token) {
    literal.kind.IdentToken? && (Lower(literal.text) == "null")
  }

  predicate IsLiteral(t: Token) {
    t.kind.StringToken? || t.kind.NumberToken? || t.kind.IdentToken?
  }

  /** The operator a word names. */
  predicate Names(word: string, op: CompareOp) {
    match op
    case Eq => word == "eq" case Ne => word == "ne" case Gt => word == "gt"
    case Ge => word == "ge" case Lt => word == "lt" case Le => word == "le"
  }

  /** The text function a word names. */
  predicate NamesFunction(word: string, name: FunctionName) {
    match name
    case Contains => word == "contains" case StartsWith => word == "startswith" case EndsWith => word == "endswith"
  }

  /** What the tokens field, operator and literal give, in the order of the checks: the error
      of the first check that fails, or the comparison. */
  lemma ComparisonOutcome(ctx: Context, name: Token, operator: Token, literal: Token, limit: nat)
    requires name.kind.IdentToken? && Lower(name.text) != "not" && !operator.kind.LeftParen? && limit > 0
    ensures var r := ParseTokens(ctx, [name, operator, literal], limit);
            var word := Lower(operator.text);
            match Lookup(ctx.fields, name.text)
            case None => r == Fail(UnknownField)
            case Some(field) =>
              if !operator.kind.IdentToken? then r == Fail(UnexpectedToken)
              else if word !in {"eq", "ne", "gt", "ge", "lt", "le"} then r == Fail(UnsupportedOperator)
              else if !IsLiteral(literal) then r == Fail(ExpectedLiteral)
              else if IsNull(literal) && word !in {"eq", "ne"} then r == Fail(NullComparison)
              else if IsNull(literal) && !field.nullable then r == Fail(NonnullableField)
              else if !IsNull(literal) && ConvertLiteral(ctx, literal, field.kind).None? then r == Fail(TypeMismatch)
              else if field.kind in {BooleanKind, UuidKind} && word !in {"eq", "ne"} then
                r == Fail(UnsupportedOperator)
              else && r.Ok? && r.value.Compare? && Names(word, r.value.op) && r.value.field == field
                   && r.value.value == if IsNull(literal) then Null
                                       else ConvertLiteral(ctx, literal, field.kind).value
  {
    var ts := [name, operator, literal];
    assert ParseNot(ctx, ts, limit) == ParseComparison(ctx, name, [operator, literal], limit) by {
      assert ts[1..] == [operator, literal];
    }
    OperatorWords(Lower(operator.text));
    ReadComparison(ctx, name, operator, literal, limit, CompareOpOf(Lower(operator.text)));
    LeafTokens(ctx, ts, limit);
  }

  lemma OperatorWords(word: string)
    ensures CompareOpOf(word).None? <==> word !in {"eq", "ne", "gt", "ge", "lt", "le"}
    ensures CompareOpOf(word).Some? ==>
              Names(word, CompareOpOf(word).value)
              && (word in {"eq", "ne"} <==> CompareOpOf(word).value == Eq || CompareOpOf(word).value == Ne)
  {
  }

  lemma ReadComparison(ctx: Context, name: Token, operator: Token, literal: Token, limit: nat, op: Option<CompareOp>)
    requires limit > 0 && op == CompareOpOf(Lower(operator.text))
    ensures var r := ParseComparison(ctx, name, [operator, literal], limit);
            match Lookup(ctx.fields, name.text)
            case None => r == Stop(UnknownField)
            case Some(field) =>
              var equality := op == Some(Eq) || op == Some(Ne);
              if !operator.kind.IdentToken? then r == Stop(UnexpectedToken)
              else if op.None? then r == Stop(UnsupportedOperator)
              else if !IsLiteral(literal) then r == Stop(ExpectedLiteral)
              else if IsNull(literal) && !equality then r == Stop(NullComparison)
              else if IsNull(literal) && !field.nullable then r == Stop(NonnullableField)
              else if !IsNull(literal) && ConvertLiteral(ctx, literal, field.kind).None? then r == Stop(TypeMismatch)
              else if (field.kind.BooleanKind? || field.kind.UuidKind?) && !equality then r == Stop(UnsupportedOperator)
              else r == Done(Compare(op.value, field,
                                     if IsNull(literal) then Null else ConvertLiteral(ctx, literal, field.kind).value),
                             [], limit - 1)
  {
    assert [operator, literal][2..] == [];
  }

  /** What a call of a text function gives, in the order of the checks. */
  lemma CallOutcome(ctx: Context, name: Token, open: Token, field: Token, comma: Token, argument: Token,
                    close: Token, limit: nat)
    requires name.kind.IdentToken? && Lower(name.text) != "not" && open.kind.LeftParen? && limit > 0
    ensures var r := ParseTokens(ctx, [name, open, field, comma, argument, close], limit);
            var word := Lower(name.text);
            if word !in {"contains", "startswith", "endswith"} then r == Fail(UnsupportedFunction)
            else if !field.kind.IdentToken? then r == Fail(UnexpectedToken)
            else match Lookup(ctx.fields, field.text)
                 case None => r == Fail(UnknownField)
                 case Some(f) =>
                   if !f.kind.StringKind? then r == Fail(TypeMismatch)
                   else if !comma.kind.Comma? then r == Fail(UnexpectedToken)
                   else if !IsLiteral(argument) then r == Fail(ExpectedLiteral)
                   else if !argument.kind.StringToken? then r == Fail(TypeMismatch)
                   else if !close.kind.RightParen? then r == Fail(UnexpectedToken)
                   else && r.Ok? && r.value.Function? && NamesFunction(word, r.value.name) && r.value.field == f
                        && r.value.argument == Text(Unquote(Inner(argument.text)))
  {
    var ts, tail := [name, open, field, comma, argument, close], [open, field, comma, argument, close];
    assert ParseNot(ctx, ts, limit) == ParseCall(ctx, name, tail, limit) by {
      assert ts[1..] == tail;
    }
    assert tail[1..] == [field, comma, argument, close] && tail[2..] == [comma, argument, close];
    assert tail[4..] == [close] && tail[5..] == [];
    LeafTokens(ctx, ts, limit);
  }

  /** Tokens that start with a leaf: the chain levels pass its outcome on. */
  lemma LeafTokens(ctx: Context, ts: seq<Token>, limit: nat)
    requires var r := ParseNot(ctx, ts, limit); r.Done? ==> r.rest == []
    ensures ParseTokens(ctx, ts, limit)
            == match ParseNot(ctx, ts, limit) case Stop(c) => Fail(c) case Done(f, _, _) => Ok(f)
  {
    LeafChain(ctx, And, ts, limit);
    LeafChain(ctx, Or, ts, limit);
  }

  lemma LeafChain(ctx: Context, op: LogicOp, ts: seq<Token>, limit: nat)
    requires var r := ParseOperand(ctx, op, ts, limit); r.Done? ==> r.rest == []
    ensures ParseChain(ctx, op, ts, limit) == ParseOperand(ctx, op, ts, limit)
  {
    var r := ParseOperand(ctx, op, ts, limit);
    if r.Done? {
      FirstRead(ctx, op, ts, limit, r);
    }
  }

  /** The operands of a chain, after the first has been read. */
  lemma FirstRead(ctx: Context, op: LogicOp, ts: seq<Token>, n: nat, first: Parsed<Filter>)
    requires ParseOperand(ctx, op, ts, n) == first && first.Done?
    ensures ParseOperands(ctx, op, ts, n) == MoreOperands(ctx, op, [first.value], first.rest, first.budget)
  {
  }

  // ---- every accepted token list is derivable ----

  ghost predicate Explains(ctx: Context, level: Level, d: Derivation, ts: seq<Token>, n: nat, r: Parsed<Filter>) {
    && r.Done? && Derives(ctx, level, d) && ts == Yield(d) + r.rest
    && Tree(ctx, level, d) == r.value && n == r.budget + Nodes(r.value)
  }

  lemma {:induction false} NodesAllAppend(fs: seq<Filter>, gs: seq<Filter>)
    ensures NodesAll(fs + gs) == NodesAll(fs) + NodesAll(gs)
  {
    if fs == [] {
      assert fs + gs == gs;
    } else {
      assert (fs + gs)[1..] == fs[1..] + gs;
      NodesAllAppend(fs[1..], gs);
    }
  }

  lemma {:induction false} SoundChain(ctx: Context, op: LogicOp, ts: seq<Token>, n: nat) returns (d: Derivation)
    requires ParseChain(ctx, op, ts, n).Done?
    ensures Explains(ctx, Chain(op), d, ts, n, ParseChain(ctx, op, ts, n))
    decreases |ts|, if op.Or? then 6 else 3
  {
    var first := ParseOperand(ctx, op, ts, n);
    var one := SoundOperand(ctx, op, ts, n);
    var s := Single(one);
    NodesAllAppend([first.value], []);
    assert NodesAll([first.value]) == Nodes(first.value);
    d := SoundMore(ctx, op, [first.value], first.rest, first.budget, ts, n, s);
  }

  lemma {:induction false} SoundMore(ctx: Context, op: LogicOp, operands: seq<Filter>, ts: seq<Token>, n: nat,
                                     all: seq<Token>, n0: nat, d0: Derivation) returns (d: Derivation)
    requires operands != [] && MoreOperands(ctx, op, operands, ts, n).Done?
    requires Derives(ctx, Chain(op), d0) && all == Yield(d0) + ts
    requires Operands(ctx, op, d0) == operands && n0 == n + NodesAll(operands)
    requires |ts| < |all|
    ensures var r := MoreOperands(ctx, op, operands, ts, n);
            Derives(ctx, Chain(op), d) && all == Yield(d) + r.rest && Operands(ctx, op, d) == r.value
            && n0 == r.budget + NodesAll(r.value)
    decreases |ts|, 0
  {
    if NextIsKeyword(ts, LogicWord(op)) {
      var next := ParseOperand(ctx, op, ts[1..], n);
      var one := SoundOperand(ctx, op, ts[1..], n);
      SoundExtension(ctx, op, operands, ts, n, all, n0, d0, one, next);
      d := SoundMore(ctx, op, operands + [next.value], next.rest, next.budget, all, n0,
                     Concat(d0, ts[0], Single(one)));
    } else {
      d := d0;
    }
  }

  /** One more operand extends the derivation. */
  lemma SoundExtension(ctx: Context, op: LogicOp, operands: seq<Filter>, ts: seq<Token>, n: nat, all: seq<Token>,
                       n0: nat, d0: Derivation, one: Derivation, next: Parsed<Filter>)
    requires Derives(ctx, Chain(op), d0) && all == Yield(d0) + ts && NextIsKeyword(ts, LogicWord(op))
    requires Operands(ctx, op, d0) == operands && n0 == n + NodesAll(operands)
    requires Explains(ctx, Below(op), one, ts[1..], n, next)
    ensures var d := Concat(d0, ts[0], Single(one));
            Derives(ctx, Chain(op), d) && all == Yield(d) + next.rest
            && Operands(ctx, op, d) == operands + [next.value]
    ensures n0 == next.budget + NodesAll(operands + [next.value])
  {
    ConcatDerives(ctx, op, d0, ts[0], Single(one));
    ConcatYield(ctx, op, d0, ts[0], Single(one));
    NodesAllAppend(operands, [next.value]);
    assert NodesAll([next.value]) == Nodes(next.value) + NodesAll([]);
    assert ts == [ts[0]] + ts[1..];
    var k := [ts[0]];
    assert all == Yield(d0) + (k + (Yield(one) + next.rest));
    Associative(k, Yield(one), next.rest);
    Associative(Yield(d0), k + Yield(one), next.rest);
  }

  lemma {:induction false} SoundOperand(ctx: Context, op: LogicOp, ts: seq<Token>, n: nat) returns (d: Derivation)
    requires ParseOperand(ctx, op, ts, n).Done?
    ensures Explains(ctx, Below(op), d, ts, n, ParseOperand(ctx, op, ts, n))
    decreases |ts|, if op.Or? then 4 else 1
  {
    if op.Or? {
      d := SoundChain(ctx, And, ts, n);
    } else {
      d := SoundNot(ctx, ts, n);
    }
  }

  lemma {:induction false} SoundNot(ctx: Context, ts: seq<Token>, n: nat) returns (d: Derivation)
    requires ParseNot(ctx, ts, n).Done?
    ensures Explains(ctx, NotLevel, d, ts, n, ParseNot(ctx, ts, n))
    decreases |ts|, 0
  {
    var r := ParseNot(ctx, ts, n);
    if NextIsKeyword(ts, "not") {
      var inner := SoundNot(ctx, ts[1..], n);
      d := Negation(ts[0], inner);
      assert ts == Yield(d) + r.rest;
    } else if NextIs(ts, LeftParen) {
      var p := ParseChain(ctx, Or, ts[1..], n);
      var inner := SoundChain(ctx, Or, ts[1..], n);
      d := Group(ts[0], inner, p.rest[0]);
      assert ts == Yield(d) + r.rest;
    } else {
      d := SoundLeaf(ctx, ts, n);
    }
  }

  lemma SoundLeaf(ctx: Context, ts: seq<Token>, n: nat) returns (d: Derivation)
    requires ParseNot(ctx, ts, n).Done? && !NextIsKeyword(ts, "not") && !NextIs(ts, LeftParen)
    ensures Explains(ctx, NotLevel, d, ts, n, ParseNot(ctx, ts, n))
  {
    var r := ParseNot(ctx, ts, n);
    if NextIs(ts[1..], LeftParen) {
      d := Call(ts[0], ts[1], ts[2], ts[3], ts[4], ts[5]);
      assert ts == Yield(d) + r.rest;
    } else {
      d := Comparison(ts[0], ts[1], ts[2]);
      assert ts == Yield(d) + r.rest;
    }
  }

  // ---- every derivable token list within the limit is accepted ----

  /** No keyword of this level or a tighter one comes next. */
  predicate Closed(level: Level, ts: seq<Token>) {
    match level
    case Chain(Or) => !NextIsKeyword(ts, "or") && !NextIsKeyword(ts, "and")
    case Chain(And) => !NextIsKeyword(ts, "and")
    case NotLevel => true
  }

  function ParseAt(ctx: Context, level: Level, ts: seq<Token>, n: nat): Parsed<Filter> {
    match level
    case Chain(op) => ParseChain(ctx, op, ts, n)
    case NotLevel => ParseNot(ctx, ts, n)
  }

  lemma {:induction false} CompleteAt(ctx: Context, level: Level, d: Derivation, rest: seq<Token>, n: nat)
    requires Valid(ctx) && Derives(ctx, level, d) && Closed(level, rest)
    requires Nodes(Tree(ctx, level, d)) <= n
    ensures ParseAt(ctx, level, Yield(d) + rest, n)
            == Done(Tree(ctx, level, d), rest, n - Nodes(Tree(ctx, level, d)))
    decreases d, 1
  {
    if level.NotLevel? {
      CompleteNot(ctx, d, rest, n);
    } else {
      var op := level.op;
      var operands := Operands(ctx, op, d);
      assert operands == [operands[0]] + operands[1..];
      FirstOperand(ctx, op, d, rest, n);
      if |operands| == 1 {
        assert NodesAll(operands) == Nodes(operands[0]);
      }
    }
  }

  lemma KeywordCloses(op: LogicOp, keyword: Token, tail: seq<Token>)
    requires IsKeyword(keyword, LogicWord(op))
    ensures NextIsKeyword([keyword] + tail, LogicWord(op)) && ([keyword] + tail)[1..] == tail
    ensures Closed(Below(op), [keyword] + tail)
  {
    assert ([keyword] + tail)[0] == keyword;
  }

  lemma {:induction false} CompleteOperand(ctx: Context, op: LogicOp, d: Derivation, rest: seq<Token>, n: nat)
    requires Valid(ctx) && Derives(ctx, Below(op), d) && Closed(Below(op), rest)
    requires Nodes(Tree(ctx, Below(op), d)) <= n
    ensures ParseOperand(ctx, op, Yield(d) + rest, n)
            == Done(Tree(ctx, Below(op), d), rest, n - Nodes(Tree(ctx, Below(op), d)))
    decreases d, 2
  {
    CompleteAt(ctx, Below(op), d, rest, n);
  }

  /** Read the operands of a chain. */
  lemma {:induction false} FirstOperand(ctx: Context, op: LogicOp, d: Derivation, rest: seq<Token>, n: nat)
    requires Valid(ctx) && Derives(ctx, Chain(op), d) && Closed(Chain(op), rest)
    requires NodesAll(Operands(ctx, op, d)) <= n
    ensures ParseOperands(ctx, op, Yield(d) + rest, n)
            == Done(Operands(ctx, op, d), rest, n - NodesAll(Operands(ctx, op, d)))
    decreases d, 0
  {
    if d.Single? {
      var first := Tree(ctx, Below(op), d.inner);
      assert NodesAll([first]) == Nodes(first);
      CompleteOperand(ctx, op, d.inner, rest, n);
      FirstRead(ctx, op, Yield(d) + rest, n, Done(first, rest, n - Nodes(first)));
    } else {
      var first := Tree(ctx, Below(op), d.first);
      OperandsOfMore(ctx, op, d);
      OperandOfMore(ctx, op, d, rest, n);
      FirstRead(ctx, op, Yield(d) + rest, n,
                Done(first, [d.keyword] + (Yield(d.rest) + rest), n - Nodes(first)));
      NextOperands(ctx, op, [first], d.keyword, d.rest, rest, n - Nodes(first));
    }
  }

  lemma OperandsOfMore(ctx: Context, op: LogicOp, d: Derivation)
    requires Derives(ctx, Chain(op), d) && d.More?
    ensures var first := Tree(ctx, Below(op), d.first);
            Operands(ctx, op, d) == [first] + Operands(ctx, op, d.rest)
            && NodesAll(Operands(ctx, op, d)) == Nodes(first) + NodesAll(Operands(ctx, op, d.rest))
  {
    assert Operands(ctx, op, d)[1..] == Operands(ctx, op, d.rest);
  }

  lemma YieldOfMore(d: Derivation, rest: seq<Token>)
    requires d.More?
    ensures Yield(d) + rest == Yield(d.first) + ([d.keyword] + (Yield(d.rest) + rest))
  {
  }

  /** One turn of the chain loop. */
  lemma OneMore(ctx: Context, op: LogicOp, before: seq<Filter>, ts: seq<Token>, n: nat, next: Parsed<Filter>)
    requires before != [] && NextIsKeyword(ts, LogicWord(op))
    requires ParseOperand(ctx, op, ts[1..], n) == next && next.Done?
    ensures MoreOperands(ctx, op, before, ts, n)
            == MoreOperands(ctx, op, before + [next.value], next.rest, next.budget)
  {
  }

  /** The first operand of a longer chain is read up to the next keyword. */
  lemma {:induction false} OperandOfMore(ctx: Context, op: LogicOp, d: Derivation, rest: seq<Token>, n: nat)
    requires Valid(ctx) && Derives(ctx, Chain(op), d) && d.More?
    requires Nodes(Tree(ctx, Below(op), d.first)) <= n
    ensures ParseOperand(ctx, op, Yield(d) + rest, n)
            == Done(Tree(ctx, Below(op), d.first), [d.keyword] + (Yield(d.rest) + rest),
                    n - Nodes(Tree(ctx, Below(op), d.first)))
    decreases d.first, 3
  {
    YieldOfMore(d, rest);
    KeywordCloses(op, d.keyword, Yield(d.rest) + rest);
    CompleteOperand(ctx, op, d.first, [d.keyword] + (Yield(d.rest) + rest), n);
  }

  lemma {:induction false} NextOperands(ctx: Context, op: LogicOp, before: seq<Filter>, keyword: Token,
                                        d: Derivation, rest: seq<Token>, n: nat)
    requires Valid(ctx) && Derives(ctx, Chain(op), d) && Closed(Chain(op), rest) && before != []
    requires IsKeyword(keyword, LogicWord(op))
    requires NodesAll(Operands(ctx, op, d)) <= n
    ensures MoreOperands(ctx, op, before, [keyword] + (Yield(d) + rest), n)
            == Done(before + Operands(ctx, op, d), rest, n - NodesAll(Operands(ctx, op, d)))
    decreases d, 1
  {
    if d.Single? {
      LastOperand(ctx, op, before, keyword, d, rest, n);
    } else {
      var first := Tree(ctx, Below(op), d.first);
      OperandsOfMore(ctx, op, d);
      OperandOfMore(ctx, op, d, rest, n);
      NextRead(ctx, op, before, keyword, Yield(d) + rest, n,
               Done(first, [d.keyword] + (Yield(d.rest) + rest), n - Nodes(first)));
      NextOperands(ctx, op, before + [first], d.keyword, d.rest, rest, n - Nodes(first));
      Associative(before, [first], Operands(ctx, op, d.rest));
    }
  }

  /** One more operand after its keyword. */
  lemma NextRead(ctx: Context, op: LogicOp, before: seq<Filter>, keyword: Token, tail: seq<Token>, n: nat,
                 next: Parsed<Filter>)
    requires before != [] && IsKeyword(keyword, LogicWord(op)) && ParseOperand(ctx, op, tail, n) == next && next.Done?
    ensures MoreOperands(ctx, op, before, [keyword] + tail, n)
            == MoreOperands(ctx, op, before + [next.value], next.rest, next.budget)
  {
    KeywordCloses(op, keyword, tail);
    OneMore(ctx, op, before, [keyword] + tail, n, next);
  }

  lemma {:induction false} LastOperand(ctx: Context, op: LogicOp, before: seq<Filter>, keyword: Token,
                                       d: Derivation, rest: seq<Token>, n: nat)
    requires Valid(ctx) && Derives(ctx, Chain(op), d) && Closed(Chain(op), rest) && before != [] && d.Single?
    requires IsKeyword(keyword, LogicWord(op))
    requires NodesAll(Operands(ctx, op, d)) <= n
    ensures MoreOperands(ctx, op, before, [keyword] + (Yield(d) + rest), n)
            == Done(before + Operands(ctx, op, d), rest, n - NodesAll(Operands(ctx, op, d)))
    decreases d, 0
  {
    var first := Tree(ctx, Below(op), d.inner);
    assert NodesAll([first]) == Nodes(first);
    CompleteOperand(ctx, op, d.inner, rest, n);
    NextRead(ctx, op, before, keyword, Yield(d) + rest, n, Done(first, rest, n - Nodes(first)));
  }

  lemma {:induction false} CompleteNot(ctx: Context, d: Derivation, rest: seq<Token>, n: nat)
    requires Valid(ctx) && Derives(ctx, NotLevel, d)
    requires Nodes(Tree(ctx, NotLevel, d)) <= n
    ensures ParseNot(ctx, Yield(d) + rest, n)
            == Done(Tree(ctx, NotLevel, d), rest, n - Nodes(Tree(ctx, NotLevel, d)))
    decreases d, 0
  {
    match d
    case Negation(keyword, inner) =>
      CompleteNegation(ctx, keyword, inner, rest, n);
    case Group(open, inner, close) =>
      CompleteGroup(ctx, open, inner, close, rest, n);
    case Comparison(field, operator, literal) =>
      CompleteComparison(ctx, field, operator, literal, rest, n);
    case Call(name, open, field, comma, literal, close) =>
      CompleteCall(ctx, d, rest, n);
  }

  lemma {:induction false} CompleteNegation(ctx: Context, keyword: Token, inner: Derivation, rest: seq<Token>, n: nat)
    requires Valid(ctx) && IsKeyword(keyword, "not") && Derives(ctx, NotLevel, inner)
    requires 1 + Nodes(Tree(ctx, NotLevel, inner)) <= n
    ensures var child := Tree(ctx, NotLevel, inner);
            ParseNot(ctx, [keyword] + Yield(inner) + rest, n) == Done(Not(child), rest, n - 1 - Nodes(child))
    decreases inner, 3
  {
    var ts := [keyword] + Yield(inner) + rest;
    var child := Tree(ctx, NotLevel, inner);
    assert ts[0] == keyword && ts[1..] == Yield(inner) + rest;
    CompleteAt(ctx, NotLevel, inner, rest, n);
    NegationRead(ctx, ts, n, Done(child, rest, n - Nodes(child)));
  }

  lemma NegationRead(ctx: Context, ts: seq<Token>, n: nat, child: Parsed<Filter>)
    requires NextIsKeyword(ts, "not") && ParseNot(ctx, ts[1..], n) == child && child.Done?
    ensures ParseNot(ctx, ts, n) == MakeNode(Not(child.value), child.rest, child.budget)
  {
  }

  lemma {:induction false} CompleteGroup(ctx: Context, open: Token, inner: Derivation, close: Token,
                                         rest: seq<Token>, n: nat)
    requires Valid(ctx) && open.kind.LeftParen? && close.kind.RightParen? && Derives(ctx, Chain(Or), inner)
    requires Nodes(Tree(ctx, Chain(Or), inner)) <= n
    ensures ParseNot(ctx, [open] + (Yield(inner) + [close]) + rest, n)
            == Done(Tree(ctx, Chain(Or), inner), rest, n - Nodes(Tree(ctx, Chain(Or), inner)))
    decreases inner, 3
  {
    var ts := [open] + (Yield(inner) + [close]) + rest;
    var tail := [close] + rest;
    assert ts[0] == open;
    assert ts[1..] == Yield(inner) + tail;
    assert tail[0] == close && tail[1..] == rest;
    CompleteAt(ctx, Chain(Or), inner, tail, n);
  }

  lemma CompleteComparison(ctx: Context, field: Token, operator: Token, literal: Token, rest: seq<Token>, n: nat)
    requires Valid(ctx) && TypedComparison(ctx, field, operator, literal) && n > 0
    ensures ParseNot(ctx, [field, operator, literal] + rest, n)
            == Done(Tree(ctx, NotLevel, Comparison(field, operator, literal)), rest, n - 1)
  {
    var ts := [field, operator, literal] + rest;
    assert ts[0] == field;
    assert ts[1..] == [operator, literal] + rest;
    assert ts[1..][0] == operator && ts[1..][1] == literal;
    assert ts[1..][2..] == rest;
    assert !NextIsKeyword(ts, "not");
  }

  lemma CompleteCall(ctx: Context, d: Derivation, rest: seq<Token>, n: nat)
    requires Valid(ctx) && d.Call? && Derives(ctx, NotLevel, d) && n > 0
    ensures ParseNot(ctx, Yield(d) + rest, n) == Done(Tree(ctx, NotLevel, d), rest, n - 1)
  {
    var ts := Yield(d) + rest;
    var tail := ts[1..];
    assert ts[0] == d.name && ts[1] == d.open && ts[2] == d.field && ts[3] == d.comma
           && ts[4] == d.literal && ts[5] == d.close;
    assert tail[1..][0] == d.field && tail[2..][0] == d.comma && tail[4..][0] == d.close;
    assert tail[5..] == rest;
    assert !NextIsKeyword(ts, "not");
  }

  // ---- tokens that do not belong ----

  /** A filter begins with a field, a function, `not` or a parenthesis. */
  lemma StrangeBeginning(ctx: Context, ts: seq<Token>, limit: nat)
    requires ts == [] || !(ts[0].kind.IdentToken? || ts[0].kind.LeftParen?)
    ensures ParseTokens(ctx, ts, limit) == Fail(UnexpectedToken)
  {
    LeafTokens(ctx, ts, limit);
  }

  /** After a whole filter nothing may follow but `and` and `or`. */
  lemma TrailingTokens(ctx: Context, d: Derivation, rest: seq<Token>, limit: nat)
    requires Valid(ctx) && Derives(ctx, Chain(Or), d) && Nodes(Tree(ctx, Chain(Or), d)) <= limit
    requires rest != [] && !IsKeyword(rest[0], "and") && !IsKeyword(rest[0], "or")
    ensures ParseTokens(ctx, Yield(d) + rest, limit) == Fail(UnexpectedToken)
  {
    CompleteAt(ctx, Chain(Or), d, rest, limit);
  }

  /** An opened parenthesis is closed right after the filter inside. */
  lemma MissingClose(ctx: Context, open: Token, d: Derivation, rest: seq<Token>, limit: nat)
    requires Valid(ctx) && Derives(ctx, Chain(Or), d) && Nodes(Tree(ctx, Chain(Or), d)) <= limit
    requires open.kind.LeftParen?
    requires rest != [] ==> !IsKeyword(rest[0], "and") && !IsKeyword(rest[0], "or") && !rest[0].kind.RightParen?
    ensures ParseTokens(ctx, [open] + (Yield(d) + rest), limit) == Fail(UnexpectedToken)
  {
    var ts := [open] + (Yield(d) + rest);
    assert ts[0] == open && ts[1..] == Yield(d) + rest;
    CompleteAt(ctx, Chain(Or), d, rest, limit);
    LeafTokens(ctx, ts, limit);
  }

  // ---- the two together ----

  ghost predicate Grammatical(ctx: Context, ts: seq<Token>, f: Filter) {
    exists d :: Derives(ctx, Chain(Or), d) && Yield(d) == ts && Tree(ctx, Chain(Or), d) == f
  }

  /** The parser accepts a token list with tree `f` exactly when the grammar derives `f`
      from it and `f` has no more nodes than allowed. */
  lemma ParserIsGrammar(ctx: Context, ts: seq<Token>, f: Filter, limit: nat)
    requires Valid(ctx)
    ensures ParseTokens(ctx, ts, limit) == Ok(f) <==> Grammatical(ctx, ts, f) && Nodes(f) <= limit
  {
    if ParseTokens(ctx, ts, limit) == Ok(f) {
      var d := SoundChain(ctx, Or, ts, limit);
      assert Yield(d) == ts;
    }
    if Grammatical(ctx, ts, f) && Nodes(f) <= limit {
      var d :| Derives(ctx, Chain(Or), d) && Yield(d) == ts && Tree(ctx, Chain(Or), d) == f;
      CompleteAt(ctx, Chain(Or), d, [], limit);
      assert Yield(d) + [] == ts;
    }
  }

  /** No token list has two meanings. */
  lemma GrammarIsUnambiguous(ctx: Context, ts: seq<Token>, f: Filter, g: Filter)
    requires Valid(ctx) && Grammatical(ctx, ts, f) && Grammatical(ctx, ts, g)
    ensures f == g
  {
    ParserIsGrammar(ctx, ts, f, Nodes(f) + Nodes(g));
    ParserIsGrammar(ctx, ts, g, Nodes(f) + Nodes(g));
  }

  /** Whatever is accepted is well typed, so that compiling and rendering it is defined. */
  lemma AcceptedIsWellTyped(ctx: Context, ts: seq<Token>, limit: nat)
    requires Valid(ctx) && ParseTokens(ctx, ts, limit).Ok?
    ensures WellTyped(ctx, ParseTokens(ctx, ts, limit).value)
    ensures Nodes(ParseTokens(ctx, ts, limit).value) <= limit
  {
    var d := SoundChain(ctx, Or, ts, limit);
    TreeIsWellTyped(ctx, Chain(Or), d);
  }
}
