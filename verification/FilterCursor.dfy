/** The parser as the registry runs it: a cursor into the token list and a node counter,
    both updated in place. Every method is specified by the function of the same name in
    `FilterParser`, so what is proved there holds of this class. */
module FilterCursor {
  import opened Text
  import opened FilterSyntax
  import opened FilterLexer
  import opened FilterParser
  import opened FilterRoundTrip

  const EOF := Token(Eof, "")

  lemma {:induction false} LexHasNoEof(s: string)
    requires Lex(s).Ok?
    ensures forall t | t in Lex(s).value :: !t.kind.Eof?
    decreases |s|
  {
    if s != "" {
      if IsSpace(s[0]) {
        LexHasNoEof(s[1..]);
      } else {
        LexHasNoEof(NextToken(s).value.1);
      }
    }
  }

  class Parser {
    const ctx: Context
    const tokens: seq<Token>
    var index: nat
    var nodeCount: nat

    ghost predicate Valid()
      reads this
    {
      && tokens != [] && tokens[|tokens| - 1] == EOF
      && (forall i | 0 <= i < |tokens| - 1 :: !tokens[i].kind.Eof?)
      && index < |tokens| && nodeCount <= MAX_FILTER_NODES
    }

    /** The tokens left, without the end marker. */
    ghost function Rest(): seq<Token>
      reads this
      requires Valid()
    {
      tokens[index..|tokens| - 1]
    }

    ghost function Budget(): nat
      reads this
      requires Valid()
    {
      MAX_FILTER_NODES - nodeCount
    }

    /** The outcome, the cursor and the counter are what `p` says. */
    ghost predicate Agrees<T>(r: Outcome<T>, p: Parsed<T>)
      reads this
    {
      match p
      case Stop(c) => r == Fail(c)
      case Done(v, rest, budget) => r == Ok(v) && Valid() && Rest() == rest && Budget() == budget
    }

    constructor (ctx: Context, tokens: seq<Token>)
      requires forall t | t in tokens :: !t.kind.Eof?
      ensures Valid() && this.ctx == ctx && Rest() == tokens && Budget() == MAX_FILTER_NODES
    {
      this.ctx := ctx;
      this.tokens := tokens + [EOF];
      index, nodeCount := 0, 0;
    }

    function Peek(): (t: Token)
      reads this
      requires Valid()
      ensures t == if Rest() == [] then EOF else Rest()[0]
    {
      tokens[index]
    }

    /** `_accept` and `_accept_ident`, after the test: step over the next token. */
    method Advance()
      requires Valid() && Rest() != []
      modifies this`index
      ensures Valid() && Rest() == old(Rest())[1..] && index == old(index) + 1
    {
      index := index + 1;
    }

    method Accept(kind: TokenKind) returns (taken: bool)
      requires Valid() && !kind.Eof?
      modifies this`index
      ensures Valid() && taken == NextIs(old(Rest()), kind)
      ensures if taken then Rest() == old(Rest())[1..] && index > old(index) else index == old(index)
    {
      taken := Peek().kind == kind;
      if taken {
        Advance();
      }
    }

    method AcceptIdent(word: string) returns (taken: bool)
      requires Valid()
      modifies this`index
      ensures Valid() && taken == NextIsKeyword(old(Rest()), word)
      ensures if taken then Rest() == old(Rest())[1..] && index > old(index) else index == old(index)
    {
      taken := Peek().kind.IdentToken? && Lower(Peek().text) == word;
      if taken {
        Advance();
      }
    }

    method Expect(kind: TokenKind) returns (r: Outcome<Token>)
      requires Valid() && !kind.Eof?
      modifies this`index
      ensures Valid()
      ensures if NextIs(old(Rest()), kind)
              then r == Ok(old(Rest())[0]) && Rest() == old(Rest())[1..] && index > old(index)
              else r == Fail(UnexpectedToken) && index == old(index)
    {
      var token := Peek();
      if token.kind != kind {
        return Fail(UnexpectedToken);
      }
      Advance();
      return Ok(token);
    }

    method MakeNode(node: Filter) returns (r: Outcome<Filter>)
      requires Valid()
      modifies this`nodeCount
      ensures Agrees(r, FilterParser.MakeNode(node, old(Rest()), old(Budget())))
    {
      nodeCount := nodeCount + 1;
      if nodeCount > MAX_FILTER_NODES {
        return Fail(FilterTooComplex);
      }
      return Ok(node);
    }

    method Parse() returns (r: Outcome<Filter>)
      requires Valid()
      modifies this
      ensures old(Budget()) == MAX_FILTER_NODES ==> r == ParseTokens(ctx, old(Rest()), MAX_FILTER_NODES)
    {
      var node :- ParseOr();
      if !Peek().kind.Eof? {
        return Fail(UnexpectedToken);
      }
      return Ok(node);
    }

    method ParseOr() returns (r: Outcome<Filter>)
      requires Valid()
      modifies this
      ensures Agrees(r, ParseChain(ctx, Or, old(Rest()), old(Budget())))
      decreases |tokens| - index, 3
    {
      ghost var goal := ParseOperands(ctx, Or, Rest(), Budget());
      assert ParseOperand(ctx, Or, Rest(), Budget()) == ParseChain(ctx, And, Rest(), Budget());
      var first :- ParseAnd();
      var children := [first];
      ChainStep(ctx, Or, children, Rest(), Budget());
      assert goal == MoreOperands(ctx, Or, children, Rest(), Budget());
      var more := AcceptIdent("or");
      while more
        invariant Valid() && children != [] && index > old(index)
        invariant if more then goal == AfterKeyword(ctx, Or, children, Rest(), Budget())
                  else goal == Done(children, Rest(), Budget())
        decreases |tokens| - index, more
      {
        var next :- ParseAnd();
        children := children + [next];
        ChainStep(ctx, Or, children, Rest(), Budget());
        more := AcceptIdent("or");
      }
      if |children| == 1 {
        return Ok(children[0]);
      }
      r := MakeNode(Logic(Or, children));
    }

    method ParseAnd() returns (r: Outcome<Filter>)
      requires Valid()
      modifies this
      ensures Agrees(r, ParseChain(ctx, And, old(Rest()), old(Budget())))
      decreases |tokens| - index, 2
    {
      ghost var goal := ParseOperands(ctx, And, Rest(), Budget());
      assert ParseOperand(ctx, And, Rest(), Budget()) == FilterParser.ParseNot(ctx, Rest(), Budget());
      var first :- ParseNot();
      var children := [first];
      ChainStep(ctx, And, children, Rest(), Budget());
      assert goal == MoreOperands(ctx, And, children, Rest(), Budget());
      var more := AcceptIdent("and");
      while more
        invariant Valid() && children != [] && index > old(index)
        invariant if more then goal == AfterKeyword(ctx, And, children, Rest(), Budget())
                  else goal == Done(children, Rest(), Budget())
        decreases |tokens| - index, more
      {
        NextConjunct(ctx, children, Rest(), Budget());
        var next :- ParseNot();
        children := children + [next];
        ChainStep(ctx, And, children, Rest(), Budget());
        more := AcceptIdent("and");
      }
      if |children| == 1 {
        return Ok(children[0]);
      }
      r := MakeNode(Logic(And, children));
    }

    method ParseNot() returns (r: Outcome<Filter>)
      requires Valid()
      modifies this
      ensures Agrees(r, FilterParser.ParseNot(ctx, old(Rest()), old(Budget())))
      decreases |tokens| - index, 1
    {
      var negated := AcceptIdent("not");
      if negated {
        var child :- ParseNot();
        r := MakeNode(Not(child));
      } else {
        r := ParsePrimary();
      }
    }

    method ParsePrimary() returns (r: Outcome<Filter>)
      requires Valid() && !NextIsKeyword(Rest(), "not")
      modifies this
      ensures Agrees(r, FilterParser.ParseNot(ctx, old(Rest()), old(Budget())))
      decreases |tokens| - index, 0
    {
      var grouped := Accept(LeftParen);
      if grouped {
        var node :- ParseOr();
        var _ :- Expect(RightParen);
        return Ok(node);
      }
      var token :- Expect(IdentToken);
      if Peek().kind.LeftParen? {
        r := ParseFunction(token);
        return;
      }
      var field :- FieldOf(token);
      var operator :- Expect(IdentToken);
      var op := CompareOpOf(Lower(operator.text));
      if op.None? {
        return Fail(UnsupportedOperator);
      }
      var literal :- Literal(field);
      var _ :- CheckComparison(op.value, field, literal);
      r := MakeNode(Compare(op.value, field, literal));
    }

    method ParseFunction(token: Token) returns (r: Outcome<Filter>)
      requires Valid() && NextIs(Rest(), LeftParen)
      modifies this
      ensures Agrees(r, ParseCall(ctx, token, old(Rest()), old(Budget())))
    {
      var name := FunctionOf(Lower(token.text));
      if name.None? {
        return Fail(UnsupportedFunction);
      }
      Advance();  // the caller has seen the parenthesis
      var fieldToken :- Expect(IdentToken);
      var field :- FieldOf(fieldToken);
      if !field.kind.StringKind? {
        return Fail(TypeMismatch);
      }
      var _ :- Expect(Comma);
      var argument :- Literal(field);
      if argument.Null? {
        return Fail(TypeMismatch);
      }
      var _ :- Expect(RightParen);
      r := MakeNode(Function(name.value, field, argument));
    }

    function FieldOf(token: Token): Outcome<Field> {
      match Lookup(ctx.fields, token.text)
      case Some(f) => Ok(f)
      case None => Fail(UnknownField)
    }

    method Literal(field: Field) returns (r: Outcome<Value>)
      requires Valid()
      modifies this`index
      ensures if old(Rest()) == [] then r == Fail(ExpectedLiteral)
              else r == LiteralValue(ctx, old(Rest())[0], field)
      ensures r.Ok? ==> Valid() && Rest() == old(Rest())[1..]
    {
      var token := Peek();
      if !(token.kind.StringToken? || token.kind.NumberToken? || token.kind.IdentToken?) {
        return Fail(ExpectedLiteral);
      }
      Advance();
      return LiteralValue(ctx, token, field);
    }
  }

  /** What is left to do once a keyword has been stepped over. */
  ghost function AfterKeyword(ctx: Context, op: LogicOp, children: seq<Filter>, ts: seq<Token>, n: nat)
    : Parsed<seq<Filter>>
    requires children != []
  {
    match ParseOperand(ctx, op, ts, n)
    case Stop(c) => Stop(c)
    case Done(next, rest, m) => MoreOperands(ctx, op, children + [next], rest, m)
  }

  lemma NextConjunct(ctx: Context, children: seq<Filter>, ts: seq<Token>, n: nat)
    requires children != []
    ensures AfterKeyword(ctx, And, children, ts, n)
            == var p := FilterParser.ParseNot(ctx, ts, n);
               if p.Done? then MoreOperands(ctx, And, children + [p.value], p.rest, p.budget) else Stop(p.code)
  {
  }

  lemma ChainStep(ctx: Context, op: LogicOp, children: seq<Filter>, ts: seq<Token>, n: nat)
    requires children != []
    ensures MoreOperands(ctx, op, children, ts, n)
            == if NextIsKeyword(ts, LogicWord(op)) then AfterKeyword(ctx, op, children, ts[1..], n)
               else Done(children, ts, n)
  {
  }

  /** `_FilterParser(source).parse()`: the running parser computes `ParseFilter`. */
  method Run(ctx: Context, source: string) returns (r: Outcome<Filter>)
    ensures r == ParseFilter(ctx, source)
  {
    var tokens :- Tokenise(source);
    assert tokens[..|tokens| - 1] == Lex(source).value;
    LexHasNoEof(source);
    var parser := new Parser(ctx, tokens[..|tokens| - 1]);
    r := parser.Parse();
  }
}
