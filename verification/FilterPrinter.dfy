/** The precedence-aware printer and what re-reading its output gives: the tree with
    every `and` inside an `and`, and every `or` inside an `or`, merged into its parent. */
module FilterPrinter {
  import opened Text
  import opened NumberText
  import opened FilterSyntax
  import opened FilterLexer
  import opened FilterGrammar

  // ---- the printer ----

  /** `_render_literal`. */
  function RenderLiteral(value: Value): string {
    match value
    case Null => "null"
    case Text(t) => "'" + (Quote(t) + "'")
    case Integer(n) => Write(IntegerLiteral(n))
    case Number(d) => Write(DecimalLiteral(d))
    case Boolean(b) => if b then "true" else "false"
    case Uuid(t) => "'" + (t + "'")
    case Datetime(t) => "'" + (t + "'")
  }

  function Precedence(op: LogicOp): nat {
    match op case Or => 1 case And => 2
  }

  /** `_render_filter`. */
  function Render(f: Filter, parent: nat): string
    decreases f, 1
  {
    match f
    case Compare(op, field, value) => field.name + (" " + (CompareWord(op) + (" " + RenderLiteral(value))))
    case Function(name, field, argument) =>
      FunctionWord(name) + ("(" + (field.name + ("," + (RenderLiteral(argument) + ")"))))
    case Not(child) =>
      var r := "not" + (" " + Render(child, 3));
      if parent > 3 then "(" + (r + ")") else r
    case Logic(op, children) =>
      var r := RenderJoined(op, children);
      if parent > Precedence(op) then "(" + (r + ")") else r
  }

  function Separator(op: LogicOp): string {
    " " + (LogicWord(op) + " ")
  }

  /** `separator.join(...)` of the rendered operands. */
  function RenderJoined(op: LogicOp, fs: seq<Filter>): string
    decreases fs, 0
  {
    if fs == [] then ""
    else if |fs| == 1 then Render(fs[0], Precedence(op))
    else Render(fs[0], Precedence(op)) + (Separator(op) + RenderJoined(op, fs[1..]))
  }

  // ---- merging nested chains ----

  /** The operands `f` contributes to a chain of `op`. */
  function Spliced(op: LogicOp, f: Filter): seq<Filter> {
    if f.Logic? && f.logic == op then f.children else [f]
  }

  function Flatten(f: Filter): Filter
    decreases f, 1
  {
    match f
    case Compare(_, _, _) => f
    case Function(_, _, _) => f
    case Not(child) => Not(Flatten(child))
    case Logic(op, children) => Logic(op, SpliceAll(op, children))
  }

  function SpliceAll(op: LogicOp, fs: seq<Filter>): seq<Filter>
    decreases fs, 0
  {
    if fs == [] then [] else Spliced(op, Flatten(fs[0])) + SpliceAll(op, fs[1..])
  }

  // ---- the derivation that the rendered text spells ----

  function Word(text: string): Token {
    Token(IdentToken, text)
  }

  function LiteralToken(value: Value): Token {
    match value
    case Null => Word("null")
    case Text(t) => Token(StringToken, "'" + Quote(t) + "'")
    case Integer(n) => Token(NumberToken, Write(IntegerLiteral(n)))
    case Number(d) => Token(NumberToken, Write(DecimalLiteral(d)))
    case Boolean(b) => Word(if b then "true" else "false")
    case Uuid(t) => Token(StringToken, "'" + t + "'")
    case Datetime(t) => Token(StringToken, "'" + t + "'")
  }

  const OPEN := Token(LeftParen, "(")
  const CLOSE := Token(RightParen, ")")
  const COMMA := Token(Comma, ",")

  /** How far a level is from the one where `f` has its own rule. */
  function Rank(level: Level, f: Filter): nat {
    if f.Logic? then
      match level
      case Chain(op) => if op == f.logic then 1 else if op.Or? then 2 else 3
      case NotLevel => if f.logic.Or? then 2 else 3
    else
      match level case Chain(Or) => 3 case Chain(And) => 2 case NotLevel => 1
  }

  ghost function Canon(ctx: Context, level: Level, f: Filter): Derivation
    requires WellTyped(ctx, f)
    decreases f, Rank(level, f) + 1
  {
    match level
    case Chain(op) =>
      if f.Logic? && f.logic == op then CanonChain(ctx, op, f.children)
      else Single(Canon(ctx, Below(op), f))
    case NotLevel =>
      match f
      case Compare(op, field, value) => Comparison(Word(field.name), Word(CompareWord(op)), LiteralToken(value))
      case Function(name, field, argument) =>
        Call(Word(FunctionWord(name)), OPEN, Word(field.name), COMMA, LiteralToken(argument), CLOSE)
      case Not(child) => Negation(Word("not"), Canon(ctx, NotLevel, child))
      case Logic(_, _) => Group(OPEN, Canon(ctx, Chain(Or), f), CLOSE)
  }

  ghost function CanonChain(ctx: Context, op: LogicOp, fs: seq<Filter>): Derivation
    requires fs != [] && AllWellTyped(ctx, fs)
    decreases fs, 0
  {
    var d := Canon(ctx, Chain(op), fs[0]);
    if |fs| == 1 then d else Concat(d, Word(LogicWord(op)), CanonChain(ctx, op, fs[1..]))
  }

  lemma InnerOfQuoted(t: string)
    ensures Inner("'" + t + "'") == t
  {
  }

  lemma ReadWhole(p: NumberLiteral)
    requires WellFormed(p)
    ensures Read(Write(p)) == Some((p, ""))
  {
    ReadWrite(p, "");
  }

  lemma NumbersRoundTrip(ctx: Context, n: int, d: Decimal)
    ensures ConvertLiteral(ctx, LiteralToken(Integer(n)), IntegerKind) == Some(Integer(n))
    ensures ConvertLiteral(ctx, LiteralToken(Number(d)), DecimalKind) == Some(Number(d))
  {
    IntegerRoundTrip(n);
    ReadWhole(IntegerLiteral(n));
    DecimalRoundTrip(d);
    ReadWhole(DecimalLiteral(d));
  }

  lemma TextRoundTrip(ctx: Context, t: string)
    ensures ConvertLiteral(ctx, LiteralToken(Text(t)), StringKind) == Some(Text(t))
  {
    UnquoteQuote(t);
    InnerOfQuoted(Quote(t));
  }

  lemma IdentRoundTrip(ctx: Context, field: Field, b: bool)
    ensures LiteralValue(ctx, LiteralToken(Null), field) == Ok(Null)
    ensures field.kind.BooleanKind? ==> LiteralValue(ctx, LiteralToken(Boolean(b)), field) == Ok(Boolean(b))
  {
    LowerFixed("null");
    LowerFixed("true");
    LowerFixed("false");
    assert "false"[0] == 'f' && "true"[0] == 't' && "null"[0] == 'n';
  }

  /** A rendered literal is read back as the value it was rendered from. */
  lemma LiteralRoundTrip(ctx: Context, field: Field, value: Value)
    requires Valid(ctx) && (value.Null? || HasKind(ctx, value, field.kind))
    ensures LiteralValue(ctx, LiteralToken(value), field) == Ok(value)
  {
    match value
    case Null => IdentRoundTrip(ctx, field, true);
    case Boolean(b) => IdentRoundTrip(ctx, field, b);
    case _ => SolidRoundTrip(ctx, field, value);
  }

  /** A literal that is not a word. */
  lemma SolidRoundTrip(ctx: Context, field: Field, value: Value)
    requires Valid(ctx) && HasKind(ctx, value, field.kind) && !value.Boolean?
    ensures LiteralValue(ctx, LiteralToken(value), field) == Ok(value)
  {
    match value
    case Text(t) => TextRoundTrip(ctx, t);
    case Integer(n) => NumbersRoundTrip(ctx, n, Decimal(false, 0, 0));
    case Number(d) => NumbersRoundTrip(ctx, 0, d);
    case _ => QuotedRoundTrip(ctx, value, field.kind);
    LiteralOfSolid(ctx, LiteralToken(value), field, value);
  }

  lemma LiteralOfSolid(ctx: Context, token: Token, field: Field, value: Value)
    requires token.kind.StringToken? || token.kind.NumberToken?
    requires ConvertLiteral(ctx, token, field.kind) == Some(value)
    ensures LiteralValue(ctx, token, field) == Ok(value)
  {
  }

  lemma QuotedRoundTrip(ctx: Context, value: Value, kind: Kind)
    requires HasKind(ctx, value, kind) && (value.Uuid? || value.Datetime?)
    ensures ConvertLiteral(ctx, LiteralToken(value), kind) == Some(value)
  {
    InnerOfQuoted(if value.Uuid? then value.canonical else value.iso);
  }

  lemma CompareWordRead(op: CompareOp)
    ensures CompareOpOf(Lower(CompareWord(op))) == Some(op)
  {
    var w := CompareWord(op);
    LowerFixed(w);
    assert w[0] in "engl" && w[1] in "qet";
    assert w == [w[0], w[1]];
  }

  lemma FunctionWordRead(name: FunctionName)
    ensures FunctionOf(Lower(FunctionWord(name))) == Some(name)
  {
    var w := FunctionWord(name);
    LowerFixed(w);
    if name.StartsWith? {
      assert |w| == 10;
    } else if name.EndsWith? {
      assert |w| == 8 && w[0] == 'e' && "contains"[0] == 'c';
    }
  }

  lemma LogicWordRead(op: LogicOp)
    ensures Lower(LogicWord(op)) == LogicWord(op) && Lower("not") == "not"
  {
    LowerFixed(LogicWord(op));
    LowerFixed("not");
  }

  /** The rendered text is a derivation of the merged tree. */
  lemma {:induction false} CanonDerives(ctx: Context, level: Level, f: Filter)
    requires Valid(ctx) && WellTyped(ctx, f)
    ensures Derives(ctx, level, Canon(ctx, level, f))
    ensures Tree(ctx, level, Canon(ctx, level, f)) == Flatten(f)
    ensures level.Chain? ==> Operands(ctx, level.op, Canon(ctx, level, f)) == Spliced(level.op, Flatten(f))
    decreases f, Rank(level, f) + 1
  {
    match level
    case Chain(op) =>
      if f.Logic? && f.logic == op {
        CanonChainDerives(ctx, op, f.children);
        SpliceAllLong(ctx, op, f.children);
      } else {
        CanonDerives(ctx, Below(op), f);
      }
    case NotLevel =>
      match f
      case Compare(op, field, value) =>
        LiteralRoundTrip(ctx, field, value);
        CompareWordRead(op);
      case Function(name, field, argument) =>
        LiteralRoundTrip(ctx, field, argument);
        FunctionWordRead(name);
      case Not(child) =>
        LogicWordRead(And);
        CanonDerives(ctx, NotLevel, child);
      case Logic(_, _) =>
        CanonDerives(ctx, Chain(Or), f);
  }

  lemma {:induction false} CanonChainDerives(ctx: Context, op: LogicOp, fs: seq<Filter>)
    requires Valid(ctx) && fs != [] && AllWellTyped(ctx, fs)
    ensures Derives(ctx, Chain(op), CanonChain(ctx, op, fs))
    ensures Operands(ctx, op, CanonChain(ctx, op, fs)) == SpliceAll(op, fs)
    decreases fs, 0
  {
    CanonDerives(ctx, Chain(op), fs[0]);
    if |fs| > 1 {
      CanonChainDerives(ctx, op, fs[1..]);
      LogicWordRead(op);
      ConcatDerives(ctx, op, Canon(ctx, Chain(op), fs[0]), Word(LogicWord(op)), CanonChain(ctx, op, fs[1..]));
    } else {
      assert SpliceAll(op, fs[1..]) == [];
    }
  }

  /** Merging never shortens a chain. */
  lemma {:induction false} SpliceAllLong(ctx: Context, op: LogicOp, fs: seq<Filter>)
    requires AllWellTyped(ctx, fs)
    ensures |SpliceAll(op, fs)| >= |fs|
    decreases fs
  {
    if fs != [] {
      if fs[0].Logic? {
        SpliceAllLong(ctx, fs[0].logic, fs[0].children);
      }
      SpliceAllLong(ctx, op, fs[1..]);
    }
  }

  // ---- the tokeniser on rendered text ----

  /** What may follow a rendered expression. */
  predicate Ends(rest: string) {
    rest != "" ==> rest[0] == ' ' || rest[0] == ')'
  }

  lemma LexLiteral(ctx: Context, value: Value, kind: Kind, rest: string, tokens: seq<Token>)
    requires value.Null? || HasKind(ctx, value, kind)
    requires Ends(rest) && LexesTo(rest, tokens)
    ensures LexesTo(RenderLiteral(value) + rest, [LiteralToken(value)] + tokens)
  {
    match value
    case Null => LexIdent("null", rest, tokens);
    case Text(t) =>
      assert RenderLiteral(value) + rest == "'" + (Quote(t) + ("'" + rest));
      LexString(t, rest, tokens);
    case Integer(n) =>
      IntegerRoundTrip(n);
      WriteAppends(IntegerLiteral(n), rest);
      LexNumber(IntegerLiteral(n), rest, tokens);
    case Number(d) =>
      DecimalRoundTrip(d);
      WriteAppends(DecimalLiteral(d), rest);
      LexNumber(DecimalLiteral(d), rest, tokens);
    case Boolean(b) =>
      LexIdent(if b then "true" else "false", rest, tokens);
    case Uuid(t) => LexPlainString(t, rest, tokens);
    case Datetime(t) => LexPlainString(t, rest, tokens);
  }

  lemma LexPlainString(t: string, rest: string, tokens: seq<Token>)
    requires '\'' !in t && Ends(rest) && LexesTo(rest, tokens)
    ensures LexesTo("'" + (t + "'") + rest, [Token(StringToken, "'" + t + "'")] + tokens)
  {
    QuoteFree(t);
    assert "'" + (t + "'") + rest == "'" + (t + ("'" + rest));
    LexString(t, rest, tokens);
  }

  lemma LexWordSpace(name: string, rest: string, tokens: seq<Token>)
    requires IsIdentifier(name) && LexesTo(rest, tokens)
    ensures LexesTo(name + (" " + rest), [Word(name)] + tokens)
  {
    LexSpace(rest, tokens);
    LexIdent(name, " " + rest, tokens);
  }

  lemma Append5(a: string, b: string, c: string, d: string, e: string, rest: string)
    ensures a + (b + (c + (d + e))) + rest == a + (b + (c + (d + (e + rest))))
  {
    Associative(a, b + (c + (d + e)), rest);
    Associative(b, c + (d + e), rest);
    Associative(c, d + e, rest);
    Associative(d, e, rest);
  }

  lemma LexTwoWords(a: string, b: string, rest: string, tokens: seq<Token>)
    requires IsIdentifier(a) && IsIdentifier(b) && LexesTo(rest, tokens)
    ensures LexesTo(a + (" " + (b + (" " + rest))), [Word(a)] + ([Word(b)] + tokens))
  {
    LexWordSpace(b, rest, tokens);
    LexWordSpace(a, b + (" " + rest), [Word(b)] + tokens);
  }

  lemma LexCompare(ctx: Context, f: Filter, rest: string, tokens: seq<Token>)
    requires Valid(ctx) && WellTyped(ctx, f) && f.Compare? && Ends(rest) && LexesTo(rest, tokens)
    ensures LexesTo(Render(f, 0) + rest, Yield(Canon(ctx, NotLevel, f)) + tokens)
  {
    LexLiteral(ctx, f.value, f.field.kind, rest, tokens);
    LexThree(f.field.name, CompareWord(f.op), RenderLiteral(f.value), LiteralToken(f.value), rest, tokens);
  }

  lemma LexThree(a: string, b: string, c: string, literal: Token, rest: string, tokens: seq<Token>)
    requires IsIdentifier(a) && IsIdentifier(b) && LexesTo(c + rest, [literal] + tokens)
    ensures LexesTo(a + (" " + (b + (" " + c))) + rest, [Word(a), Word(b), literal] + tokens)
  {
    LexTwoWords(a, b, c + rest, [literal] + tokens);
    Append5(a, " ", b, " ", c, rest);
    ThreeTokens(Word(a), Word(b), literal, tokens);
  }

  lemma ThreeTokens(a: Token, b: Token, c: Token, rest: seq<Token>)
    ensures [a, b, c] + rest == [a] + ([b] + ([c] + rest))
  {
  }

  lemma FunctionWordIsIdentifier(name: FunctionName)
    ensures IsIdentifier(FunctionWord(name))
  {
  }

  lemma LexCallHead(name: string, field: string, tail: string, tokens: seq<Token>)
    requires IsIdentifier(name) && IsIdentifier(field) && LexesTo(tail, tokens)
    ensures LexesTo(name + ("(" + (field + ("," + tail))),
                    [Word(name)] + ([OPEN] + ([Word(field)] + ([COMMA] + tokens))))
  {
    LexPunctuation(',', tail, tokens);
    var t3 := [COMMA] + tokens;
    LexIdent(field, "," + tail, t3);
    var t4 := [Word(field)] + t3;
    LexPunctuation('(', field + ("," + tail), t4);
    LexIdent(name, "(" + (field + ("," + tail)), [OPEN] + t4);
  }

  lemma SixTokens(a: Token, b: Token, c: Token, d: Token, e: Token, f: Token, rest: seq<Token>)
    ensures [a, b, c, d, e, f] + rest == [a] + ([b] + ([c] + ([d] + ([e] + ([f] + rest)))))
  {
  }

  lemma LexFunction(ctx: Context, f: Filter, rest: string, tokens: seq<Token>)
    requires Valid(ctx) && WellTyped(ctx, f) && f.Function? && Ends(rest) && LexesTo(rest, tokens)
    ensures LexesTo(Render(f, 0) + rest, Yield(Canon(ctx, NotLevel, f)) + tokens)
  {
    LexPunctuation(')', rest, tokens);
    LexLiteral(ctx, f.argument, StringKind, ")" + rest, [CLOSE] + tokens);
    FunctionWordIsIdentifier(f.name);
    LexSix(FunctionWord(f.name), f.field.name, RenderLiteral(f.argument), LiteralToken(f.argument), rest, tokens);
  }

  lemma LexSix(a: string, b: string, c: string, literal: Token, rest: string, tokens: seq<Token>)
    requires IsIdentifier(a) && IsIdentifier(b) && LexesTo(c + (")" + rest), [literal] + ([CLOSE] + tokens))
    ensures LexesTo(a + ("(" + (b + ("," + (c + ")")))) + rest,
                    [Word(a), OPEN, Word(b), COMMA, literal, CLOSE] + tokens)
  {
    LexCallHead(a, b, c + (")" + rest), [literal] + ([CLOSE] + tokens));
    Append5(a, "(", b, ",", c + ")", rest);
    Associative(c, ")", rest);
    SixTokens(Word(a), OPEN, Word(b), COMMA, literal, CLOSE, tokens);
  }

  /** The level at which the printer renders under a given parent precedence. */
  function LevelOf(parent: nat): Level {
    if parent <= 1 then Chain(Or) else if parent == 2 then Chain(And) else NotLevel
  }

  /** `Single` wrappers do not change the tokens. */
  lemma CanonOfLeaf(ctx: Context, level: Level, f: Filter)
    requires WellTyped(ctx, f)
    ensures !f.Logic? ==> Yield(Canon(ctx, level, f)) == Yield(Canon(ctx, NotLevel, f))
    ensures f.Logic? && (level == Chain(Or) || level == Chain(f.logic)) ==>
              Yield(Canon(ctx, level, f)) == Yield(CanonChain(ctx, f.logic, f.children))
  {
    assert Below(Or) == Chain(And) && Below(And) == NotLevel;
    if !f.Logic? && level == Chain(Or) {
      assert Canon(ctx, level, f) == Single(Single(Canon(ctx, NotLevel, f)));
    }
  }

  lemma CanonOfGroup(ctx: Context, level: Level, f: Filter)
    requires WellTyped(ctx, f) && f.Logic?
    requires level == NotLevel || (level == Chain(And) && f.logic.Or?)
    ensures Yield(Canon(ctx, level, f)) == [OPEN] + (Yield(CanonChain(ctx, f.logic, f.children)) + [CLOSE])
  {
    CanonOfLeaf(ctx, Chain(Or), f);
    assert Below(And) == NotLevel;
  }

  lemma LexGroup(body: string, inner: seq<Token>, rest: string, tokens: seq<Token>)
    requires LexesTo(body + (")" + rest), inner + ([CLOSE] + tokens))
    ensures LexesTo("(" + (body + ")") + rest, [OPEN] + (inner + [CLOSE]) + tokens)
  {
    LexPunctuation('(', body + (")" + rest), inner + ([CLOSE] + tokens));
    Associative("(", body + ")", rest);
    Associative(body, ")", rest);
    Associative([OPEN], inner + [CLOSE], tokens);
    Associative(inner, [CLOSE], tokens);
  }

  /** The rendered text, in front of anything that ends it, tokenises to the derivation's
      tokens. */
  lemma {:induction false} LexRender(ctx: Context, f: Filter, parent: nat, rest: string, tokens: seq<Token>)
    requires Valid(ctx) && WellTyped(ctx, f) && parent <= 3 && Ends(rest) && LexesTo(rest, tokens)
    ensures LexesTo(Render(f, parent) + rest, Yield(Canon(ctx, LevelOf(parent), f)) + tokens)
    decreases f, 1
  {
    CanonOfLeaf(ctx, LevelOf(parent), f);
    match f
    case Compare(_, _, _) => LexCompare(ctx, f, rest, tokens);
    case Function(_, _, _) => LexFunction(ctx, f, rest, tokens);
    case Not(child) => LexNegation(ctx, f, rest, tokens);
    case Logic(op, children) =>
      if parent > Precedence(op) {
        LexPunctuation(')', rest, tokens);
        LexJoined(ctx, op, children, ")" + rest, [CLOSE] + tokens);
        LexGroup(RenderJoined(op, children), Yield(CanonChain(ctx, op, children)), rest, tokens);
        CanonOfGroup(ctx, LevelOf(parent), f);
      } else {
        LexJoined(ctx, op, children, rest, tokens);
      }
  }

  lemma {:induction false} LexNegation(ctx: Context, f: Filter, rest: string, tokens: seq<Token>)
    requires Valid(ctx) && WellTyped(ctx, f) && f.Not? && Ends(rest) && LexesTo(rest, tokens)
    ensures LexesTo(Render(f, 0) + rest, Yield(Canon(ctx, NotLevel, f)) + tokens)
    decreases f, 0
  {
    LexRender(ctx, f.child, 3, rest, tokens);
    var inner := Yield(Canon(ctx, NotLevel, f.child));
    LexWordSpace("not", Render(f.child, 3) + rest, inner + tokens);
    Associative("not", " " + Render(f.child, 3), rest);
    Associative(" ", Render(f.child, 3), rest);
    Associative([Word("not")], inner, tokens);
  }

  lemma LexSeparator(op: LogicOp, others: string, tokens: seq<Token>)
    requires LexesTo(others, tokens)
    ensures LexesTo(Separator(op) + others, [Word(LogicWord(op))] + tokens)
  {
    LexWordSpace(LogicWord(op), others, tokens);
    LexSpace(LogicWord(op) + (" " + others), [Word(LogicWord(op))] + tokens);
    Associative(" ", LogicWord(op) + " ", others);
    Associative(LogicWord(op), " ", others);
  }

  lemma {:induction false} LexJoined(ctx: Context, op: LogicOp, fs: seq<Filter>, rest: string, tokens: seq<Token>)
    requires Valid(ctx) && fs != [] && AllWellTyped(ctx, fs) && Ends(rest) && LexesTo(rest, tokens)
    ensures LexesTo(RenderJoined(op, fs) + rest, Yield(CanonChain(ctx, op, fs)) + tokens)
    decreases fs, 0
  {
    var p := Precedence(op);
    if |fs| == 1 {
      LexRender(ctx, fs[0], p, rest, tokens);
    } else {
      var others := RenderJoined(op, fs[1..]);
      var e := CanonChain(ctx, op, fs[1..]);
      var t := [Word(LogicWord(op))] + (Yield(e) + tokens);
      LexJoined(ctx, op, fs[1..], rest, tokens);
      LexSeparator(op, others + rest, Yield(e) + tokens);
      LexRender(ctx, fs[0], p, Separator(op) + (others + rest), t);
      Associative(Render(fs[0], p), Separator(op) + others, rest);
      Associative(Separator(op), others, rest);
      YieldOfChain(ctx, op, fs, tokens);
    }
  }

  lemma YieldOfChain(ctx: Context, op: LogicOp, fs: seq<Filter>, tokens: seq<Token>)
    requires Valid(ctx) && |fs| > 1 && AllWellTyped(ctx, fs)
    ensures Yield(CanonChain(ctx, op, fs)) + tokens
            == Yield(Canon(ctx, Chain(op), fs[0]))
               + ([Word(LogicWord(op))] + (Yield(CanonChain(ctx, op, fs[1..])) + tokens))
  {
    var d, e, w := Canon(ctx, Chain(op), fs[0]), CanonChain(ctx, op, fs[1..]), Word(LogicWord(op));
    CanonDerives(ctx, Chain(op), fs[0]);
    CanonChainDerives(ctx, op, fs[1..]);
    LogicWordRead(op);
    ConcatYield(ctx, op, d, w, e);
    Associative(Yield(d), [w] + Yield(e), tokens);
    Associative([w], Yield(e), tokens);
  }
}
