/** Fields, values, tokens and the typed syntax tree of the `$filter` language. */
module FilterSyntax {
  import opened Text
  import opened NumberText

  datatype Kind = StringKind | IntegerKind | DecimalKind | BooleanKind | DatetimeKind | UuidKind

  datatype Field = Field(name: string, kind: Kind, ormName: string, nullable: bool)

  /** A converted literal. A UUID and a datetime are represented by the text that
      `str` and `isoformat` give for them. */
  datatype Value =
    | Null
    | Text(text: string)
    | Integer(n: int)
    | Number(d: Decimal)
    | Boolean(b: bool)
    | Uuid(canonical: string)
    | Datetime(iso: string)

  datatype CompareOp = Eq | Ne | Gt | Ge | Lt | Le
  datatype FunctionName = Contains | StartsWith | EndsWith
  datatype LogicOp = And | Or

  datatype Filter =
    | Compare(op: CompareOp, field: Field, value: Value)
    | Function(name: FunctionName, field: Field, argument: Value)
    | Not(child: Filter)
    | Logic(logic: LogicOp, children: seq<Filter>)

  datatype TokenKind = StringToken | NumberToken | IdentToken | LeftParen | RightParen | Comma | Eof
  datatype Token = Token(kind: TokenKind, text: string)

  datatype Code =
    | InvalidCharacter | UnexpectedToken | ExpectedLiteral | UnsupportedOperator
    | UnsupportedFunction | UnknownField | TypeMismatch | NullComparison | NonnullableField
    | FilterTooComplex | FilterTooLong
    | InvalidOrderby | InvalidOrderDirection | DuplicateOrderField | TooManyOrderFields
    | InvalidInteger | PageSizeTooLarge | InvalidCount

  datatype Outcome<+T> = Ok(value: T) | Fail(code: Code) {
    predicate IsFailure() { Fail? }
    function PropagateFailure<U>(): Outcome<U>
      requires Fail?
    {
      Fail(code)
    }
    function Extract(): T
      requires Ok?
    {
      value
    }
  }

  /** What the parser is given from outside: the field catalogue, and the library's
      parsers of UUID and datetime text, each giving the canonical text of its value. */
  datatype Context = Context(fields: seq<Field>,
                             parseUuid: string -> Option<string>,
                             parseDatetime: string -> Option<string>)

  /** `FIELD_BY_NAME.get(name)`. */
  function Lookup(fields: seq<Field>, name: string): (r: Option<Field>)
    ensures r.Some? ==> r.value in fields && r.value.name == name
  {
    if fields == [] then None
    else if fields[0].name == name then Some(fields[0])
    else Lookup(fields[1..], name)
  }

  predicate IsIdentStart(c: char) {
    'a' <= c <= 'z' || 'A' <= c <= 'Z' || c == '_'
  }

  predicate IsIdentPart(c: char) {
    IsIdentStart(c) || IsDigit(c)
  }

  predicate IsIdentifier(s: string) {
    s != "" && IsIdentStart(s[0]) && forall c | c in s :: IsIdentPart(c)
  }

  predicate Unreserved(name: string) {
    var l := Lower(name);
    l != "not" && l != "and" && l != "or"
  }

  /** Text that survives quoting and, read again, stands for the same value. */
  ghost predicate RoundTrips(parse: string -> Option<string>) {
    forall raw, t :: parse(raw) == Some(t) ==> parse(t) == Some(t) && '\'' !in t
  }

  ghost predicate Valid(ctx: Context) {
    && (forall f | f in ctx.fields :: IsIdentifier(f.name) && Unreserved(f.name))
    && RoundTrips(ctx.parseUuid) && RoundTrips(ctx.parseDatetime)
  }

  function CompareWord(op: CompareOp): string {
    match op
    case Eq => "eq" case Ne => "ne" case Gt => "gt" case Ge => "ge" case Lt => "lt" case Le => "le"
  }

  function CompareOpOf(word: string): Option<CompareOp> {
    if word == "eq" then Some(Eq) else if word == "ne" then Some(Ne)
    else if word == "gt" then Some(Gt) else if word == "ge" then Some(Ge)
    else if word == "lt" then Some(Lt) else if word == "le" then Some(Le) else None
  }

  function FunctionWord(f: FunctionName): string {
    match f
    case Contains => "contains" case StartsWith => "startswith" case EndsWith => "endswith"
  }

  function FunctionOf(word: string): Option<FunctionName> {
    if word == "contains" then Some(Contains)
    else if word == "startswith" then Some(StartsWith)
    else if word == "endswith" then Some(EndsWith) else None
  }

  function LogicWord(op: LogicOp): string {
    match op case And => "and" case Or => "or"
  }

  /** `text.replace("''", "'")`. */
  function Unquote(s: string): string {
    if s == "" then ""
    else if |s| > 1 && s[0] == '\'' && s[1] == '\'' then "'" + Unquote(s[2..])
    else [s[0]] + Unquote(s[1..])
  }

  /** `text[1:-1]`. */
  function Inner(s: string): string {
    if |s| < 2 then "" else s[1..|s| - 1]
  }

  /** `_convert_literal`; `None` stands for its `ValueError` and `InvalidOperation`. */
  function ConvertLiteral(ctx: Context, token: Token, kind: Kind): Option<Value> {
    match kind
    case StringKind => if token.kind.StringToken? then Some(Text(Unquote(Inner(token.text)))) else None
    case IntegerKind =>
      if !token.kind.NumberToken? then None
      else (match Read(token.text)
            case Some((p, _)) =>
              ReadSound(token.text);
              if p.point || p.power.Power? then None else Some(Integer(IntegerOf(p)))
            case None => None)
    case DecimalKind =>
      if !token.kind.NumberToken? then None
      else (match Read(token.text)
            case Some((p, _)) => ReadSound(token.text); Some(Number(DecimalOf(p)))
            case None => None)
    case BooleanKind =>
      if !token.kind.IdentToken? then None
      else if Lower(token.text) == "true" then Some(Boolean(true))
      else if Lower(token.text) == "false" then Some(Boolean(false)) else None
    case UuidKind =>
      (match ctx.parseUuid(if token.kind.StringToken? then Inner(token.text) else token.text)
       case Some(t) => Some(Uuid(t))
       case None => None)
    case DatetimeKind =>
      if !token.kind.StringToken? then None
      else (match ctx.parseDatetime(Inner(token.text))
            case Some(t) => Some(Datetime(t))
            case None => None)
  }

  /** `_literal`, once the token is known. */
  function LiteralValue(ctx: Context, token: Token, field: Field): Outcome<Value> {
    if !(token.kind.StringToken? || token.kind.NumberToken? || token.kind.IdentToken?) then
      Fail(ExpectedLiteral)
    else if token.kind.IdentToken? && Lower(token.text) == "null" then Ok(Null)
    else match ConvertLiteral(ctx, token, field.kind)
         case Some(v) => Ok(v)
         case None => Fail(TypeMismatch)
  }

  /** `_validate_comparison`. */
  function CheckComparison(op: CompareOp, field: Field, value: Value): Outcome<()> {
    if value.Null? && !(op.Eq? || op.Ne?) then Fail(NullComparison)
    else if value.Null? && !field.nullable then Fail(NonnullableField)
    else if (field.kind.BooleanKind? || field.kind.UuidKind?) && !(op.Eq? || op.Ne?) then
      Fail(UnsupportedOperator)
    else Ok(())
  }

  function Nodes(f: Filter): (n: nat)
    ensures n > 0
    decreases f, 1
  {
    match f
    case Compare(_, _, _) => 1
    case Function(_, _, _) => 1
    case Not(c) => 1 + Nodes(c)
    case Logic(_, cs) => 1 + NodesAll(cs)
  }

  function NodesAll(fs: seq<Filter>): nat
    decreases fs, 0
  {
    if fs == [] then 0 else Nodes(fs[0]) + NodesAll(fs[1..])
  }

  /** `value` is a value of the Python type that `kind` calls for. */
  ghost predicate HasKind(ctx: Context, value: Value, kind: Kind) {
    match value
    case Null => false
    case Text(_) => kind.StringKind?
    case Integer(_) => kind.IntegerKind?
    case Number(_) => kind.DecimalKind?
    case Boolean(_) => kind.BooleanKind?
    case Uuid(t) => kind.UuidKind? && ctx.parseUuid(t) == Some(t) && '\'' !in t
    case Datetime(t) => kind.DatetimeKind? && ctx.parseDatetime(t) == Some(t) && '\'' !in t
  }

  ghost predicate Known(ctx: Context, field: Field) {
    Lookup(ctx.fields, field.name) == Some(field)
  }

  /** Null is compared only with `eq` and `ne` and only where the field can be null; booleans
      and UUIDs are compared only with `eq` and `ne`. */
  predicate Comparable(op: CompareOp, field: Field, value: Value) {
    && (value.Null? ==> (op.Eq? || op.Ne?) && field.nullable)
    && (field.kind.BooleanKind? || field.kind.UuidKind? ==> op.Eq? || op.Ne?)
  }

  /** The trees that are built of catalogue fields and well-typed leaves, with at least
      two operands under every `and` and `or`. */
  ghost predicate WellTyped(ctx: Context, f: Filter)
    decreases f, 1
  {
    match f
    case Compare(op, field, value) =>
      Known(ctx, field) && (value.Null? || HasKind(ctx, value, field.kind))
      && Comparable(op, field, value)
    case Function(_, field, argument) =>
      Known(ctx, field) && field.kind.StringKind? && argument.Text?
    case Not(c) => WellTyped(ctx, c)
    case Logic(_, cs) => |cs| >= 2 && AllWellTyped(ctx, cs)
  }

  ghost predicate AllWellTyped(ctx: Context, fs: seq<Filter>)
    decreases fs, 0
  {
    fs != [] ==> WellTyped(ctx, fs[0]) && AllWellTyped(ctx, fs[1..])
  }

  /** What a number token converts to: a decimal in any notation, an integer only without a
      point and an exponent. */
  lemma NumberConversion(ctx: Context, p: NumberLiteral)
    requires WellFormed(p)
    ensures var token := Token(NumberToken, Write(p));
            var n: int := NumeralValue(p.whole);
            && ConvertLiteral(ctx, token, DecimalKind) == Some(Number(DecimalOf(p)))
            && ConvertLiteral(ctx, token, IntegerKind)
               == if forall c | c in Write(p) :: c != '.' && c != 'e' && c != 'E'
                  then Some(Integer(if p.negative then -n else n)) else None
  {
    ReadWrite(p, "");
    assert WriteOnto(p, "") == Write(p);
    LiteralCharacters(p);
  }

  /** Which tokens the other kinds take. */
  lemma WordConversion(ctx: Context, token: Token, b: bool)
    ensures ConvertLiteral(ctx, token, BooleanKind) == Some(Boolean(b))
            <==> token.kind.IdentToken? && Lower(token.text) == if b then "true" else "false"
    ensures ConvertLiteral(ctx, token, StringKind).Some? <==> token.kind.StringToken?
    ensures ConvertLiteral(ctx, token, DatetimeKind).Some?
            <==> token.kind.StringToken? && ctx.parseDatetime(Inner(token.text)).Some?
    ensures !token.kind.NumberToken? ==>
              ConvertLiteral(ctx, token, IntegerKind) == None && ConvertLiteral(ctx, token, DecimalKind) == None
  {
    assert |"true"| == 4 && |"false"| == 5;
  }

  lemma ConvertedHasKind(ctx: Context, token: Token, kind: Kind)
    requires Valid(ctx) && ConvertLiteral(ctx, token, kind).Some?
    ensures HasKind(ctx, ConvertLiteral(ctx, token, kind).value, kind)
  {
  }
}
