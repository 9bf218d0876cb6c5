/** Reading a rendered filter back: exactly which tree comes out, and when. */
module FilterRoundTrip {
  import opened Text
  import opened FilterSyntax
  import opened FilterLexer
  import opened FilterGrammar
  import opened FilterParser
  import opened FilterPrinter

  /** `_FilterParser(source).parse()`. */
  function ParseFilter(ctx: Context, source: string): Outcome<Filter> {
    var tokens :- Lex(source);
    ParseTokens(ctx, tokens, MAX_FILTER_NODES)
  }

  /** Whatever text is accepted has a well-typed tree of at most 100 nodes. */
  lemma ParsedIsWellTyped(ctx: Context, source: string)
    requires Valid(ctx) && ParseFilter(ctx, source).Ok?
    ensures WellTyped(ctx, ParseFilter(ctx, source).value)
    ensures Nodes(ParseFilter(ctx, source).value) <= 100
  {
    AcceptedIsWellTyped(ctx, Lex(source).value, MAX_FILTER_NODES);
  }

  /** For every well-typed tree, its rendering tokenises and derives the merged tree. */
  lemma RenderedIsGrammatical(ctx: Context, f: Filter)
    requires Valid(ctx) && WellTyped(ctx, f)
    ensures Lex(Render(f, 0)).Ok? && Grammatical(ctx, Lex(Render(f, 0)).value, Flatten(f))
  {
    LexRender(ctx, f, 0, "", []);
    assert Render(f, 0) + "" == Render(f, 0);
    var d := Canon(ctx, Chain(Or), f);
    assert Yield(d) + [] == Yield(d);
    CanonDerives(ctx, Chain(Or), f);
  }

  /** Print, then parse: the result is the merged tree, precisely when that tree is within
      the node limit. */
  lemma PrintParse(ctx: Context, f: Filter)
    requires Valid(ctx) && WellTyped(ctx, f)
    ensures ParseFilter(ctx, Render(f, 0)) == Ok(Flatten(f)) <==> Nodes(Flatten(f)) <= 100
  {
    RenderedIsGrammatical(ctx, f);
    ParserIsGrammar(ctx, Lex(Render(f, 0)).value, Flatten(f), MAX_FILTER_NODES);
  }

  /** An accepted filter never becomes too complex by being rendered. */
  lemma ReparseAccepted(ctx: Context, source: string)
    requires Valid(ctx) && ParseFilter(ctx, source).Ok?
    ensures var f := ParseFilter(ctx, source).value;
            ParseFilter(ctx, Render(f, 0)) == Ok(Flatten(f))
  {
    var f := ParseFilter(ctx, source).value;
    ParsedIsWellTyped(ctx, source);
    FlattenNodes(f);
    PrintParse(ctx, f);
  }

  lemma {:induction false} FlattenNodes(f: Filter)
    ensures Nodes(Flatten(f)) <= Nodes(f)
    decreases f, 1
  {
    match f
    case Not(child) => FlattenNodes(child);
    case Logic(op, children) => SpliceNodes(op, children);
    case _ =>
  }

  lemma {:induction false} SpliceNodes(op: LogicOp, fs: seq<Filter>)
    ensures NodesAll(SpliceAll(op, fs)) <= NodesAll(fs)
    decreases fs, 0
  {
    if fs != [] {
      FlattenNodes(fs[0]);
      SpliceNodes(op, fs[1..]);
      var s := Spliced(op, Flatten(fs[0]));
      NodesAllAppend(s, SpliceAll(op, fs[1..]));
      assert s == [Flatten(fs[0])] ==> NodesAll(s) == Nodes(Flatten(fs[0])) + NodesAll([]);
    }
  }

  lemma {:induction false} AllWellTypedAppend(ctx: Context, fs: seq<Filter>, gs: seq<Filter>)
    ensures AllWellTyped(ctx, fs + gs) <==> AllWellTyped(ctx, fs) && AllWellTyped(ctx, gs)
  {
    if fs == [] {
      assert fs + gs == gs;
    } else {
      assert (fs + gs)[1..] == fs[1..] + gs;
      AllWellTypedAppend(ctx, fs[1..], gs);
    }
  }

  lemma {:induction false} FlattenWellTyped(ctx: Context, f: Filter)
    requires WellTyped(ctx, f)
    ensures WellTyped(ctx, Flatten(f))
    decreases f, 1
  {
    match f
    case Not(child) => FlattenWellTyped(ctx, child);
    case Logic(op, children) =>
      SpliceWellTyped(ctx, op, children);
      SpliceAllLong(ctx, op, children);
    case _ =>
  }

  lemma {:induction false} SpliceWellTyped(ctx: Context, op: LogicOp, fs: seq<Filter>)
    requires AllWellTyped(ctx, fs)
    ensures AllWellTyped(ctx, SpliceAll(op, fs))
    decreases fs, 0
  {
    if fs != [] {
      FlattenWellTyped(ctx, fs[0]);
      SpliceWellTyped(ctx, op, fs[1..]);
      AllWellTypedAppend(ctx, Spliced(op, Flatten(fs[0])), SpliceAll(op, fs[1..]));
    }
  }

  // ---- merged trees ----

  /** No chain is directly under a chain of the same operator. */
  predicate Flat(f: Filter)
    decreases f, 1
  {
    match f
    case Not(child) => Flat(child)
    case Logic(op, children) => FlatUnder(op, children)
    case _ => true
  }

  predicate FlatUnder(op: LogicOp, fs: seq<Filter>)
    decreases fs, 0
  {
    fs == [] || (Flat(fs[0]) && !(fs[0].Logic? && fs[0].logic == op) && FlatUnder(op, fs[1..]))
  }

  lemma {:induction false} FlatUnderAppend(op: LogicOp, fs: seq<Filter>, gs: seq<Filter>)
    requires FlatUnder(op, fs) && FlatUnder(op, gs)
    ensures FlatUnder(op, fs + gs)
  {
    if fs == [] {
      assert fs + gs == gs;
    } else {
      assert (fs + gs)[1..] == fs[1..] + gs;
      FlatUnderAppend(op, fs[1..], gs);
    }
  }

  /** Merging leaves nothing to merge. */
  lemma {:induction false} FlattenIsFlat(f: Filter)
    ensures Flat(Flatten(f))
    decreases f, 1
  {
    match f
    case Not(child) => FlattenIsFlat(child);
    case Logic(op, children) => SpliceIsFlat(op, children);
    case _ =>
  }

  lemma {:induction false} SpliceIsFlat(op: LogicOp, fs: seq<Filter>)
    ensures FlatUnder(op, SpliceAll(op, fs))
    decreases fs, 0
  {
    if fs != [] {
      FlattenIsFlat(fs[0]);
      SpliceIsFlat(op, fs[1..]);
      var g := Flatten(fs[0]);
      assert FlatUnder(op, []);
      assert [g][1..] == [];
      FlatUnderAppend(op, Spliced(op, g), SpliceAll(op, fs[1..]));
    }
  }

  /** Merging is the identity exactly on the trees that have nothing to merge. */
  lemma {:induction false} FlattenFixesFlat(f: Filter)
    ensures Flat(f) <==> Flatten(f) == f
    decreases f, 1
  {
    FlattenIsFlat(f);
    match f
    case Not(child) => FlattenFixesFlat(child);
    case Logic(op, children) =>
      if Flat(f) {
        SpliceFixesFlat(op, children);
      }
    case _ =>
  }

  lemma {:induction false} SpliceFixesFlat(op: LogicOp, fs: seq<Filter>)
    requires FlatUnder(op, fs)
    ensures SpliceAll(op, fs) == fs
    decreases fs, 0
  {
    if fs != [] {
      FlattenFixesFlat(fs[0]);
      SpliceFixesFlat(op, fs[1..]);
    }
  }

  /** Print, then parse, gives an accepted filter back exactly when it has nothing to
      merge. */
  lemma PrintParseIdentity(ctx: Context, source: string)
    requires Valid(ctx) && ParseFilter(ctx, source).Ok?
    ensures var f := ParseFilter(ctx, source).value;
            ParseFilter(ctx, Render(f, 0)) == Ok(f) <==> Flat(f)
  {
    ReparseAccepted(ctx, source);
    FlattenFixesFlat(ParseFilter(ctx, source).value);
  }

  // ---- accepted filters that have something to merge ----

  /** The text of `f` in parentheses, `or`, the text of `c`. */
  function GroupedOr(f: Filter, c: Filter): string {
    "(" + (Render(f, 0) + ")") + (Separator(Or) + Render(c, 0))
  }

  ghost function GroupedDerivation(ctx: Context, f: Filter, c: Filter): Derivation
    requires WellTyped(ctx, f) && WellTyped(ctx, c)
  {
    More(Single(Group(OPEN, Canon(ctx, Chain(Or), f), CLOSE)), Word("or"), Canon(ctx, Chain(Or), c))
  }

  lemma LexGroupedOr(ctx: Context, f: Filter, c: Filter)
    requires Valid(ctx) && WellTyped(ctx, f) && WellTyped(ctx, c)
    ensures LexesTo(GroupedOr(f, c), Yield(GroupedDerivation(ctx, f, c)))
  {
    var inner, others := Yield(Canon(ctx, Chain(Or), f)), Yield(Canon(ctx, Chain(Or), c));
    var rest, tokens := Separator(Or) + Render(c, 0), [Word("or")] + others;
    LexRender(ctx, c, 0, "", []);
    assert Render(c, 0) + "" == Render(c, 0) && others + [] == others;
    LexSeparator(Or, Render(c, 0), others);
    LexPunctuation(')', rest, tokens);
    LexRender(ctx, f, 0, ")" + rest, [CLOSE] + tokens);
    LexGroup(Render(f, 0), inner, rest, tokens);
    GroupedYield(ctx, f, c);
  }

  lemma GroupedYield(ctx: Context, f: Filter, c: Filter)
    requires WellTyped(ctx, f) && WellTyped(ctx, c)
    ensures Yield(GroupedDerivation(ctx, f, c))
            == [OPEN] + (Yield(Canon(ctx, Chain(Or), f)) + [CLOSE]) + ([Word("or")] + Yield(Canon(ctx, Chain(Or), c)))
  {
    var d := GroupedDerivation(ctx, f, c);
    assert Yield(d.first.inner) == [OPEN] + (Yield(Canon(ctx, Chain(Or), f)) + [CLOSE]);
    assert Yield(d.first) == Yield(d.first.inner);
  }

  lemma GroupedOrDerives(ctx: Context, f: Filter, c: Filter)
    requires Valid(ctx) && WellTyped(ctx, f) && WellTyped(ctx, c) && !(Flatten(c).Logic? && Flatten(c).logic.Or?)
    ensures Grammatical(ctx, Yield(GroupedDerivation(ctx, f, c)), Logic(Or, [Flatten(f), Flatten(c)]))
  {
    var d := GroupedDerivation(ctx, f, c);
    CanonDerives(ctx, Chain(Or), f);
    CanonDerives(ctx, Chain(Or), c);
    LogicWordRead(Or);
    assert Below(Or) == Chain(And) && Below(And) == NotLevel;
    assert Derives(ctx, NotLevel, d.first.inner) && Tree(ctx, NotLevel, d.first.inner) == Flatten(f);
    assert Derives(ctx, Chain(And), d.first) && Tree(ctx, Chain(And), d.first) == Flatten(f);
    assert Derives(ctx, Chain(Or), d);
    assert Operands(ctx, Or, d) == [Flatten(f), Flatten(c)];
  }

  /** A parenthesised chain keeps its place under an `or`, even when it is an `or` itself:
      then the accepted tree is not the one that its canonical text gives. */
  lemma NestedOrAccepted(ctx: Context, f: Filter, c: Filter)
    requires Valid(ctx) && WellTyped(ctx, f) && WellTyped(ctx, c)
    requires f.Logic? && f.logic.Or? && c.Compare? && Nodes(f) + Nodes(c) < MAX_FILTER_NODES
    ensures var tree := Logic(Or, [Flatten(f), c]);
            && ParseFilter(ctx, GroupedOr(f, c)) == Ok(tree) && !Flat(tree)
            && ParseFilter(ctx, Render(tree, 0)).Ok? && ParseFilter(ctx, Render(tree, 0)) != Ok(tree)
  {
    var tree := Logic(Or, [Flatten(f), c]);
    LexGroupedOr(ctx, f, c);
    GroupedOrDerives(ctx, f, c);
    FlattenNodes(f);
    assert NodesAll([Flatten(f), c]) == Nodes(Flatten(f)) + NodesAll([c]) && NodesAll([c]) == Nodes(c) + NodesAll([]);
    ParserIsGrammar(ctx, Lex(GroupedOr(f, c)).value, tree, MAX_FILTER_NODES);
    assert [Flatten(f), c][0] == Flatten(f);
    ReparseAccepted(ctx, GroupedOr(f, c));
    PrintParseIdentity(ctx, GroupedOr(f, c));
  }

  function EqualTo(field: Field, text: string): Filter {
    Compare(Eq, field, Text(text))
  }

  /** `<name> eq '<letter>'`. */
  function EqualText(name: string, letter: char): string {
    name + (" eq " + ("'" + [letter] + "'"))
  }

  /** Such a filter for every string field: `(name eq 'a' or name eq 'b') or name eq 'c'`. */
  lemma NestedOrExample(ctx: Context, field: Field)
    requires Valid(ctx) && Known(ctx, field) && field.kind.StringKind?
    ensures var a, b := EqualText(field.name, 'a'), EqualText(field.name, 'b');
            var source := "(" + (a + (" or " + b) + ")") + (" or " + EqualText(field.name, 'c'));
            var tree := Logic(Or, [Logic(Or, [EqualTo(field, "a"), EqualTo(field, "b")]), EqualTo(field, "c")]);
            ParseFilter(ctx, source) == Ok(tree) && ParseFilter(ctx, Render(tree, 0)) != Ok(tree)
  {
    OrOfTwo(ctx, field);
    NestedOrAccepted(ctx, Logic(Or, [EqualTo(field, "a"), EqualTo(field, "b")]), EqualTo(field, "c"));
    ExampleText(field);
  }

  lemma OneOperand(ctx: Context, f: Filter)
    requires f.Compare?
    ensures AllWellTyped(ctx, [f]) <==> WellTyped(ctx, f)
    ensures NodesAll([f]) == 1 && FlatUnder(Or, [f])
  {
    assert [f][1..] == [];
    assert AllWellTyped(ctx, []) && NodesAll([]) == 0 && FlatUnder(Or, []);
  }

  lemma OrOfTwo(ctx: Context, field: Field)
    requires Known(ctx, field) && field.kind.StringKind?
    ensures var f := Logic(Or, [EqualTo(field, "a"), EqualTo(field, "b")]);
            WellTyped(ctx, f) && WellTyped(ctx, EqualTo(field, "c")) && Nodes(f) == 3 && Flatten(f) == f
  {
    var a, b := EqualTo(field, "a"), EqualTo(field, "b");
    OneOperand(ctx, a);
    OneOperand(ctx, b);
    AllWellTypedAppend(ctx, [a], [b]);
    NodesAllAppend([a], [b]);
    FlatUnderAppend(Or, [a], [b]);
    assert [a] + [b] == [a, b];
    FlattenFixesFlat(Logic(Or, [a, b]));
  }

  lemma ExampleText(field: Field)
    ensures var a, b := EqualText(field.name, 'a'), EqualText(field.name, 'b');
            GroupedOr(Logic(Or, [EqualTo(field, "a"), EqualTo(field, "b")]), EqualTo(field, "c"))
            == "(" + (a + (" or " + b) + ")") + (" or " + EqualText(field.name, 'c'))
  {
    var a, b := EqualTo(field, "a"), EqualTo(field, "b");
    RenderEqual(field, 'a', 1);
    RenderEqual(field, 'b', 1);
    RenderEqual(field, 'c', 0);
    assert Separator(Or) == " or ";
    assert [a, b][1..] == [b];
    assert RenderJoined(Or, [a, b]) == Render(a, 1) + (Separator(Or) + Render(b, 1));
  }

  lemma RenderEqual(field: Field, letter: char, parent: nat)
    requires letter != '\''
    ensures Render(EqualTo(field, [letter]), parent) == EqualText(field.name, letter)
  {
    QuoteFree([letter]);
    assert CompareWord(Eq) == "eq";
    assert " " + ("eq" + (" " + RenderLiteral(Text([letter])))) == " eq " + ("'" + [letter] + "'");
  }

  // ---- the canonical text is stable ----

  lemma {:induction false} RenderJoinedAppend(op: LogicOp, fs: seq<Filter>, gs: seq<Filter>)
    requires fs != [] && gs != []
    ensures RenderJoined(op, fs + gs) == RenderJoined(op, fs) + (Separator(op) + RenderJoined(op, gs))
  {
    if |fs| == 1 {
      assert (fs + gs)[1..] == gs;
    } else {
      assert (fs + gs)[1..] == fs[1..] + gs;
      RenderJoinedAppend(op, fs[1..], gs);
      var tail := Separator(op) + RenderJoined(op, gs);
      var first := Render(fs[0], Precedence(op));
      Associative(first, Separator(op) + RenderJoined(op, fs[1..]), tail);
      Associative(Separator(op), RenderJoined(op, fs[1..]), tail);
    }
  }

  /** The merged tree renders to the very same text, so canonical text is a fixed point. */
  lemma {:induction false} RenderFlatten(ctx: Context, f: Filter, parent: nat)
    requires WellTyped(ctx, f)
    ensures Render(Flatten(f), parent) == Render(f, parent)
    decreases f, 1
  {
    match f
    case Not(child) => RenderFlatten(ctx, child, 3);
    case Logic(op, children) => RenderSplice(ctx, op, children);
    case _ =>
  }

  lemma {:induction false} RenderSplice(ctx: Context, op: LogicOp, fs: seq<Filter>)
    requires AllWellTyped(ctx, fs)
    ensures RenderJoined(op, SpliceAll(op, fs)) == RenderJoined(op, fs)
    decreases fs, 0
  {
    if fs != [] {
      var g := Flatten(fs[0]);
      var s := Spliced(op, g);
      var p := Precedence(op);
      RenderFlatten(ctx, fs[0], p);
      assert RenderJoined(op, s) == Render(fs[0], p);
      SpliceAllLong(ctx, op, fs);
      RenderSplice(ctx, op, fs[1..]);
      if |fs| == 1 {
        assert s + [] == s;
      } else {
        SpliceAllLong(ctx, op, fs[1..]);
        SplicedNonEmpty(ctx, op, fs[0]);
        RenderJoinedAppend(op, s, SpliceAll(op, fs[1..]));
      }
    }
  }

  lemma SplicedNonEmpty(ctx: Context, op: LogicOp, f: Filter)
    requires WellTyped(ctx, f)
    ensures Spliced(op, Flatten(f)) != []
  {
    FlattenWellTyped(ctx, f);
  }
}
