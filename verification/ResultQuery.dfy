/** The whole public query: six options, their parsers, and the canonical options that
    say the same thing. */
module ResultQuery {
  import opened Text
  import opened NumberText
  import opened FilterSyntax
  import opened FilterLexer
  import opened FilterParser
  import opened FilterPrinter
  import opened FilterGrammar
  import opened FilterRoundTrip

  const MAX_FILTER_LENGTH: nat := 2000
  const MAX_ORDER_FIELDS: nat := 5
  const MAX_PAGE_SIZE: nat := 1000
  const DEFAULT_PAGE_SIZE: nat := 100

  /** The system query options, after their names have been normalised. */
  datatype Options = Options(filter: Option<string>, orderby: Option<string>, select: Option<string>,
                             top: Option<string>, skip: Option<string>, count: Option<string>)

  datatype Direction = Asc | Desc
  type SortKey = (string, Direction)

  datatype Query = Query(filter: Option<Filter>, orderBy: seq<SortKey>, select: seq<string>,
                         top: nat, skip: nat, includeCount: bool)

  // ---- text helpers of the option parsers ----

  function StripLeft(s: string): string {
    if s != "" && IsSpace(s[0]) then StripLeft(s[1..]) else s
  }

  function StripRight(s: string): string {
    if s != "" && IsSpace(s[|s| - 1]) then StripRight(s[..|s| - 1]) else s
  }

  function Strip(s: string): string {
    StripRight(StripLeft(s))
  }

  /** `s.split(separator)`: never empty. */
  function Split(s: string, separator: char): (r: seq<string>)
    ensures r != []
  {
    if s == "" then [""]
    else
      var tail := Split(s[1..], separator);
      if s[0] == separator then [""] + tail else [[s[0]] + tail[0]] + tail[1..]
  }

  function Join(parts: seq<string>, separator: char): string {
    if parts == [] then "" else if |parts| == 1 then parts[0]
    else parts[0] + ([separator] + Join(parts[1..], separator))
  }

  /** `s.split()`: the maximal runs without white space. */
  function Words(s: string): seq<string> {
    if s == "" then []
    else if IsSpace(s[0]) then Words(s[1..])
    else if |s| > 1 && !IsSpace(s[1]) then
      var tail := Words(s[1..]);
      if tail == [] then [s] else [[s[0]] + tail[0]] + tail[1..]
    else [[s[0]]] + Words(s[1..])
  }

  lemma StripFixed(s: string)
    requires Solid(s)
    ensures Strip(s) == s
  {
  }

  predicate Solid(s: string) {
    s != "" && !IsSpace(s[0]) && !IsSpace(s[|s| - 1])
  }

  ghost predicate Blank(s: string) {
    forall i | 0 <= i < |s| :: IsSpace(s[i])
  }

  /** White space around an option does not count. */
  lemma {:induction false} StripSurrounded(before: string, s: string, after: string)
    requires Blank(before) && (s == "" || Solid(s)) && Blank(after)
    ensures Strip(before + s + after) == s
    decreases |before| + |after|
  {
    var t := before + s + after;
    if before != "" {
      assert t[1..] == before[1..] + s + after;
      StripSurrounded(before[1..], s, after);
    } else if s == "" {
      assert t == after;
      if after != "" {
        assert after[1..] == "" + s + after[1..];
        StripSurrounded("", s, after[1..]);
      }
    } else {
      assert t == s + after;
      assert StripLeft(t) == t;
      StripEnd(s, after);
    }
  }

  lemma {:induction false} StripEnd(s: string, after: string)
    requires Solid(s) && Blank(after)
    ensures StripRight(s + after) == s
  {
    if after == "" {
      assert s + after == s;
    } else {
      assert (s + after)[..|s + after| - 1] == s + after[..|after| - 1];
      StripEnd(s, after[..|after| - 1]);
    }
  }

  lemma SolidConcat(a: string, b: string)
    requires a != "" && !IsSpace(a[0]) && b != "" && !IsSpace(b[|b| - 1])
    ensures Solid(a + b)
  {
  }

  lemma {:induction false} SplitPart(part: string, rest: string, separator: char)
    requires separator !in part
    ensures Split(part, separator) == [part]
    ensures Split(part + ([separator] + rest), separator) == [part] + Split(rest, separator)
  {
    var s := part + ([separator] + rest);
    if part == "" {
      assert s == [separator] + rest;
      assert s[1..] == rest;
    } else {
      assert s[1..] == part[1..] + ([separator] + rest);
      SplitPart(part[1..], rest, separator);
      assert [part[0]] + part[1..] == part;
    }
  }

  lemma {:induction false} SplitJoin(parts: seq<string>, separator: char)
    requires parts != [] && forall p | p in parts :: separator !in p
    ensures Split(Join(parts, separator), separator) == parts
  {
    if |parts| == 1 {
      SplitPart(parts[0], "", separator);
    } else {
      SplitPart(parts[0], Join(parts[1..], separator), separator);
      SplitJoin(parts[1..], separator);
    }
  }

  ghost predicate Spaceless(s: string) {
    s != "" && forall c | c in s :: !IsSpace(c)
  }

  lemma {:induction false} WordsOf(word: string, rest: seq<string>, tail: string)
    requires Spaceless(word) && (tail == "" || IsSpace(tail[0])) && Words(tail) == rest
    ensures Words(word + tail) == [word] + rest
  {
    var s := word + tail;
    if |word| == 1 {
      assert s[0] == word[0] && s[1..] == tail;
      assert word == [word[0]];
    } else {
      assert s[1..] == word[1..] + tail;
      assert s[1] == word[1];
      WordsOf(word[1..], rest, tail);
      assert [word[0]] + word[1..] == word;
    }
  }

  lemma TwoWords(a: string, b: string)
    requires Spaceless(a) && Spaceless(b)
    ensures Words(a + (" " + b)) == [a, b]
    ensures Strip(a + (" " + b)) == a + (" " + b)
  {
    WordsOf(b, [], "");
    assert b + "" == b;
    assert (" " + b)[1..] == b;
    WordsOf(a, [b], " " + b);
    var s := a + (" " + b);
    assert s[0] == a[0] && s[|s| - 1] == b[|b| - 1];
    StripFixed(s);
  }

  // ---- the option parsers ----

  function DefaultOrder(): seq<SortKey> {
    [("published_at", Desc)]
  }

  function DefaultSelect(fields: seq<Field>): seq<string> {
    seq(|fields|, i requires 0 <= i < |fields| => fields[i].name)
  }

  function DirectionOf(word: string): Option<Direction> {
    if word == "asc" then Some(Asc) else if word == "desc" then Some(Desc) else None
  }

  function DirectionWord(d: Direction): string {
    match d case Asc => "asc" case Desc => "desc"
  }

  function ParseOrderItem(fields: seq<Field>, item: string): Outcome<SortKey> {
    var bits := Words(Strip(item));
    if |bits| != 1 && |bits| != 2 then Fail(InvalidOrderby)
    else if Lookup(fields, bits[0]).None? then Fail(UnknownField)
    else if |bits| == 1 then Ok((bits[0], Asc))
    else match DirectionOf(Lower(bits[1]))
         case None => Fail(InvalidOrderDirection)
         case Some(d) => Ok((bits[0], d))
  }

  function ParseOrderItems(fields: seq<Field>, items: seq<string>, parsed: seq<SortKey>): Outcome<seq<SortKey>>
    decreases |items|
  {
    if items == [] then Ok(parsed)
    else
      var key :- ParseOrderItem(fields, items[0]);
      if exists k | k in parsed :: k.0 == key.0 then Fail(DuplicateOrderField)
      else ParseOrderItems(fields, items[1..], parsed + [key])
  }

  function ParseOrderby(fields: seq<Field>, raw: string): Outcome<seq<SortKey>> {
    if Strip(raw) == "" then Ok(DefaultOrder())
    else
      var parsed :- ParseOrderItems(fields, Split(raw, ','), []);
      if |parsed| > MAX_ORDER_FIELDS then Fail(TooManyOrderFields) else Ok(parsed)
  }

  /** `_parse_orderby` as it runs: a growing list and a set of the names seen. */
  method RunOrderby(fields: seq<Field>, raw: string) returns (r: Outcome<seq<SortKey>>)
    ensures r == ParseOrderby(fields, raw)
  {
    if Strip(raw) == "" {
      return Ok(DefaultOrder());
    }
    var parsed: seq<SortKey> := [];
    var seen: set<string> := {};
    var items := Split(raw, ',');
    for i := 0 to |items|
      invariant seen == set k | k in parsed :: k.0
      invariant ParseOrderItems(fields, items, []) == ParseOrderItems(fields, items[i..], parsed)
    {
      assert items[i..][0] == items[i] && items[i..][1..] == items[i + 1..];
      var key :- ParseOrderItem(fields, items[i]);
      if key.0 in seen {
        return Fail(DuplicateOrderField);
      }
      parsed := parsed + [key];
      seen := seen + {key.0};
    }
    if |parsed| > MAX_ORDER_FIELDS {
      return Fail(TooManyOrderFields);
    }
    return Ok(parsed);
  }

  function ParseSelectItems(fields: seq<Field>, items: seq<string>, selected: seq<string>): Outcome<seq<string>>
    decreases |items|
  {
    if items == [] then Ok(selected)
    else
      var name := Strip(items[0]);
      if name == "" || Lookup(fields, name).None? then Fail(UnknownField)
      else ParseSelectItems(fields, items[1..], if name in selected then selected else selected + [name])
  }

  function ParseSelect(fields: seq<Field>, raw: string): Outcome<seq<string>> {
    if Strip(raw) == "" then Ok(DefaultSelect(fields)) else ParseSelectItems(fields, Split(raw, ','), [])
  }

  /** `_parse_select` as it runs. */
  method RunSelect(fields: seq<Field>, raw: string) returns (r: Outcome<seq<string>>)
    ensures r == ParseSelect(fields, raw)
  {
    if Strip(raw) == "" {
      return Ok(DefaultSelect(fields));
    }
    var selected: seq<string> := [];
    var seen: set<string> := {};
    var items := Split(raw, ',');
    for i := 0 to |items|
      invariant seen == set n | n in selected
      invariant ParseSelectItems(fields, items, []) == ParseSelectItems(fields, items[i..], selected)
    {
      assert items[i..][0] == items[i] && items[i..][1..] == items[i + 1..];
      var name := Strip(items[i]);
      if name == "" || Lookup(fields, name).None? {
        return Fail(UnknownField);
      }
      if name !in seen {
        selected := selected + [name];
        seen := seen + {name};
      }
    }
    return Ok(selected);
  }

  /** Digits with single underscores between them. */
  predicate GroupedDigits(s: string) {
    && s != "" && IsDigit(s[0]) && IsDigit(s[|s| - 1])
    && (forall c | c in s :: IsDigit(c) || c == '_')
    && (forall i | 0 < i < |s| :: !(s[i - 1] == '_' && s[i] == '_'))
  }

  function OnlyDigits(s: string): (r: string)
    ensures AllDigits(r)
  {
    if s == "" then "" else if IsDigit(s[0]) then [s[0]] + OnlyDigits(s[1..]) else OnlyDigits(s[1..])
  }

  /** `int(raw)`. */
  function PythonInt(raw: string): Option<int> {
    var s := Strip(raw);
    var signed := s != "" && (s[0] == '-' || s[0] == '+');
    var body := if signed then s[1..] else s;
    if !GroupedDigits(body) then None
    else
      var n: int := NumeralValue(OnlyDigits(body));
      Some(if s[0] == '-' then -n else n)
  }

  function ParseBounded(raw: Option<string>, default: nat, maximum: Option<nat>): Outcome<nat> {
    if raw.None? || raw.value == "" then Ok(default)
    else
      var n := PythonInt(raw.value);
      if n.None? || n.value < 0 then Fail(InvalidInteger)
      else if maximum.Some? && n.value > maximum.value then Fail(PageSizeTooLarge)
      else Ok(n.value)
  }

  function ParseCount(raw: Option<string>): Outcome<bool> {
    if raw.None? || raw.value == "" || Lower(raw.value) == "false" then Ok(false)
    else if Lower(raw.value) == "true" then Ok(true)
    else Fail(InvalidCount)
  }

  function OrEmpty(o: Option<string>): string {
    match o case Some(s) => s case None => ""
  }

  function ParseFilterOption(ctx: Context, raw: string): Outcome<Option<Filter>> {
    var text := Strip(raw);
    if |text| > MAX_FILTER_LENGTH then Fail(FilterTooLong)
    else if text == "" then Ok(None)
    else
      var f :- ParseFilter(ctx, text);
      Ok(Some(f))
  }

  /** The query of the six parsed options; the first one that fails decides the error. */
  function Assemble(filter: Outcome<Option<Filter>>, orderBy: Outcome<seq<SortKey>>, select: Outcome<seq<string>>,
                    top: Outcome<nat>, skip: Outcome<nat>, count: Outcome<bool>): Outcome<Query> {
    var f :- filter;
    var o :- orderBy;
    var s :- select;
    var t :- top;
    var k :- skip;
    var c :- count;
    Ok(Query(f, o, s, t, k, c))
  }

  /** `parse_result_query` on normalised options. */
  function ParseQuery(ctx: Context, o: Options): Outcome<Query> {
    Assemble(ParseFilterOption(ctx, OrEmpty(o.filter)),
             ParseOrderby(ctx.fields, OrEmpty(o.orderby)),
             ParseSelect(ctx.fields, OrEmpty(o.select)),
             ParseBounded(o.top, DEFAULT_PAGE_SIZE, Some(MAX_PAGE_SIZE)),
             ParseBounded(o.skip, 0, None),
             ParseCount(o.count))
  }

  lemma AssembledParts(filter: Outcome<Option<Filter>>, orderBy: Outcome<seq<SortKey>>, select: Outcome<seq<string>>,
                       top: Outcome<nat>, skip: Outcome<nat>, count: Outcome<bool>)
    ensures Assemble(filter, orderBy, select, top, skip, count).Ok?
            <==> filter.Ok? && orderBy.Ok? && select.Ok? && top.Ok? && skip.Ok? && count.Ok?
    ensures Assemble(filter, orderBy, select, top, skip, count).Ok? ==>
              Assemble(filter, orderBy, select, top, skip, count).value
              == Query(filter.value, orderBy.value, select.value, top.value, skip.value, count.value)
    ensures var r := Assemble(filter, orderBy, select, top, skip, count);
            && (filter.Fail? ==> r == Fail(filter.code))
            && (filter.Ok? && orderBy.Fail? ==> r == Fail(orderBy.code))
            && (filter.Ok? && orderBy.Ok? && select.Fail? ==> r == Fail(select.code))
            && (filter.Ok? && orderBy.Ok? && select.Ok? && top.Fail? ==> r == Fail(top.code))
            && (filter.Ok? && orderBy.Ok? && select.Ok? && top.Ok? && skip.Fail? ==> r == Fail(skip.code))
            && (filter.Ok? && orderBy.Ok? && select.Ok? && top.Ok? && skip.Ok? && count.Fail? ==> r == Fail(count.code))
  {
  }

  // ---- the canonical options ----

  function RenderKey(key: SortKey): string {
    key.0 + (" " + DirectionWord(key.1))
  }

  function RenderKeys(keys: seq<SortKey>): seq<string> {
    seq(|keys|, i requires 0 <= i < |keys| => RenderKey(keys[i]))
  }

  /** `canonical_query`, before the parts are joined with `&`. */
  function Canonical(ctx: Context, q: Query): Options {
    Options(if q.filter.Some? then Some(Render(q.filter.value, 0)) else None,
            Some(Join(RenderKeys(q.orderBy), ',')),
            if q.select == DefaultSelect(ctx.fields) then None else Some(Join(q.select, ',')),
            Some(Numeral(q.top)),
            if q.skip == 0 then None else Some(Numeral(q.skip)),
            if q.includeCount then Some("true") else None)
  }

  /** `q` with the nested chains of its filter merged. */
  function Merged(q: Query): Query {
    q.(filter := if q.filter.Some? then Some(Flatten(q.filter.value)) else None)
  }

  ghost predicate Distinct<T>(s: seq<T>) {
    forall i, j | 0 <= i < j < |s| :: s[i] != s[j]
  }

  ghost predicate DistinctNames(keys: seq<SortKey>) {
    forall i, j | 0 <= i < j < |keys| :: keys[i].0 != keys[j].0
  }

  /** What parsing guarantees. */
  ghost predicate WellFormedQuery(ctx: Context, q: Query) {
    && (q.filter.Some? ==> WellTyped(ctx, q.filter.value) && Nodes(q.filter.value) <= 100)
    && 0 < |q.orderBy| <= 5 && DistinctNames(q.orderBy)
    && (forall k | k in q.orderBy :: Lookup(ctx.fields, k.0).Some?)
    && GoodSelect(ctx.fields, q.select)
    && q.top <= 1000
  }

  ghost predicate ValidCatalogue(ctx: Context) {
    Valid(ctx) && Lookup(ctx.fields, "published_at").Some?
  }

  lemma {:induction false} OrderItemsSound(fields: seq<Field>, items: seq<string>, parsed: seq<SortKey>)
    requires DistinctNames(parsed) && forall k | k in parsed :: Lookup(fields, k.0).Some?
    requires ParseOrderItems(fields, items, parsed).Ok?
    ensures var r := ParseOrderItems(fields, items, parsed).value;
            DistinctNames(r) && |r| == |parsed| + |items| && forall k | k in r :: Lookup(fields, k.0).Some?
    decreases |items|
  {
    if items != [] {
      OrderItemsSound(fields, items[1..], parsed + [ParseOrderItem(fields, items[0]).value]);
    }
  }

  lemma {:induction false} SelectItemsSound(fields: seq<Field>, items: seq<string>, selected: seq<string>)
    requires Distinct(selected) && forall n | n in selected :: Lookup(fields, n).Some?
    requires ParseSelectItems(fields, items, selected).Ok? && (items != [] || selected != [])
    ensures var r := ParseSelectItems(fields, items, selected).value;
            r != [] && Distinct(r) && forall n | n in r :: Lookup(fields, n).Some?
    decreases |items|
  {
    if items != [] {
      var name := Strip(items[0]);
      SelectItemsSound(fields, items[1..], if name in selected then selected else selected + [name]);
    }
  }

  lemma ParsedOrderby(fields: seq<Field>, raw: string)
    requires Lookup(fields, "published_at").Some? && ParseOrderby(fields, raw).Ok?
    ensures var keys := ParseOrderby(fields, raw).value;
            0 < |keys| <= MAX_ORDER_FIELDS && DistinctNames(keys)
            && forall k | k in keys :: Lookup(fields, k.0).Some?
  {
    if Strip(raw) != "" {
      OrderItemsSound(fields, Split(raw, ','), []);
    }
  }

  ghost predicate GoodSelect(fields: seq<Field>, names: seq<string>) {
    || names == DefaultSelect(fields)
    || (names != [] && Distinct(names) && forall n | n in names :: Lookup(fields, n).Some?)
  }

  lemma ParsedSelect(fields: seq<Field>, raw: string)
    requires ParseSelect(fields, raw).Ok?
    ensures GoodSelect(fields, ParseSelect(fields, raw).value)
  {
    if Strip(raw) != "" {
      SelectItemsSound(fields, Split(raw, ','), []);
    }
  }

  lemma ParsedFilter(ctx: Context, raw: string)
    requires Valid(ctx) && ParseFilterOption(ctx, raw).Ok?
    ensures var f := ParseFilterOption(ctx, raw).value;
            f.Some? ==> WellTyped(ctx, f.value) && Nodes(f.value) <= MAX_FILTER_NODES
  {
    if Strip(raw) != "" {
      ParsedIsWellTyped(ctx, Strip(raw));
    }
  }

  lemma BoundedIsBounded(raw: Option<string>, default: nat, maximum: nat)
    requires default <= maximum && ParseBounded(raw, default, Some(maximum)).Ok?
    ensures ParseBounded(raw, default, Some(maximum)).value <= maximum
  {
  }

  /** The option is absent or says nothing. */
  ghost predicate SaysNothing(raw: Option<string>) {
    raw.Some? ==> Blank(raw.value)
  }

  /** The count option is `true` or `false` in any case, or empty. */
  lemma CountOutcome(raw: string)
    ensures ParseCount(Some(raw)) == Ok(true) <==> Lower(raw) == "true"
    ensures ParseCount(Some(raw)) == Ok(false) <==> raw == "" || Lower(raw) == "false"
    ensures ParseCount(Some(raw)).Fail? ==> ParseCount(Some(raw)) == Fail(InvalidCount)
  {
    assert |"true"| == 4 && |"false"| == 5;
  }

  /** A query without options asks for the first hundred results, newest first, with every
      field and without a count. Empty options are no options. */
  lemma NoOptions(ctx: Context, o: Options)
    requires SaysNothing(o.filter) && SaysNothing(o.orderby) && SaysNothing(o.select)
    requires o.top in {None, Some("")} && o.skip in {None, Some("")} && o.count in {None, Some("")}
    ensures var q := ParseQuery(ctx, o);
            && q.Ok? && q.value.filter == None && q.value.orderBy == [("published_at", Desc)]
            && |q.value.select| == |ctx.fields|
            && (forall i | 0 <= i < |ctx.fields| :: q.value.select[i] == ctx.fields[i].name)
            && q.value.top == 100 && q.value.skip == 0 && !q.value.includeCount
  {
    BlankIsStripped(OrEmpty(o.filter));
    BlankIsStripped(OrEmpty(o.orderby));
    BlankIsStripped(OrEmpty(o.select));
    assert ParseFilterOption(ctx, OrEmpty(o.filter)) == Ok(None);
  }

  lemma BlankIsStripped(s: string)
    requires Blank(s)
    ensures Strip(s) == ""
  {
    StripSurrounded(s, "", "");
    assert s + "" + "" == s;
  }

  /** Every parsed query satisfies the bounds and uniqueness rules of its options. */
  lemma ParsedQueryIsWellFormed(ctx: Context, o: Options)
    requires ValidCatalogue(ctx) && ParseQuery(ctx, o).Ok?
    ensures WellFormedQuery(ctx, ParseQuery(ctx, o).value)
  {
    AssembledParts(ParseFilterOption(ctx, OrEmpty(o.filter)), ParseOrderby(ctx.fields, OrEmpty(o.orderby)),
                   ParseSelect(ctx.fields, OrEmpty(o.select)),
                   ParseBounded(o.top, DEFAULT_PAGE_SIZE, Some(MAX_PAGE_SIZE)), ParseBounded(o.skip, 0, None),
                   ParseCount(o.count));
    ParsedFilter(ctx, OrEmpty(o.filter));
    ParsedOrderby(ctx.fields, OrEmpty(o.orderby));
    ParsedSelect(ctx.fields, OrEmpty(o.select));
    BoundedIsBounded(o.top, DEFAULT_PAGE_SIZE, MAX_PAGE_SIZE);
  }

  // ---- reading the canonical options ----

  lemma KnownName(ctx: Context, name: string)
    requires Valid(ctx) && Lookup(ctx.fields, name).Some?
    ensures Spaceless(name) && ',' !in name && Solid(name)
  {
    assert IsIdentifier(name);
  }

  lemma DirectionRoundTrip(d: Direction)
    ensures DirectionOf(Lower(DirectionWord(d))) == Some(d)
    ensures Spaceless(DirectionWord(d)) && ',' !in DirectionWord(d)
  {
    var word := DirectionWord(d);
    LowerFixed(word);
    assert |word| == if d.Asc? then 3 else 4;
  }

  lemma KeyRoundTrip(ctx: Context, key: SortKey)
    requires Valid(ctx) && Lookup(ctx.fields, key.0).Some?
    ensures ParseOrderItem(ctx.fields, RenderKey(key)) == Ok(key)
    ensures ',' !in RenderKey(key) && Solid(RenderKey(key))
  {
    KnownName(ctx, key.0);
    DirectionRoundTrip(key.1);
    TwoWords(key.0, DirectionWord(key.1));
    SolidConcat(key.0, " " + DirectionWord(key.1));
  }

  /** What one item of the order option means: a field name alone sorts ascending, a second
      word gives the direction in any case, and a third is an error. */
  lemma OrderItemOutcome(fields: seq<Field>, name: string, word: string, third: string)
    requires Spaceless(name) && Spaceless(word) && Spaceless(third)
    ensures ParseOrderItem(fields, name)
            == if Lookup(fields, name).None? then Fail(UnknownField) else Ok((name, Asc))
    ensures ParseOrderItem(fields, name + (" " + word))
            == if Lookup(fields, name).None? then Fail(UnknownField)
               else if Lower(word) == "asc" then Ok((name, Asc))
               else if Lower(word) == "desc" then Ok((name, Desc))
               else Fail(InvalidOrderDirection)
    ensures ParseOrderItem(fields, name + (" " + (word + (" " + third)))) == Fail(InvalidOrderby)
  {
    OneWord(name);
    TwoWords(name, word);
    ThreeWords(name, word, third);
  }

  /** A lone field name means the same as that name with `asc`. */
  lemma LoneFieldIsAscending(fields: seq<Field>, name: string)
    requires Spaceless(name)
    ensures ParseOrderItem(fields, name) == ParseOrderItem(fields, name + (" " + "asc"))
  {
    DirectionRoundTrip(Asc);
    OrderItemOutcome(fields, name, "asc", "asc");
  }

  lemma OneWord(a: string)
    requires Spaceless(a)
    ensures Words(Strip(a)) == [a]
  {
    WordsOf(a, [], "");
    assert a + "" == a;
    StripFixed(a);
  }

  lemma ThreeWords(a: string, b: string, c: string)
    requires Spaceless(a) && Spaceless(b) && Spaceless(c)
    ensures Words(Strip(a + (" " + (b + (" " + c))))) == [a, b, c]
  {
    TwoWords(b, c);
    var tail := " " + (b + (" " + c));
    assert tail[1..] == b + (" " + c);
    WordsOf(a, [b, c], tail);
    assert tail[|tail| - 1] == c[|c| - 1];
    SolidConcat(a, tail);
    StripFixed(a + tail);
  }

  lemma NotSeen(keys: seq<SortKey>, n: nat)
    requires n < |keys| && DistinctNames(keys[..n])
    ensures (exists k | k in keys[..n] :: k.0 == keys[n].0) <==> !DistinctNames(keys[..n + 1])
  {
    if k :| k in keys[..n] && k.0 == keys[n].0 {
      var i :| 0 <= i < n && keys[..n][i] == k;
      assert keys[..n + 1][i].0 == keys[..n + 1][n].0;
    }
    if !DistinctNames(keys[..n + 1]) {
      var i, j :| 0 <= i < j < n + 1 && keys[..n + 1][i].0 == keys[..n + 1][j].0;
      assert j == n ==> keys[..n][i] in keys[..n];
    }
  }

  lemma OneOrderItem(ctx: Context, key: SortKey, items: seq<string>, parsed: seq<SortKey>)
    requires Valid(ctx) && Lookup(ctx.fields, key.0).Some?
    requires items != [] && items[0] == RenderKey(key)
    ensures ParseOrderItems(ctx.fields, items, parsed)
            == if exists k | k in parsed :: k.0 == key.0 then Fail(DuplicateOrderField)
               else ParseOrderItems(ctx.fields, items[1..], parsed + [key])
  {
    KeyRoundTrip(ctx, key);
  }

  lemma RepeatStays(keys: seq<SortKey>, n: nat)
    requires n <= |keys| && !DistinctNames(keys[..n])
    ensures !DistinctNames(keys)
  {
    var i, j :| 0 <= i < j < n && keys[..n][i].0 == keys[..n][j].0;
    assert keys[i].0 == keys[j].0;
  }

  lemma OrderItemsStep(ctx: Context, keys: seq<SortKey>, n: nat)
    requires Valid(ctx) && n < |keys| && DistinctNames(keys[..n]) && Lookup(ctx.fields, keys[n].0).Some?
    ensures ParseOrderItems(ctx.fields, RenderKeys(keys)[n..], keys[..n])
            == if DistinctNames(keys[..n + 1])
               then ParseOrderItems(ctx.fields, RenderKeys(keys)[n + 1..], keys[..n + 1])
               else Fail(DuplicateOrderField)
  {
    var items := RenderKeys(keys);
    NotSeen(keys, n);
    OneOrderItem(ctx, keys[n], items[n..], keys[..n]);
    assert items[n..][1..] == items[n + 1..];
    TakeNext(keys, n);
  }

  lemma {:induction false} OrderItemsRoundTrip(ctx: Context, keys: seq<SortKey>, n: nat)
    requires Valid(ctx) && n <= |keys| && DistinctNames(keys[..n])
    requires forall k | k in keys :: Lookup(ctx.fields, k.0).Some?
    ensures ParseOrderItems(ctx.fields, RenderKeys(keys)[n..], keys[..n])
            == if DistinctNames(keys) then Ok(keys) else Fail(DuplicateOrderField)
    decreases |keys| - n
  {
    if n < |keys| {
      OrderItemsStep(ctx, keys, n);
      if DistinctNames(keys[..n + 1]) {
        OrderItemsRoundTrip(ctx, keys, n + 1);
      } else {
        RepeatStays(keys, n + 1);
      }
    } else {
      assert keys[..n] == keys;
    }
  }

  lemma {:induction false} JoinEnds(parts: seq<string>)
    requires parts != [] && forall p | p in parts :: Solid(p)
    ensures Solid(Join(parts, ','))
  {
    if |parts| > 1 {
      JoinEnds(parts[1..]);
      assert parts[0] in parts;
      SolidConcat(parts[0], "," + Join(parts[1..], ','));
    }
  }

  /** The order option that names these keys is read back as them, unless a name is repeated
      or there are more than five. */
  lemma OrderbyRoundTrip(ctx: Context, keys: seq<SortKey>)
    requires Valid(ctx) && keys != []
    requires forall k | k in keys :: Lookup(ctx.fields, k.0).Some?
    ensures ParseOrderby(ctx.fields, Join(RenderKeys(keys), ','))
            == if !DistinctNames(keys) then Fail(DuplicateOrderField)
               else if |keys| > 5 then Fail(TooManyOrderFields)
               else Ok(keys)
  {
    var items := RenderKeys(keys);
    forall p | p in items ensures ',' !in p && Solid(p) {
      var i :| 0 <= i < |keys| && p == RenderKey(keys[i]);
      KeyRoundTrip(ctx, keys[i]);
    }
    JoinEnds(items);
    StripFixed(Join(items, ','));
    SplitJoin(items, ',');
    OrderItemsRoundTrip(ctx, keys, 0);
    assert items[0..] == items && keys[..0] == [];
  }

  lemma NotAmong(names: seq<string>, n: nat)
    requires Distinct(names) && n < |names|
    ensures names[n] !in names[..n]
  {
  }

  lemma OneSelectItem(ctx: Context, items: seq<string>, selected: seq<string>)
    requires Valid(ctx) && items != [] && Lookup(ctx.fields, items[0]).Some? && items[0] !in selected
    ensures ParseSelectItems(ctx.fields, items, selected)
            == ParseSelectItems(ctx.fields, items[1..], selected + [items[0]])
  {
    KnownName(ctx, items[0]);
    StripFixed(items[0]);
  }

  lemma {:induction false} SelectItemsRoundTrip(ctx: Context, names: seq<string>, n: nat)
    requires Valid(ctx) && Distinct(names) && n <= |names|
    requires forall s | s in names :: Lookup(ctx.fields, s).Some?
    ensures ParseSelectItems(ctx.fields, names[n..], names[..n]) == Ok(names)
    decreases |names| - n
  {
    if n < |names| {
      NotAmong(names, n);
      OneSelectItem(ctx, names[n..], names[..n]);
      assert names[n..][1..] == names[n + 1..];
      TakeNext(names, n);
      SelectItemsRoundTrip(ctx, names, n + 1);
    } else {
      assert names[..n] == names;
    }
  }

  lemma SelectRoundTrip(ctx: Context, names: seq<string>)
    requires Valid(ctx) && Distinct(names) && names != []
    requires forall s | s in names :: Lookup(ctx.fields, s).Some?
    ensures ParseSelect(ctx.fields, Join(names, ',')) == Ok(names)
  {
    forall p | p in names ensures ',' !in p && Solid(p) {
      KnownName(ctx, p);
    }
    JoinEnds(names);
    StripFixed(Join(names, ','));
    SplitJoin(names, ',');
    SelectItemsRoundTrip(ctx, names, 0);
    assert names[0..] == names && names[..0] == [];
  }

  lemma {:induction false} OnlyDigitsFixed(s: string)
    requires AllDigits(s)
    ensures OnlyDigits(s) == s
  {
    if s != "" {
      OnlyDigitsFixed(s[1..]);
    }
  }

  /** A numeral is read back, unless it is above the maximum. */
  lemma BoundedRoundTrip(n: nat, default: nat, maximum: Option<nat>)
    ensures ParseBounded(Some(Numeral(n)), default, maximum)
            == if maximum.Some? && n > maximum.value then Fail(PageSizeTooLarge) else Ok(n)
  {
    var s := Numeral(n);
    StripFixed(s);
    OnlyDigitsFixed(s);
    NumeralRoundTrip(n);
    forall c | c in s ensures IsDigit(c) {
    }
  }

  /** A plus sign may be written in a page option. */
  lemma SignedInteger(a: string, default: nat)
    requires AllDigits(a) && a != ""
    ensures ParseBounded(Some("+" + a), default, None) == Ok(NumeralValue(a))
  {
    var s := "+" + a;
    assert s[1..] == a;
    StripFixed(s);
    OnlyDigitsFixed(a);
  }

  /** Single underscores may be written between digits. */
  lemma GroupedInteger(a: string, b: string, default: nat)
    requires AllDigits(a) && AllDigits(b) && a != "" && b != ""
    ensures AllDigits(a + b) && ParseBounded(Some(a + ("_" + b)), default, None) == Ok(NumeralValue(a + b))
  {
    var s := a + ("_" + b);
    assert s[0] == a[0] && s[|s| - 1] == b[|b| - 1];
    StripFixed(s);
    OnlyDigitsJoin(a, "_" + b);
    OnlyDigitsFixed(b);
    assert ("_" + b)[1..] == b;
    GroupedPair(a, b);
  }

  lemma GroupedPair(a: string, b: string)
    requires AllDigits(a) && AllDigits(b) && a != "" && b != ""
    ensures GroupedDigits(a + ("_" + b))
  {
    var s := a + ("_" + b);
    assert forall i | 0 <= i < |s| :: s[i] == '_' <==> i == |a|;
  }

  lemma {:induction false} OnlyDigitsJoin(a: string, s: string)
    requires AllDigits(a)
    ensures OnlyDigits(a + s) == a + OnlyDigits(s)
  {
    if a == "" {
      assert a + s == s;
    } else {
      assert (a + s)[1..] == a[1..] + s;
      OnlyDigitsJoin(a[1..], s);
    }
  }

  /** A negative number is no page option. */
  lemma NegativeIsRefused(n: nat, default: nat, maximum: Option<nat>)
    requires n > 0
    ensures ParseBounded(Some("-" + Numeral(n)), default, maximum) == Fail(InvalidInteger)
  {
    var s := "-" + Numeral(n);
    assert s[1..] == Numeral(n);
    StripFixed(s);
    OnlyDigitsFixed(Numeral(n));
    NumeralRoundTrip(n);
  }

  // ---- a rendered filter has no white space at its ends ----

  lemma PowerEnds(e: Exponent)
    requires WellFormedPower(e) && e.Power?
    ensures var s := PowerOnto(e, ""); s != "" && IsDigit(s[|s| - 1])
  {
    var s := PowerOnto(e, "");
    assert s[|s| - 1] == e.digits[|e.digits| - 1];
  }

  /** A literal that does not end with its point ends with a digit. */
  lemma NumberEnds(p: NumberLiteral)
    requires WellFormed(p) && (p.point && p.power.NoExponent? ==> p.fraction != "")
    ensures var s := Write(p); s != "" && IsDigit(s[|s| - 1]) && !IsSpace(s[0])
  {
    var t := TailOnto(p, "");
    if p.power.Power? {
      PowerEnds(p.power);
      assert t[|t| - 1] == PowerOnto(p.power, "")[|PowerOnto(p.power, "")| - 1];
    } else if p.point {
      assert t[|t| - 1] == p.fraction[|p.fraction| - 1];
    } else {
      assert t == "";
    }
    var body := p.whole + t;
    assert body[|body| - 1] == if t == "" then p.whole[|p.whole| - 1] else t[|t| - 1];
    assert body[0] == if p.whole == "" then '.' else p.whole[0];
  }

  lemma LiteralEnds(value: Value)
    ensures var s := RenderLiteral(value); s != "" && !IsSpace(s[|s| - 1])
  {
    match value
    case Integer(n) =>
      IntegerRoundTrip(n);
      NumberEnds(IntegerLiteral(n));
    case Number(d) =>
      DecimalRoundTrip(d);
      NumberEnds(DecimalLiteral(d));
    case _ =>
  }

  lemma {:induction false} RenderIsSolid(ctx: Context, f: Filter, parent: nat)
    requires Valid(ctx) && WellTyped(ctx, f)
    ensures Solid(Render(f, parent))
    decreases f, 1
  {
    match f
    case Compare(op, field, value) =>
      LiteralEnds(value);
      SolidConcat(field.name, " " + (CompareWord(op) + (" " + RenderLiteral(value))));
    case Function(name, field, argument) =>
      FunctionWordIsIdentifier(name);
      SolidConcat(FunctionWord(name), "(" + (field.name + ("," + (RenderLiteral(argument) + ")"))));
    case Not(child) =>
      RenderIsSolid(ctx, child, 3);
      SolidConcat("not", " " + Render(child, 3));
    case Logic(op, children) =>
      JoinedIsSolid(ctx, op, children);
      SolidConcat("(", RenderJoined(op, children) + ")");
  }

  lemma {:induction false} JoinedIsSolid(ctx: Context, op: LogicOp, fs: seq<Filter>)
    requires Valid(ctx) && fs != [] && AllWellTyped(ctx, fs)
    ensures Solid(RenderJoined(op, fs))
    decreases fs, 0
  {
    RenderIsSolid(ctx, fs[0], Precedence(op));
    if |fs| > 1 {
      JoinedIsSolid(ctx, op, fs[1..]);
      SolidConcat(Render(fs[0], Precedence(op)), Separator(op) + RenderJoined(op, fs[1..]));
    }
  }

  /** The canonical filter text is read back as the merged filter exactly when it is within
      the length limit; otherwise it is refused for its length. */
  lemma FilterOptionRoundTrip(ctx: Context, f: Filter)
    requires Valid(ctx) && WellTyped(ctx, f) && Nodes(f) <= MAX_FILTER_NODES
    ensures ParseFilterOption(ctx, Render(f, 0))
            == if |Render(f, 0)| <= 2000 then Ok(Some(Flatten(f))) else Fail(FilterTooLong)
  {
    RenderIsSolid(ctx, f, 0);
    StripFixed(Render(f, 0));
    FlattenNodes(f);
    PrintParse(ctx, f);
  }

  lemma SelectOptionRoundTrip(ctx: Context, names: seq<string>)
    requires Valid(ctx) && GoodSelect(ctx.fields, names)
    ensures ParseSelect(ctx.fields, if names == DefaultSelect(ctx.fields) then "" else Join(names, ','))
            == Ok(names)
  {
    if names != DefaultSelect(ctx.fields) {
      SelectRoundTrip(ctx, names);
    }
  }

  lemma CountRoundTrip(count: bool)
    ensures ParseCount(if count then Some("true") else None) == Ok(count)
  {
    LowerFixed("true");
    assert |"true"| == 4 && |"false"| == 5;
  }

  lemma CanonicalFilterRoundTrip(ctx: Context, q: Query)
    requires ValidCatalogue(ctx) && WellFormedQuery(ctx, q)
    ensures Canonical(ctx, Merged(q)).filter == Canonical(ctx, q).filter
    ensures ParseFilterOption(ctx, OrEmpty(Canonical(ctx, q).filter))
            == if q.filter.None? then Ok(None)
               else if |Render(q.filter.value, 0)| > MAX_FILTER_LENGTH then Fail(FilterTooLong)
               else Ok(Some(Flatten(q.filter.value)))
  {
    if q.filter.Some? {
      FilterOptionRoundTrip(ctx, q.filter.value);
      RenderFlatten(ctx, q.filter.value, 0);
    } else {
      NoFilterOption(ctx);
    }
  }

  lemma NoFilterOption(ctx: Context)
    ensures ParseFilterOption(ctx, "") == Ok(None)
  {
    assert Strip("") == "";
  }

  /** The canonical options leave out exactly what their absence says as well, except that
      the order and the page size are always written. */
  lemma CanonicalIsShort(ctx: Context, q: Query)
    requires q.filter.Some? ==> WellTyped(ctx, q.filter.value)
    ensures var o := Canonical(ctx, q);
            && (o.filter == None <==> q.filter == None)
            && (o.select == None <==> Ok(q.select) == ParseSelect(ctx.fields, ""))
            && (o.skip == None <==> Ok(q.skip) == ParseBounded(None, 0, None))
            && (o.count == None <==> Ok(q.includeCount) == ParseCount(None))
            && o.orderby.Some? && o.top.Some?
  {
    assert Strip("") == "";
  }

  /** Canonicalising is stable: reading the canonical options of any parsed query gives the
      same query with its nested chains merged, exactly when the rendered filter is within
      the length limit, and that query has the same canonical options. */
  lemma CanonicalRoundTrip(ctx: Context, q: Query)
    requires ValidCatalogue(ctx) && WellFormedQuery(ctx, q)
    ensures Canonical(ctx, Merged(q)) == Canonical(ctx, q)
    ensures ParseQuery(ctx, Canonical(ctx, q))
            == if q.filter.Some? && |Render(q.filter.value, 0)| > 2000
               then Fail(FilterTooLong) else Ok(Merged(q))
  {
    var o := Canonical(ctx, q);
    CanonicalFilterRoundTrip(ctx, q);
    OrderbyRoundTrip(ctx, q.orderBy);
    SelectOptionRoundTrip(ctx, q.select);
    BoundedRoundTrip(q.top, DEFAULT_PAGE_SIZE, Some(MAX_PAGE_SIZE));
    BoundedRoundTrip(q.skip, 0, None);
    CountRoundTrip(q.includeCount);
    AssembledParts(ParseFilterOption(ctx, OrEmpty(o.filter)), Ok(q.orderBy), Ok(q.select), Ok(q.top), Ok(q.skip),
                   Ok(q.includeCount));
    assert ParseBounded(o.skip, 0, None) == Ok(q.skip);
  }

  // ---- the length limit can refuse a canonical text ----

  function Letters(n: nat): (s: string)
    ensures |s| == n && forall i | 0 <= i < n :: s[i] == 'a'
  {
    seq(n, i => 'a')
  }

  lemma LexSqueezed(name: string, text: string)
    requires IsIdentifier(name) && '\'' !in text
    ensures LexesTo(name + (" " + ("eq" + ("'" + (text + "'")))), [Word(name), Word("eq"), LiteralToken(Text(text))])
  {
    QuoteFree(text);
    LexString(text, "", []);
    assert "'" + "" == "'";
    var literal := [LiteralToken(Text(text))];
    assert literal + [] == literal;
    LexIdent("eq", "'" + (text + "'"), literal);
    LexWordSpace(name, "eq" + ("'" + (text + "'")), [Word("eq")] + literal);
    assert [Word(name)] + ([Word("eq")] + literal) == [Word(name), Word("eq"), LiteralToken(Text(text))];
  }

  /** A comparison written without the optional space, and one character longer when it is
      rendered. */
  lemma SqueezedComparison(ctx: Context, field: Field, text: string)
    requires Valid(ctx) && Known(ctx, field) && field.kind.StringKind? && '\'' !in text
    ensures var source := field.name + (" " + ("eq" + ("'" + (text + "'"))));
            var f := Compare(Eq, field, Text(text));
            && Solid(source) && WellTyped(ctx, f) && ParseFilter(ctx, source) == Ok(f)
            && |Render(f, 0)| == |source| + 1
  {
    KnownName(ctx, field.name);
    LexSqueezed(field.name, text);
    LeafIsParsed(ctx, Compare(Eq, field, Text(text)));
    QuoteFree(text);
    SolidConcat(field.name, " " + ("eq" + ("'" + (text + "'"))));
  }

  lemma LeafIsParsed(ctx: Context, f: Filter)
    requires Valid(ctx) && WellTyped(ctx, f) && f.Compare?
    ensures ParseTokens(ctx, [Word(f.field.name), Word(CompareWord(f.op)), LiteralToken(f.value)], MAX_FILTER_NODES)
            == Ok(f)
  {
    CanonOfLeaf(ctx, Chain(Or), f);
    CanonDerives(ctx, Chain(Or), f);
    ParserIsGrammar(ctx, Yield(Canon(ctx, NotLevel, f)), f, MAX_FILTER_NODES);
  }

  /** The length limit makes the round trip fail for some accepted filters: one of exactly
      2,000 characters is accepted, and its canonical text is refused. */
  lemma CanonicalTextCanBeTooLong(ctx: Context, field: Field) returns (source: string)
    requires Valid(ctx) && Known(ctx, field) && field.kind.StringKind? && |field.name| <= 1900
    ensures |source| == 2000
    ensures var r := ParseFilterOption(ctx, source);
            r.Ok? && r.value.Some? && ParseFilterOption(ctx, Render(r.value.value, 0)) == Fail(FilterTooLong)
  {
    var text := Letters(MAX_FILTER_LENGTH - 5 - |field.name|);
    source := field.name + (" " + ("eq" + ("'" + (text + "'"))));
    SqueezedComparison(ctx, field, text);
    StripFixed(source);
    FilterOptionRoundTrip(ctx, Compare(Eq, field, Text(text)));
  }
}
