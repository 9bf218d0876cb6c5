/** The tokeniser: a greedy, backtracking regular expression applied from left to right. */
module FilterLexer {
  import opened Text
  import opened NumberText
  import opened FilterSyntax

  /** The characters Python counts as white space. */
  predicate IsSpace(c: char) {
    || c == ' ' || '\t' <= c <= '\r' || '\U{1C}' <= c <= '\U{1F}' || c == '\U{85}' || c == '\U{A0}'
    || c == '\U{1680}' || '\U{2000}' <= c <= '\U{200A}' || c == '\U{2028}' || c == '\U{2029}'
    || c == '\U{202F}' || c == '\U{205F}' || c == '\U{3000}'
  }

  /** `(?:[^']|'')*'` after the opening quote: the raw text inside and what follows the
      closing quote. When no closing quote is left after a doubled quote, the expression
      backtracks and takes the first of the two as the closing one. */
  function MatchString(s: string): (r: Option<(string, string)>)
    ensures r.Some? ==> |r.value.1| < |s|
  {
    if s == "" then None
    else if s[0] != '\'' then
      (match MatchString(s[1..])
       case Some((raw, rest)) => Some(([s[0]] + raw, rest))
       case None => None)
    else if |s| > 1 && s[1] == '\'' then
      (match MatchString(s[2..])
       case Some((raw, rest)) => Some(("''" + raw, rest))
       case None => Some(("", s[1..])))
    else Some(("", s[1..]))
  }

  /** `(?:[^']|'')*`: characters other than quotes, and pairs of quotes. */
  predicate Paired(s: string) {
    if s == "" then true
    else if s[0] != '\'' then Paired(s[1..])
    else |s| > 1 && s[1] == '\'' && Paired(s[2..])
  }

  /** The string expression can match with `raw` inside and `rest` left. */
  ghost predicate StringSplit(s: string, raw: string, rest: string) {
    s == raw + ("'" + rest) && Paired(raw)
  }

  lemma {:induction false} MatchedIsSplit(s: string)
    requires MatchString(s).Some?
    ensures StringSplit(s, MatchString(s).value.0, MatchString(s).value.1)
  {
    if s[0] != '\'' {
      MatchedIsSplit(s[1..]);
    } else if |s| > 1 && s[1] == '\'' && MatchString(s[2..]).Some? {
      MatchedIsSplit(s[2..]);
      var raw := "''" + MatchString(s[2..]).value.0;
      assert raw[2..] == MatchString(s[2..]).value.0;
      assert s == "''" + s[2..];
    }
  }

  lemma {:induction false} SplitIsMatched(s: string, raw: string, rest: string)
    requires StringSplit(s, raw, rest)
    ensures MatchString(s).Some? && |raw| <= |MatchString(s).value.0|
  {
    if raw != "" {
      if s[0] != '\'' {
        SplitIsMatched(s[1..], raw[1..], rest);
      } else {
        assert s[2..] == raw[2..] + ("'" + rest);
        SplitIsMatched(s[2..], raw[2..], rest);
      }
    }
  }

  /** The expression matches exactly when some split at a closing quote exists, and then takes
      the longest text inside. */
  lemma MatchStringIsLongest(s: string)
    ensures MatchString(s).Some? <==> exists raw, rest :: StringSplit(s, raw, rest)
    ensures MatchString(s).Some? ==>
              var (raw, rest) := MatchString(s).value;
              StringSplit(s, raw, rest) && forall other, left | StringSplit(s, other, left) :: |other| <= |raw|
  {
    if MatchString(s).Some? {
      MatchedIsSplit(s);
    }
    forall raw, rest | StringSplit(s, raw, rest)
      ensures MatchString(s).Some? && |raw| <= |MatchString(s).value.0|
    {
      SplitIsMatched(s, raw, rest);
    }
  }

  function SplitIdent(s: string): (r: (string, string))
    ensures |r.0| + |r.1| == |s|
  {
    if s == "" || !IsIdentPart(s[0]) then ("", s)
    else
      var tail := SplitIdent(s[1..]);
      ([s[0]] + tail.0, tail.1)
  }

  function Punctuation(c: char): Option<TokenKind> {
    if c == '(' then Some(LeftParen) else if c == ')' then Some(RightParen)
    else if c == ',' then Some(Comma) else None
  }

  /** The next token of a text that does not start with white space. */
  function NextToken(s: string): (r: Option<(Token, string)>)
    requires s != ""
    ensures r.Some? ==> |r.value.1| < |s|
  {
    if s[0] == '\'' then
      (match MatchString(s[1..])
       case Some((raw, rest)) => Some((Token(StringToken, "'" + raw + "'"), rest))
       case None => None)
    else if Punctuation(s[0]).Some? then Some((Token(Punctuation(s[0]).value, [s[0]]), s[1..]))
    else if IsIdentStart(s[0]) then
      var (name, rest) := SplitIdent(s);
      Some((Token(IdentToken, name), rest))
    else match Read(s)
         case Some((p, rest)) => ReadSound(s); Some((Token(NumberToken, Write(p)), rest))
         case None => None
  }

  /** The tokens of `s`, without the end marker. */
  function Lex(s: string): Outcome<seq<Token>>
    decreases |s|
  {
    if s == "" then Ok([])
    else if IsSpace(s[0]) then Lex(s[1..])
    else match NextToken(s)
         case None => Fail(InvalidCharacter)
         case Some((token, rest)) =>
           var tokens :- Lex(rest);
           Ok([token] + tokens)
  }

  /** `finditer` over the filter text; the list ends with the end marker. */
  method Tokenise(source: string) returns (r: Outcome<seq<Token>>)
    ensures r == match Lex(source) case Ok(ts) => Ok(ts + [Token(Eof, "")]) case Fail(c) => Fail(c)
  {
    var tokens := [];
    var rest := source;
    assert Lex(source).Ok? ==> [] + Lex(source).value == Lex(source).value;
    while rest != ""
      invariant Lex(source) == match Lex(rest) case Ok(ts) => Ok(tokens + ts) case Fail(c) => Fail(c)
      decreases |rest|
    {
      if IsSpace(rest[0]) {
        rest := rest[1..];
      } else {
        var next := NextToken(rest);
        if next.None? {
          return Fail(InvalidCharacter);
        }
        assert Lex(rest).Ok? ==> tokens + Lex(rest).value == tokens + [next.value.0] + Lex(next.value.1).value;
        tokens := tokens + [next.value.0];
        rest := next.value.1;
      }
    }
    assert tokens + [] == tokens;
    return Ok(tokens + [Token(Eof, "")]);
  }

  // ---- what the tokeniser makes of well-formed pieces ----

  ghost predicate LexesTo(s: string, tokens: seq<Token>) {
    Lex(s) == Ok(tokens)
  }

  /** Characters that end an identifier, a number and a string alike. */
  predicate Delimited(rest: string) {
    rest != "" ==> rest[0] == ' ' || rest[0] == ')' || rest[0] == ',' || rest[0] == '('
  }

  lemma LexSpace(rest: string, tokens: seq<Token>)
    requires LexesTo(rest, tokens)
    ensures LexesTo(" " + rest, tokens)
  {
    assert (" " + rest)[1..] == rest;
  }

  /** White space before a token does not count. */
  lemma SpaceIsSkipped(c: char, rest: string)
    requires c in " \t\n\r"
    ensures Lex([c] + rest) == Lex(rest)
  {
    assert ([c] + rest)[1..] == rest;
  }

  /** A character that begins no token is refused, whatever follows. */
  lemma StrangeCharacter(c: char, rest: string)
    requires !IsSpace(c) && !IsIdentStart(c) && !IsDigit(c) && c !in "'(),.-"
    ensures Lex([c] + rest) == Fail(InvalidCharacter)
  {
    var s := [c] + rest;
    assert s[0] == c && !IsDigit(s[0]);
    assert forall x | x in "'(),.-" :: x != c;
    assert '\'' in "'(),.-" && '(' in "'(),.-" && ')' in "'(),.-" && ',' in "'(),.-" && '.' in "'(),.-"
           && '-' in "'(),.-";
  }

  lemma LexPunctuation(c: char, rest: string, tokens: seq<Token>)
    requires Punctuation(c).Some? && LexesTo(rest, tokens)
    ensures LexesTo([c] + rest, [Token(Punctuation(c).value, [c])] + tokens)
  {
    assert ([c] + rest)[1..] == rest;
  }

  lemma {:induction false} SplitIdentOf(name: string, rest: string)
    requires forall c | c in name :: IsIdentPart(c)
    requires rest != "" ==> !IsIdentPart(rest[0])
    ensures SplitIdent(name + rest) == (name, rest)
  {
    if name == "" {
      assert name + rest == rest;
    } else {
      assert (name + rest)[1..] == name[1..] + rest;
      SplitIdentOf(name[1..], rest);
      assert [name[0]] + name[1..] == name;
    }
  }

  lemma LexIdent(name: string, rest: string, tokens: seq<Token>)
    requires IsIdentifier(name) && LexesTo(rest, tokens)
    requires rest != "" ==> !IsIdentPart(rest[0])
    ensures LexesTo(name + rest, [Token(IdentToken, name)] + tokens)
  {
    SplitIdentOf(name, rest);
    assert (name + rest)[0] == name[0];
  }

  lemma LexNumber(p: NumberLiteral, rest: string, tokens: seq<Token>)
    requires WellFormed(p) && Delimited(rest) && LexesTo(rest, tokens)
    ensures LexesTo(WriteOnto(p, rest), [Token(NumberToken, Write(p))] + tokens)
  {
    ReadWrite(p, rest);
    var s := WriteOnto(p, rest);
    assert s[0] == '-' || s[0] == '.' || IsDigit(s[0]) by {
      if !p.negative && p.whole != "" {
        assert s[0] == p.whole[0];
      } else if !p.negative {
        assert s == TailOnto(p, rest);
      }
    }
  }

  /** `text.replace("'", "''")`. */
  function Quote(s: string): string {
    if s == "" then "" else (if s[0] == '\'' then "''" else [s[0]]) + Quote(s[1..])
  }

  /** Maximal munch undoes quote doubling: exactly the quoted text is matched. */
  lemma {:induction false} MatchQuoted(text: string, rest: string)
    requires rest != "" ==> rest[0] != '\''
    ensures MatchString(Quote(text) + ("'" + rest)) == Some((Quote(text), rest))
  {
    var s := Quote(text) + ("'" + rest);
    if text == "" {
      assert s == "'" + rest;
    } else {
      var tail := Quote(text[1..]) + ("'" + rest);
      MatchQuoted(text[1..], rest);
      if text[0] == '\'' {
        assert s == "''" + tail;
        assert s[2..] == tail;
      } else {
        assert s == [text[0]] + tail;
        assert s[1..] == tail;
      }
    }
  }

  lemma {:induction false} UnquoteQuote(text: string)
    ensures Unquote(Quote(text)) == text
  {
    if text != "" {
      UnquoteQuote(text[1..]);
      var q := Quote(text);
      if text[0] == '\'' {
        assert q[2..] == Quote(text[1..]);
        assert text == "'" + text[1..];
      } else {
        assert q[1..] == Quote(text[1..]);
        assert text == [text[0]] + text[1..];
      }
    }
  }

  lemma LexString(text: string, rest: string, tokens: seq<Token>)
    requires Delimited(rest) && LexesTo(rest, tokens)
    ensures LexesTo("'" + (Quote(text) + ("'" + rest)),
                    [Token(StringToken, "'" + Quote(text) + "'")] + tokens)
  {
    var s := "'" + (Quote(text) + ("'" + rest));
    MatchQuoted(text, rest);
    assert s[1..] == Quote(text) + ("'" + rest);
  }

  lemma {:induction false} QuoteFree(text: string)
    requires '\'' !in text
    ensures Quote(text) == text
  {
    if text != "" {
      QuoteFree(text[1..]);
      assert text == [text[0]] + text[1..];
    }
  }
}
