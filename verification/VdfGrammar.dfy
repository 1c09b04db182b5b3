/** A printer for VDF tokens in any layout, and the lexer as its exact inverse. */
module VdfGrammar {
  import opened Wrappers
  import opened VdfLexing

  /** What may stand between two tokens: white space, and comments with their line end. */
  datatype Gap = Blank(c: char) | Comment(text: string) {
    predicate IsValid() {
      match this
      case Blank(c) => IsAsciiWhitespace(c)
      case Comment(text) => '\n' !in text
    }

    function Print(): string {
      match this
      case Blank(c) => [c]
      case Comment(text) => "//" + text + "\n"
    }
  }

  type Layout = seq<Gap>

  predicate LayoutIsValid(layout: Layout) {
    forall gap <- layout :: gap.IsValid()
  }

  function PrintLayout(layout: Layout): string {
    if layout == [] then [] else layout[0].Print() + PrintLayout(layout[1..])
  }

  /** The text may end in a comment that no line end closes. */
  function PrintEnding(ending: Option<string>): string {
    if ending.Some? then "//" + ending.value else []
  }

  predicate EndingIsValid(ending: Option<string>) {
    ending.Some? ==> '\n' !in ending.value
  }

  /** ASCII without NUL: what a quoted text can hold. */
  predicate Printable(text: string) {
    forall c <- text :: IsAscii(c) && c != '\0'
  }

  predicate TokenIsPrintable(token: Token) {
    token.Text? ==> Printable(token.value)
  }

  predicate TokensArePrintable(tokens: seq<Token>) {
    forall token <- tokens :: TokenIsPrintable(token)
  }

  /** Quotes and backslashes are escaped, nothing else is. */
  function EscapeChar(c: char): string {
    if c == '"' || c == '\\' then ['\\', c] else [c]
  }

  function EscapeText(text: string): string {
    if text == [] then [] else EscapeChar(text[0]) + EscapeText(text[1..])
  }

  function PrintToken(token: Token): string {
    match token
    case Text(value) => "\"" + EscapeText(value) + "\""
    case Open => "{"
    case Close => "}"
  }

  /** A layout before each token and one after the last. */
  function PrintTokens(layouts: seq<Layout>, tokens: seq<Token>, ending: Option<string>): string
    requires |layouts| == |tokens| + 1
  {
    PrintLayout(layouts[0]) +
    if tokens == [] then PrintEnding(ending)
    else PrintToken(tokens[0]) + PrintTokens(layouts[1..], tokens[1..], ending)
  }

  predicate IsLayoutOf(layouts: seq<Layout>, tokens: seq<Token>, ending: Option<string>) {
    |layouts| == |tokens| + 1 && (forall layout <- layouts :: LayoutIsValid(layout)) && EndingIsValid(ending)
  }

  /** Some layout of these tokens is exactly this text. */
  ghost predicate Prints(s: string, tokens: seq<Token>) {
    TokensArePrintable(tokens) &&
    exists layouts, ending :: IsLayoutOf(layouts, tokens, ending) && s == PrintTokens(layouts, tokens, ending)
  }

  // ---------------------------------------------------------------------
  // The lexer reads back whatever is printed
  // ---------------------------------------------------------------------

  lemma {:induction false} CommentEnds(text: string, s: string)
    requires '\n' !in text
    ensures AfterComment(text + "\n" + s) == "\n" + s
    ensures AfterComment(text) == []
  {
    if text == [] {
      assert text + "\n" + s == "\n" + s;
    } else {
      assert (text + "\n" + s)[1..] == text[1..] + "\n" + s;
      CommentEnds(text[1..], s);
    }
  }

  lemma GapIsSkipped(gap: Gap, s: string)
    requires gap.IsValid()
    ensures SkipLayout(gap.Print() + s) == SkipLayout(s)
  {
    var whole := gap.Print() + s;
    match gap
    case Blank(c) =>
      assert whole[1..] == s;
    case Comment(text) =>
      assert whole[2..] == text + "\n" + s;
      assert "//" <= whole;
      CommentEnds(text, s);
      assert ("\n" + s)[1..] == s;
  }

  lemma {:induction false} LayoutIsSkipped(layout: Layout, s: string)
    requires LayoutIsValid(layout)
    ensures SkipLayout(PrintLayout(layout) + s) == SkipLayout(s)
  {
    if layout == [] {
      assert PrintLayout(layout) + s == s;
    } else {
      var rest := PrintLayout(layout[1..]) + s;
      assert PrintLayout(layout) + s == layout[0].Print() + rest;
      GapIsSkipped(layout[0], rest);
      LayoutIsSkipped(layout[1..], s);
    }
  }

  /** One printed character is read as itself. */
  lemma QuotedReadsOne(c: char, s: string)
    requires IsAscii(c) && c != '\0'
    ensures Quoted(EscapeChar(c) + s) == PrependText([c], Quoted(s))
  {
    var whole := EscapeChar(c) + s;
    if c == '"' || c == '\\' {
      assert whole[1..] == [c] + s;
      assert whole[2..] == s;
    } else {
      assert whole[1..] == s;
    }
  }

  lemma {:induction false} QuotedReadsEscaped(text: string, s: string)
    requires Printable(text)
    ensures Quoted(EscapeText(text) + "\"" + s) == Ok((text, s))
  {
    var whole := EscapeText(text) + "\"" + s;
    if text == [] {
      assert whole[1..] == s;
    } else {
      var rest := EscapeText(text[1..]) + "\"" + s;
      assert whole == EscapeChar(text[0]) + rest;
      QuotedReadsOne(text[0], rest);
      QuotedReadsEscaped(text[1..], s);
      assert [text[0]] + text[1..] == text;
    }
  }

  lemma TextIsReadBack(text: string, s: string)
    requires Printable(text)
    ensures var whole := PrintToken(Text(text)) + s;
            && whole[0] == '"' && SkipLayout(whole) == Ok(whole)
            && ReadToken(whole) == Ok((Text(text), s))
  {
    var quoted := EscapeText(text) + "\"" + s;
    var whole := PrintToken(Text(text)) + s;
    assert whole == ['"'] + quoted;
    assert whole[1..] == quoted;
    QuotedReadsEscaped(text, s);
  }

  lemma TokenIsReadBack(token: Token, s: string)
    requires TokenIsPrintable(token)
    ensures SkipLayout(PrintToken(token) + s) == Ok(PrintToken(token) + s)
    ensures ReadToken(PrintToken(token) + s) == Ok((token, s))
  {
    if token.Text? {
      TextIsReadBack(token.value, s);
    } else {
      assert (PrintToken(token) + s)[1..] == s;
    }
  }

  lemma EndingIsSkipped(ending: Option<string>)
    requires EndingIsValid(ending)
    ensures SkipLayout(PrintEnding(ending)) == Ok([])
  {
    if ending.Some? {
      assert PrintEnding(ending)[2..] == ending.value;
      assert "//" <= PrintEnding(ending);
      CommentEnds(ending.value, []);
    }
  }

  /** Whatever the layout, lexing a printed token list gives the tokens back. */
  lemma {:induction false} LexReadsPrinted(layouts: seq<Layout>, tokens: seq<Token>, ending: Option<string>)
    requires IsLayoutOf(layouts, tokens, ending) && TokensArePrintable(tokens)
    ensures Lex(PrintTokens(layouts, tokens, ending)) == Ok(tokens)
    decreases |tokens|
  {
    if tokens == [] {
      LayoutIsSkipped(layouts[0], PrintEnding(ending));
      EndingIsSkipped(ending);
    } else {
      var more := PrintTokens(layouts[1..], tokens[1..], ending);
      LayoutIsSkipped(layouts[0], PrintToken(tokens[0]) + more);
      TokenIsReadBack(tokens[0], more);
      LexReadsPrinted(layouts[1..], tokens[1..], ending);
      assert [tokens[0]] + tokens[1..] == tokens;
    }
  }

  // ---------------------------------------------------------------------
  // The lexer accepts nothing else
  // ---------------------------------------------------------------------

  lemma {:induction false} CommentText(s: string) returns (text: string)
    ensures '\n' !in text && s == text + AfterComment(s)
    ensures AfterComment(s) == [] || AfterComment(s)[0] == '\n'
  {
    if s == [] || s[0] == '\n' {
      text := [];
      assert s == [] + s;
    } else {
      var more := CommentText(s[1..]);
      text := [s[0]] + more;
      assert s == [s[0]] + s[1..];
    }
  }

  lemma CommentIsSkipped(s: string)
    requires "//" <= s
    ensures SkipLayout(s) == SkipLayout(AfterComment(s[2..]))
    ensures s == "//" + s[2..]
  {
  }

  lemma LineEndIsSkipped(s: string)
    requires s != [] && s[0] == '\n'
    ensures SkipLayout(s) == SkipLayout(s[1..]) && s == ['\n'] + s[1..]
  {
  }

  lemma CommentOf(s: string) returns (text: string)
    requires "//" <= s
    ensures '\n' !in text
    ensures var after := AfterComment(s[2..]);
            if after == [] then s == PrintEnding(Some(text)) && SkipLayout(s) == Ok([])
            else s == Comment(text).Print() + after[1..] && SkipLayout(s) == SkipLayout(after[1..])
  {
    text := CommentText(s[2..]);
    var after := AfterComment(s[2..]);
    CommentIsSkipped(s);
    if after == [] {
      assert text + after == text;
    } else {
      LineEndIsSkipped(after);
      Joined("//", text, ['\n'], after[1..]);
    }
  }

  lemma Joined(a: string, b: string, c: string, d: string)
    ensures a + (b + (c + d)) == ((a + b) + c) + d
  {
  }

  lemma LayoutPlusOne(gap: Gap, layout: Layout, s: string)
    ensures PrintLayout([gap] + layout) + s == gap.Print() + (PrintLayout(layout) + s)
  {
    assert ([gap] + layout)[1..] == layout;
  }

  lemma {:induction false} SkippedIsLayout(s: string) returns (layout: Layout, ending: Option<string>)
    requires SkipLayout(s).Ok?
    ensures LayoutIsValid(layout) && EndingIsValid(ending)
    ensures s == PrintLayout(layout) + (PrintEnding(ending) + SkipLayout(s).value)
    ensures ending.Some? ==> SkipLayout(s).value == []
    decreases |s|
  {
    if s == [] {
      layout, ending := [], None;
    } else if IsAsciiWhitespace(s[0]) {
      var more;
      more, ending := SkippedIsLayout(s[1..]);
      layout := [Blank(s[0])] + more;
      LayoutPlusOne(Blank(s[0]), more, PrintEnding(ending) + SkipLayout(s).value);
      assert s == [s[0]] + s[1..];
    } else if "//" <= s {
      var text := CommentOf(s);
      var after := AfterComment(s[2..]);
      if after == [] {
        layout, ending := [], Some(text);
      } else {
        var more;
        more, ending := SkippedIsLayout(after[1..]);
        layout := [Comment(text)] + more;
        LayoutPlusOne(Comment(text), more, PrintEnding(ending) + SkipLayout(s).value);
      }
    } else {
      layout, ending := [], None;
      assert s == PrintLayout([]) + (PrintEnding(None) + s);
    }
  }

  lemma {:induction false} QuotedIsEscaped(s: string)
    requires Quoted(s).Ok?
    ensures Printable(Quoted(s).value.0)
    ensures s == EscapeText(Quoted(s).value.0) + "\"" + Quoted(s).value.1
    decreases |s|
  {
    var (text, rest) := Quoted(s).value;
    if s[0] == '"' {
      assert s == [s[0]] + s[1..];
    } else if s[0] == '\\' {
      assert s[1..][0] == s[1];
      QuotedIsEscaped(s[2..]);
      assert text[1..] == Quoted(s[2..]).value.0;
      assert s == ['\\', s[1]] + s[2..];
    } else {
      QuotedIsEscaped(s[1..]);
      assert text[1..] == Quoted(s[1..]).value.0;
      assert s == [s[0]] + s[1..];
    }
  }

  lemma ReadTokenIsPrinted(s: string)
    requires s != [] && ReadToken(s).Ok?
    ensures TokenIsPrintable(ReadToken(s).value.0)
    ensures s == PrintToken(ReadToken(s).value.0) + ReadToken(s).value.1
  {
    assert s == [s[0]] + s[1..];
    if s[0] == '"' {
      QuotedIsEscaped(s[1..]);
    }
  }

  lemma {:induction false} LexedIsPrinted(s: string) returns (layouts: seq<Layout>, ending: Option<string>)
    requires Lex(s).Ok?
    ensures TokensArePrintable(Lex(s).value)
    ensures IsLayoutOf(layouts, Lex(s).value, ending)
    ensures s == PrintTokens(layouts, Lex(s).value, ending)
    decreases |s|
  {
    var layout;
    layout, ending := SkippedIsLayout(s);
    var rest := SkipLayout(s).value;
    if rest == [] {
      layouts := [layout];
      assert PrintEnding(ending) + rest == PrintEnding(ending);
    } else {
      var (token, after) := ReadToken(rest).value;
      ReadTokenIsPrinted(rest);
      var more;
      more, ending := LexedIsPrinted(after);
      layouts := [layout] + more;
      assert layouts[1..] == more;
      assert Lex(s).value == [token] + Lex(after).value;
      assert Lex(s).value[1..] == Lex(after).value;
      assert PrintEnding(None) + rest == rest;
    }
  }

  /** The language of the lexer: a text lexes to tokens exactly when it is a layout of them. */
  lemma LexerAcceptsExactlyThePrinted(s: string, tokens: seq<Token>)
    ensures Lex(s) == Ok(tokens) <==> Prints(s, tokens)
  {
    if Lex(s) == Ok(tokens) {
      var layouts, ending := LexedIsPrinted(s);
      assert Prints(s, tokens);
    }
    if Prints(s, tokens) {
      var layouts, ending :| IsLayoutOf(layouts, tokens, ending) && s == PrintTokens(layouts, tokens, ending);
      LexReadsPrinted(layouts, tokens, ending);
    }
  }
}
