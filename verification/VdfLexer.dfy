/** The lexer of Steam's VDF text, and the grammar of the text it accepts. */
module VdfLexing {
  import opened Wrappers

  datatype Token = Text(value: string) | Open | Close

  datatype VdfError =
    | UnsupportedComment
    | NulByte
    | NonAsciiText
    | UnclosedString
    | UnsupportedEscape
    | UnquotedValue
    | UnclosedObject
    | UnexpectedClose
    | KeyNotQuoted
    | KeyWithoutValue
    | DuplicateKey(key: string)
    | TrailingTokens

  /** Space, tab, line feed, form feed and carriage return; not vertical tab. */
  predicate IsAsciiWhitespace(c: char) {
    c == ' ' || c == '\t' || c == '\n' || c == '\U{0C}' || c == '\r'
  }

  predicate IsAscii(c: char) {
    c as int < 128
  }

  // ---------------------------------------------------------------------
  // What each scan does to the text that is left
  // ---------------------------------------------------------------------

  function AfterComment(s: string): (rest: string)
    ensures |rest| <= |s|
  {
    if s == [] || s[0] == '\n' then s else AfterComment(s[1..])
  }

  function SkipLayout(s: string): (r: Result<string, VdfError>)
    ensures r.Ok? ==> |r.value| <= |s|
    decreases |s|
  {
    if s == [] then Ok(s)
    else if IsAsciiWhitespace(s[0]) then SkipLayout(s[1..])
    else if "//" <= s then SkipLayout(AfterComment(s[2..]))
    else if s[0] == '/' then Err(UnsupportedComment)
    else Ok(s)
  }

  function Escaped(s: string): Result<char, VdfError> {
    if s == [] then Err(UnclosedString)
    else if s[0] == '"' || s[0] == '\\' then Ok(s[0])
    else Err(UnsupportedEscape)
  }

  function PrependText(front: string, r: Result<(string, string), VdfError>): (p: Result<(string, string), VdfError>)
    ensures p.Ok? == r.Ok? && (p.Ok? ==> p.value.1 == r.value.1)
  {
    if r.Ok? then Ok((front + r.value.0, r.value.1)) else r
  }

  /** The text up to the closing quote and what follows it. */
  function Quoted(s: string): (r: Result<(string, string), VdfError>)
    ensures r.Ok? ==> |r.value.1| < |s|
    decreases |s|
  {
    if s == [] then Err(UnclosedString)
    else if s[0] == '"' then Ok(([], s[1..]))
    else if s[0] == '\\' then
      var c :- Escaped(s[1..]);
      PrependText([c], Quoted(s[2..]))
    else if s[0] == '\0' then Err(NulByte)
    else if !IsAscii(s[0]) then Err(NonAsciiText)
    else PrependText([s[0]], Quoted(s[1..]))
  }

  /** The token a text starts with and what follows it. */
  function ReadToken(s: string): (r: Result<(Token, string), VdfError>)
    requires s != []
    ensures r.Ok? ==> |r.value.1| < |s|
  {
    if s[0] == '{' then Ok((Open, s[1..]))
    else if s[0] == '}' then Ok((Close, s[1..]))
    else if s[0] == '"' then
      var text :- Quoted(s[1..]);
      Ok((Text(text.0), text.1))
    else Err(UnquotedValue)
  }

  function Prepend(front: seq<Token>, r: Result<seq<Token>, VdfError>): Result<seq<Token>, VdfError> {
    if r.Ok? then Ok(front + r.value) else r
  }

  function Lex(s: string): Result<seq<Token>, VdfError>
    decreases |s|
  {
    var rest :- SkipLayout(s);
    if rest == [] then Ok([])
    else
      var read :- ReadToken(rest);
      Prepend([read.0], Lex(read.1))
  }

  lemma PrependOneMore(front: seq<Token>, token: Token, r: Result<seq<Token>, VdfError>)
    ensures Prepend(front, Prepend([token], r)) == Prepend(front + [token], r)
    ensures Prepend(front, Ok([])) == Ok(front)
    ensures Prepend([], r) == r
  {
    if r.Ok? {
      assert front + ([token] + r.value) == (front + [token]) + r.value;
      assert [] + r.value == r.value;
    }
    assert front + [] == front;
  }

  lemma PrependTextOneMore(front: string, c: char, r: Result<(string, string), VdfError>)
    ensures PrependText(front, PrependText([c], r)) == PrependText(front + [c], r)
    ensures PrependText([], r) == r
  {
    if r.Ok? {
      assert front + ([c] + r.value.0) == (front + [c]) + r.value.0;
      assert [] + r.value.0 == r.value.0;
    }
  }

  // ---------------------------------------------------------------------
  // The lexer
  // ---------------------------------------------------------------------

  class VdfLexer {
    const source: string
    var offset: nat

    constructor (text: string)
      ensures Valid() && source == text && offset == 0
    {
      source := text;
      offset := 0;
    }

    ghost predicate Valid()
      reads this
    {
      offset <= |source|
    }

    /** What is still to be read. */
    ghost function Rest(): string
      reads this
      requires Valid()
    {
      source[offset..]
    }

    method Tokens() returns (r: Result<seq<Token>, VdfError>)
      requires Valid()
      modifies this
      ensures r == old(Lex(Rest()))
    {
      ghost var target := Lex(Rest());
      var tokens: seq<Token> := [];
      PrependOneMore([], Open, target);
      while true
        invariant Valid()
        invariant target == Prepend(tokens, Lex(Rest()))
        decreases |source| - offset
      {
        PrependOneMore(tokens, Open, Ok([]));
        var more :- SkipSpaceAndComments();
        if !more {
          return Ok(tokens);
        }
        var token :- TokenHere();
        PrependOneMore(tokens, token, Lex(Rest()));
        tokens := tokens + [token];
      }
    }

    method TokenHere() returns (r: Result<Token, VdfError>)
      requires Valid() && offset < |source|
      modifies this
      ensures Valid() && old(offset) <= offset
      ensures var read := old(ReadToken(Rest()));
              if read.Err? then r == Err(read.error)
              else r == Ok(read.value.0) && Rest() == read.value.1 && old(offset) < offset
    {
      assert Rest()[1..] == source[offset + 1..];
      if source[offset] == '{' {
        offset := offset + 1;
        return Ok(Open);
      } else if source[offset] == '}' {
        offset := offset + 1;
        return Ok(Close);
      } else if source[offset] == '"' {
        var text :- ReadQuoted();
        return Ok(Text(text));
      }
      r := Err(UnquotedValue);
    }

    method SkipSpaceAndComments() returns (r: Result<bool, VdfError>)
      requires Valid()
      modifies this
      ensures Valid() && old(offset) <= offset
      ensures var rest := old(SkipLayout(Rest()));
              if rest.Err? then r == Err(rest.error) else r == Ok(offset < |source|) && Rest() == rest.value
      ensures r.Ok? ==> SkipLayout(Rest()) == Ok(Rest())
    {
      ghost var target := SkipLayout(Rest());
      while true
        invariant Valid() && old(offset) <= offset
        invariant target == SkipLayout(Rest())
        decreases |source| - offset
      {
        while offset < |source| && IsAsciiWhitespace(source[offset])
          invariant Valid() && old(offset) <= offset
          invariant target == SkipLayout(Rest())
        {
          assert Rest()[1..] == source[offset + 1..];
          offset := offset + 1;
        }
        if offset >= |source| {
          return Ok(false);
        }
        if "//" <= source[offset..] {
          assert Rest()[2..] == source[offset + 2..];
          offset := offset + 2;
          ghost var comment := Rest();
          while offset < |source| && source[offset] != '\n'
            invariant old(offset) <= offset <= |source|
            invariant AfterComment(comment) == AfterComment(Rest())
          {
            assert Rest()[1..] == source[offset + 1..];
            offset := offset + 1;
          }
          continue;
        }
        if source[offset] == '/' {
          return Err(UnsupportedComment);
        }
        return Ok(true);
      }
    }

    /** Called at an opening quote. */
    method ReadQuoted() returns (r: Result<string, VdfError>)
      requires Valid() && offset < |source| && source[offset] == '"'
      modifies this
      ensures Valid() && old(offset) < offset
      ensures var text := old(Quoted(source[offset + 1..]));
              if text.Err? then r == Err(text.error) else r == Ok(text.value.0) && Rest() == text.value.1
    {
      offset := offset + 1;
      ghost var target := Quoted(Rest());
      var result: string := [];
      PrependTextOneMore([], '"', target);
      while offset < |source|
        invariant Valid() && old(offset) < offset
        invariant target == PrependText(result, Quoted(Rest()))
      {
        var byte := source[offset];
        ghost var rest := Rest();
        assert rest[1..] == source[offset + 1..];
        assert result + [] == result;
        offset := offset + 1;
        if byte == '"' {
          return Ok(result);
        } else if byte == '\\' {
          assert offset < |source| ==> rest[2..] == source[offset + 1..];
          var c :- EscapedChar();
          PrependTextOneMore(result, c, Quoted(Rest()));
          result := result + [c];
        } else if byte == '\0' {
          return Err(NulByte);
        } else if IsAscii(byte) {
          PrependTextOneMore(result, byte, Quoted(Rest()));
          result := result + [byte];
        } else {
          return Err(NonAsciiText);
        }
      }
      r := Err(UnclosedString);
    }

    method EscapedChar() returns (r: Result<char, VdfError>)
      requires Valid()
      modifies this
      ensures r == old(Escaped(Rest()))
      ensures Valid() && offset == old(if offset < |source| then offset + 1 else offset)
    {
      if offset >= |source| {
        return Err(UnclosedString);
      }
      var escaped := source[offset];
      offset := offset + 1;
      if escaped == '"' || escaped == '\\' {
        return Ok(escaped);
      }
      r := Err(UnsupportedEscape);
    }
  }
}
