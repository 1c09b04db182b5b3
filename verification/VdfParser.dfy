/** The recursive-descent parser over VDF tokens, and what it means. */
module VdfParsing {
  import opened Wrappers
  import opened VdfLexing

  datatype Value = Str(text: string) | Object(fields: Fields)

  type Fields = map<string, Value>

  type Parsed = Result<(Fields, seq<Token>), VdfError>

  /**
   * Reads fields into `into` until the closing brace, or until the tokens end
   * at the top level; also gives the tokens left.
   */
  function ParseFields(tokens: seq<Token>, into: Fields, expectClose: bool): (r: Parsed)
    ensures r.Ok? ==> |r.value.1| <= |tokens| && (expectClose ==> |r.value.1| < |tokens|) && (!expectClose ==> r.value.1 == [])
    decreases |tokens|
  {
    if tokens == [] then
      if expectClose then Err(UnclosedObject) else Ok((into, []))
    else
      match tokens[0]
      case Close => if expectClose then Ok((into, tokens[1..])) else Err(UnexpectedClose)
      case Open => Err(KeyNotQuoted)
      case Text(key) =>
        var field :- ParseValue(tokens[1..]);
        if key in into then Err(DuplicateKey(key))
        else ParseFields(field.1, into[key := field.0], expectClose)
  }

  function ParseValue(tokens: seq<Token>): (r: Result<(Value, seq<Token>), VdfError>)
    ensures r.Ok? ==> |r.value.1| < |tokens|
    decreases |tokens|
  {
    if tokens == [] then Err(KeyWithoutValue)
    else
      match tokens[0]
      case Text(text) => Ok((Str(text), tokens[1..]))
      case Open =>
        var inner :- ParseFields(tokens[1..], map[], true);
        Ok((Object(inner.0), inner.1))
      case Close => Err(KeyWithoutValue)
  }

  function Parse(tokens: seq<Token>): Result<Fields, VdfError> {
    var r :- ParseFields(tokens, map[], false);
    Ok(r.0)
  }

  function ParseVdf(text: string): Result<Fields, VdfError> {
    var tokens :- Lex(text);
    Parse(tokens)
  }

  // ---------------------------------------------------------------------
  // The parser
  // ---------------------------------------------------------------------

  class TokenReader {
    const tokens: seq<Token>
    var cursor: nat

    constructor (tokens: seq<Token>)
      ensures Valid() && this.tokens == tokens && cursor == 0
    {
      this.tokens := tokens;
      cursor := 0;
    }

    ghost predicate Valid()
      reads this
    {
      cursor <= |tokens|
    }

    ghost function Rest(): seq<Token>
      reads this
      requires Valid()
    {
      tokens[cursor..]
    }

    method ParseObject(expectClose: bool) returns (r: Result<Fields, VdfError>)
      requires Valid()
      modifies this
      ensures Valid() && old(cursor) <= cursor
      ensures var parsed := old(ParseFields(Rest(), map[], expectClose));
              if parsed.Err? then r == Err(parsed.error) else r == Ok(parsed.value.0) && Rest() == parsed.value.1
      decreases |tokens| - cursor
    {
      ghost var target := ParseFields(Rest(), map[], expectClose);
      var into: Fields := map[];
      while true
        invariant Valid() && old(cursor) <= cursor
        invariant target == ParseFields(Rest(), into, expectClose)
        decreases |tokens| - cursor
      {
        if cursor == |tokens| {
          return if expectClose then Err(UnclosedObject) else Ok(into);
        }
        ghost var rest := Rest();
        assert rest[1..] == tokens[cursor + 1..];
        if tokens[cursor] == Close {
          if !expectClose {
            return Err(UnexpectedClose);
          }
          cursor := cursor + 1;
          return Ok(into);
        }
        if tokens[cursor].Open? {
          return Err(KeyNotQuoted);
        }
        var key := tokens[cursor].value;
        cursor := cursor + 1;
        var value :- ReadValue();
        if key in into {
          return Err(DuplicateKey(key));
        }
        into := into[key := value];
      }
    }

    /** The value after a key: a text, or an object up to its closing brace. */
    method ReadValue() returns (r: Result<Value, VdfError>)
      requires Valid()
      modifies this
      ensures Valid() && old(cursor) <= cursor
      ensures var parsed := old(ParseValue(Rest()));
              if parsed.Err? then r == Err(parsed.error) else r == Ok(parsed.value.0) && Rest() == parsed.value.1
      decreases |tokens| - cursor
    {
      if cursor == |tokens| {
        return Err(KeyWithoutValue);
      }
      assert Rest()[1..] == tokens[cursor + 1..];
      match tokens[cursor] {
        case Text(text) =>
          cursor := cursor + 1;
          r := Ok(Str(text));
        case Open =>
          cursor := cursor + 1;
          var inner :- ParseObject(true);
          r := Ok(Object(inner));
        case Close =>
          r := Err(KeyWithoutValue);
      }
    }
  }

  method ParseVdfText(text: string) returns (r: Result<Fields, VdfError>)
    ensures r == ParseVdf(text)
  {
    var lexer := new VdfLexer(text);
    assert lexer.Rest() == text;
    var tokens :- lexer.Tokens();
    var reader := new TokenReader(tokens);
    assert reader.Rest() == tokens;
    var into :- reader.ParseObject(false);
    if reader.cursor != |tokens| {
      return Err(TrailingTokens);
    }
    r := Ok(into);
  }

  // ---------------------------------------------------------------------
  // Ordered trees and their token lists
  // ---------------------------------------------------------------------

  /** A tree as a text writes it: fields in order. */
  datatype Ordered = Leaf(text: string) | Node(entries: seq<Entry>)
  datatype Entry = Entry(key: string, value: Ordered)

  function FlattenValue(v: Ordered): seq<Token> {
    match v
    case Leaf(text) => [Text(text)]
    case Node(entries) => [Open] + Flatten(entries) + [Close]
  }

  function Flatten(entries: seq<Entry>): seq<Token> {
    if entries == [] then []
    else [Text(entries[0].key)] + (FlattenValue(entries[0].value) + Flatten(entries[1..]))
  }

  predicate HasKey(entries: seq<Entry>, key: string) {
    exists e <- entries :: e.key == key
  }

  /** No key occurs twice in one object, at any level. */
  predicate KeysAreDistinct(entries: seq<Entry>) {
    entries != [] ==>
      && !HasKey(entries[1..], entries[0].key)
      && ValueKeysAreDistinct(entries[0].value)
      && KeysAreDistinct(entries[1..])
  }

  predicate ValueKeysAreDistinct(v: Ordered) {
    v.Node? ==> KeysAreDistinct(v.entries)
  }

  /** The tree without its order. */
  function UnorderedValue(v: Ordered): Value {
    match v
    case Leaf(text) => Str(text)
    case Node(entries) => Object(Unordered(entries))
  }

  function Unordered(entries: seq<Entry>): Fields {
    if entries == [] then map[]
    else Unordered(entries[1..])[entries[0].key := UnorderedValue(entries[0].value)]
  }

  lemma {:induction false} UnorderedKeys(entries: seq<Entry>, key: string)
    ensures key in Unordered(entries) <==> HasKey(entries, key)
  {
    if entries != [] {
      UnorderedKeys(entries[1..], key);
      assert forall e :: e in entries <==> e == entries[0] || e in entries[1..];
    }
  }

  predicate NoKeyIn(entries: seq<Entry>, into: Fields) {
    forall e <- entries :: e.key !in into
  }

  /** Parsing what is flattened restores the tree and stops right after it. */
  lemma {:induction false} FieldsReadFlattened(entries: seq<Entry>, into: Fields, expectClose: bool, rest: seq<Token>)
    requires KeysAreDistinct(entries) && NoKeyIn(entries, into)
    requires if expectClose then rest != [] && rest[0] == Close else rest == []
    ensures ParseFields(Flatten(entries) + rest, into, expectClose)
              == Ok((into + Unordered(entries), if expectClose then rest[1..] else []))
    decreases entries
  {
    if entries == [] {
      assert Flatten(entries) + rest == rest;
      assert into + Unordered(entries) == into;
    } else {
      var e := entries[0];
      var more := Flatten(entries[1..]) + rest;
      ValueReadsFlattened(e.value, more);
      assert e in entries;
      var next := into[e.key := UnorderedValue(e.value)];
      assert NoKeyIn(entries[1..], next);
      FieldsReadFlattened(entries[1..], next, expectClose, rest);
      FirstFieldIsRead(e, entries[1..], into, expectClose, rest);
      assert entries == [e] + entries[1..];
      UnorderedKeys(entries[1..], e.key);
      assert next + Unordered(entries[1..]) == into + Unordered(entries);
    }
  }

  /** Reading the first flattened field leaves the rest to be read. */
  lemma FirstFieldIsRead(e: Entry, entries: seq<Entry>, into: Fields, expectClose: bool, rest: seq<Token>)
    requires e.key !in into
    requires ParseValue(FlattenValue(e.value) + (Flatten(entries) + rest)) == Ok((UnorderedValue(e.value), Flatten(entries) + rest))
    ensures ParseFields(Flatten([e] + entries) + rest, into, expectClose)
              == ParseFields(Flatten(entries) + rest, into[e.key := UnorderedValue(e.value)], expectClose)
  {
    assert ([e] + entries)[1..] == entries;
    Regroup(Text(e.key), FlattenValue(e.value), Flatten(entries), rest);
    var field := FlattenValue(e.value) + (Flatten(entries) + rest);
    var tokens := [Text(e.key)] + field;
    assert Flatten([e] + entries) + rest == tokens;
    assert tokens[1..] == field;
  }

  lemma {:induction false} ValueReadsFlattened(v: Ordered, rest: seq<Token>)
    requires ValueKeysAreDistinct(v)
    ensures ParseValue(FlattenValue(v) + rest) == Ok((UnorderedValue(v), rest))
    decreases v, 0
  {
    var tokens := FlattenValue(v) + rest;
    match v
    case Leaf(_) =>
      assert tokens[1..] == rest;
    case Node(entries) =>
      assert tokens[1..] == Flatten(entries) + ([Close] + rest);
      FieldsReadFlattened(entries, map[], true, [Close] + rest);
      assert map[] + Unordered(entries) == Unordered(entries);
      assert ([Close] + rest)[1..] == rest;
  }

  lemma Regroup(head: Token, value: seq<Token>, more: seq<Token>, tail: seq<Token>)
    ensures ([head] + (value + more)) + tail == [head] + (value + (more + tail))
  {
  }

  lemma SameTail(h: Token, s: seq<Token>, k: Token, t: seq<Token>)
    requires [h] + s == [k] + t
    ensures h == k && s == t
  {
    assert ([h] + s)[0] == h && ([k] + t)[0] == k;
    assert ([h] + s)[1..] == s && ([k] + t)[1..] == t;
  }

  lemma OneMoreEntry(key: string, v: Ordered, more: seq<Entry>, into: Fields)
    requires key !in into && ValueKeysAreDistinct(v)
    requires KeysAreDistinct(more) && NoKeyIn(more, into[key := UnorderedValue(v)])
    ensures var entries := [Entry(key, v)] + more;
            && KeysAreDistinct(entries) && NoKeyIn(entries, into)
            && into[key := UnorderedValue(v)] + Unordered(more) == into + Unordered(entries)
            && Flatten(entries) == [Text(key)] + (FlattenValue(v) + Flatten(more))
  {
    var entries := [Entry(key, v)] + more;
    assert entries[1..] == more;
    assert !HasKey(more, key) by {
      assert forall e <- more :: e.key !in into[key := UnorderedValue(v)];
    }
    UnorderedKeys(more, key);
    assert forall e <- entries :: e == entries[0] || e in more;
  }

  /** What parses is the flattening of an ordered tree without duplicate keys. */
  lemma {:induction false} ParsedFieldsAreFlattened(tokens: seq<Token>, into: Fields, expectClose: bool)
    returns (entries: seq<Entry>)
    requires ParseFields(tokens, into, expectClose).Ok?
    ensures var (parsed, rest) := ParseFields(tokens, into, expectClose).value;
            && KeysAreDistinct(entries) && NoKeyIn(entries, into)
            && parsed == into + Unordered(entries)
            && tokens == Flatten(entries) + (if expectClose then [Close] + rest else [])
    decreases |tokens|
  {
    if tokens == [] || tokens[0] == Close {
      entries := [];
      assert into + Unordered(entries) == into;
      assert tokens != [] ==> tokens == [tokens[0]] + tokens[1..];
    } else {
      var key := tokens[0].value;
      var (value, after) := ParseValue(tokens[1..]).value;
      var v := ParsedValueIsFlattened(tokens[1..]);
      var more := ParsedFieldsAreFlattened(after, into[key := value], expectClose);
      OneMoreEntry(key, v, more, into);
      entries := [Entry(key, v)] + more;
      var rest := ParseFields(tokens, into, expectClose).value.1;
      var tail := if expectClose then [Close] + rest else [];
      assert after == Flatten(more) + tail;
      assert tokens == [tokens[0]] + tokens[1..];
      Regroup(Text(key), FlattenValue(v), Flatten(more), tail);
    }
  }

  lemma {:induction false} ParsedValueIsFlattened(tokens: seq<Token>) returns (v: Ordered)
    requires ParseValue(tokens).Ok?
    ensures ValueKeysAreDistinct(v) && ParseValue(tokens).value.0 == UnorderedValue(v)
    ensures tokens == FlattenValue(v) + ParseValue(tokens).value.1
    decreases |tokens|
  {
    assert tokens == [tokens[0]] + tokens[1..];
    if tokens[0].Text? {
      v := Leaf(tokens[0].value);
    } else {
      var entries := ParsedFieldsAreFlattened(tokens[1..], map[], true);
      v := Node(entries);
      assert map[] + Unordered(entries) == Unordered(entries);
    }
  }

  /** An ordered tree without duplicate keys whose tokens these are and whose unordered form is t. */
  ghost predicate Writes(tokens: seq<Token>, t: Fields) {
    exists entries :: KeysAreDistinct(entries) && Flatten(entries) == tokens && Unordered(entries) == t
  }

  /** The parser accepts exactly the flattened trees without duplicate keys, as their unordered form. */
  lemma ParserAcceptsExactlyTheFlattened(tokens: seq<Token>, t: Fields)
    ensures Parse(tokens) == Ok(t) <==> Writes(tokens, t)
  {
    if Parse(tokens) == Ok(t) {
      var entries := ParsedFieldsAreFlattened(tokens, map[], false);
      assert map[] + Unordered(entries) == Unordered(entries);
      assert Flatten(entries) + [] == Flatten(entries);
    }
    if Writes(tokens, t) {
      var entries :| KeysAreDistinct(entries) && Flatten(entries) == tokens && Unordered(entries) == t;
      FieldsReadFlattened(entries, map[], false, []);
      assert map[] + Unordered(entries) == Unordered(entries);
      assert Flatten(entries) + [] == tokens;
    }
  }

  // ---------------------------------------------------------------------
  // A token list is at most one ordered tree
  // ---------------------------------------------------------------------

  lemma FlattenedHead(a: seq<Entry>, x: seq<Token>)
    ensures if a == [] then Flatten(a) + x == x
            else Flatten(a) + x == [Text(a[0].key)] + (FlattenValue(a[0].value) + (Flatten(a[1..]) + x))
  {
    if a == [] {
      assert Flatten(a) + x == x;
    } else {
      Regroup(Text(a[0].key), FlattenValue(a[0].value), Flatten(a[1..]), x);
    }
  }

  lemma {:induction false} FlattenIsInjective(a: seq<Entry>, b: seq<Entry>, x: seq<Token>, y: seq<Token>)
    requires Flatten(a) + x == Flatten(b) + y
    requires x == [] || x[0] == Close
    requires y == [] || y[0] == Close
    ensures a == b && x == y
    decreases a
  {
    FlattenedHead(a, x);
    FlattenedHead(b, y);
    if a != [] && b != [] {
      var left := FlattenValue(a[0].value) + (Flatten(a[1..]) + x);
      var right := FlattenValue(b[0].value) + (Flatten(b[1..]) + y);
      assert [Text(a[0].key)] + left == [Text(b[0].key)] + right;
      SameTail(Text(a[0].key), left, Text(b[0].key), right);
      ValueFlattenIsInjective(a[0].value, b[0].value, Flatten(a[1..]) + x, Flatten(b[1..]) + y);
      FlattenIsInjective(a[1..], b[1..], x, y);
      assert a == [a[0]] + a[1..] && b == [b[0]] + b[1..];
    }
  }

  lemma {:induction false} ValueFlattenIsInjective(v: Ordered, w: Ordered, x: seq<Token>, y: seq<Token>)
    requires FlattenValue(v) + x == FlattenValue(w) + y
    ensures v == w && x == y
    decreases v, 0
  {
    var left, right := FlattenValue(v) + x, FlattenValue(w) + y;
    assert left[0] == right[0];
    if v.Leaf? {
      assert left[1..] == x && right[1..] == y;
    } else {
      assert left[1..] == Flatten(v.entries) + ([Close] + x);
      assert right[1..] == Flatten(w.entries) + ([Close] + y);
      FlattenIsInjective(v.entries, w.entries, [Close] + x, [Close] + y);
      assert ([Close] + x)[1..] == x && ([Close] + y)[1..] == y;
    }
  }

  /** A well-formed token list with a duplicate key somewhere is refused, whatever the duplicates hold. */
  lemma DuplicateKeysAreRefused(entries: seq<Entry>)
    ensures Parse(Flatten(entries)).Ok? <==> KeysAreDistinct(entries)
  {
    var tokens := Flatten(entries);
    if Parse(tokens).Ok? {
      ParserAcceptsExactlyTheFlattened(tokens, Parse(tokens).value);
      var read :| KeysAreDistinct(read) && Flatten(read) == tokens && Unordered(read) == Parse(tokens).value;
      FlattenIsInjective(read, entries, [], []);
    }
    if KeysAreDistinct(entries) {
      assert Writes(tokens, Unordered(entries));
      ParserAcceptsExactlyTheFlattened(tokens, Unordered(entries));
    }
  }
}
