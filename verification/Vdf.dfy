/** Whole VDF texts: parsing undoes printing, and the two questions asked of a text. */
module Vdf {
  import opened Wrappers
  import opened VdfLexing
  import opened VdfGrammar
  import opened VdfParsing
  import opened Sorting

  const CS2_APP_ID := "730"

  // ---------------------------------------------------------------------
  // Round trip
  // ---------------------------------------------------------------------

  predicate ValueIsPrintable(v: Value) {
    match v
    case Str(text) => Printable(text)
    case Object(fields) => forall key <- fields :: Printable(key) && ValueIsPrintable(fields[key])
  }

  predicate IsPrintable(t: Fields) {
    ValueIsPrintable(Object(t))
  }

  lemma {:induction false} PrintableTreesFlattenPrintably(entries: seq<Entry>)
    requires KeysAreDistinct(entries)
    ensures TokensArePrintable(Flatten(entries)) <==> IsPrintable(Unordered(entries))
    decreases entries
  {
    if entries != [] {
      var e, more := entries[0], entries[1..];
      PrintableValuesFlattenPrintably(e.value);
      PrintableTreesFlattenPrintably(more);
      UnorderedKeys(more, e.key);
      var t, rest := Unordered(entries), Unordered(more);
      assert forall key <- rest :: key != e.key && t[key] == rest[key];
      assert t.Keys == rest.Keys + {e.key};
      assert t[e.key] == UnorderedValue(e.value);
      assert e.key in t;
      assert forall token :: token in Flatten(entries) <==>
               token == Text(e.key) || token in FlattenValue(e.value) || token in Flatten(more);
      assert Text(e.key) in Flatten(entries);
    }
  }

  lemma {:induction false} PrintableValuesFlattenPrintably(v: Ordered)
    requires ValueKeysAreDistinct(v)
    ensures TokensArePrintable(FlattenValue(v)) <==> ValueIsPrintable(UnorderedValue(v))
    decreases v, 0
  {
    match v
    case Leaf(text) =>
      assert Text(text) in FlattenValue(v);
    case Node(entries) =>
      PrintableTreesFlattenPrintably(entries);
      assert forall token :: token in FlattenValue(v) <==> token == Open || token == Close || token in Flatten(entries);
  }

  /** The text of an ordered tree in some layout. */
  function Print(entries: seq<Entry>, layouts: seq<Layout>, ending: Option<string>): string
    requires |layouts| == |Flatten(entries)| + 1
  {
    PrintTokens(layouts, Flatten(entries), ending)
  }

  /** This text writes t, in some order of its fields and in some layout. */
  ghost predicate Denotes(s: string, t: Fields) {
    exists entries, layouts, ending ::
      && KeysAreDistinct(entries) && Unordered(entries) == t
      && IsLayoutOf(layouts, Flatten(entries), ending)
      && s == Print(entries, layouts, ending)
  }

  /** Printing in any field order and any layout, then parsing, returns the tree. */
  lemma ParseUndoesPrint(t: Fields, entries: seq<Entry>, layouts: seq<Layout>, ending: Option<string>)
    requires IsPrintable(t)
    requires KeysAreDistinct(entries) && Unordered(entries) == t
    requires IsLayoutOf(layouts, Flatten(entries), ending)
    ensures ParseVdf(Print(entries, layouts, ending)) == Ok(t)
  {
    PrintableTreesFlattenPrintably(entries);
    LexReadsPrinted(layouts, Flatten(entries), ending);
    assert Writes(Flatten(entries), t);
    ParserAcceptsExactlyTheFlattened(Flatten(entries), t);
  }

  /** The whole language: exactly the printed trees parse, and to the tree printed. */
  lemma ParserAcceptsExactlyThePrinted(s: string, t: Fields)
    ensures ParseVdf(s) == Ok(t) <==> IsPrintable(t) && Denotes(s, t)
  {
    if ParseVdf(s) == Ok(t) {
      var tokens := Lex(s).value;
      var layouts, ending := LexedIsPrinted(s);
      ParserAcceptsExactlyTheFlattened(tokens, t);
      var entries :| KeysAreDistinct(entries) && Flatten(entries) == tokens && Unordered(entries) == t;
      PrintableTreesFlattenPrintably(entries);
      assert s == Print(entries, layouts, ending);
    }
    if IsPrintable(t) && Denotes(s, t) {
      var entries, layouts, ending :|
        && KeysAreDistinct(entries) && Unordered(entries) == t
        && IsLayoutOf(layouts, Flatten(entries), ending)
        && s == Print(entries, layouts, ending);
      ParseUndoesPrint(t, entries, layouts, ending);
    }
  }

  /** Every tree has an order to be written in. */
  lemma {:induction false} EveryObjectHasAnOrder(v: Value, keys: set<string>) returns (entries: seq<Entry>)
    requires v.Object? && keys <= v.fields.Keys
    ensures KeysAreDistinct(entries)
    ensures Unordered(entries) == map key | key in keys :: v.fields[key]
    decreases v, |keys|
  {
    if keys == {} {
      entries := [];
    } else {
      var key :| key in keys;
      var more := EveryObjectHasAnOrder(v, keys - {key});
      var value;
      match v.fields[key] {
        case Str(text) =>
          value := Leaf(text);
        case Object(fields) =>
          var inner := EveryObjectHasAnOrder(v.fields[key], fields.Keys);
          assert Unordered(inner) == fields;
          value := Node(inner);
      }
      entries := [Entry(key, value)] + more;
      assert entries[1..] == more;
      UnorderedKeys(more, key);
    }
  }

  lemma EveryPrintableTreeHasAText(t: Fields)
    requires IsPrintable(t)
    ensures exists s :: ParseVdf(s) == Ok(t)
  {
    var entries := EveryObjectHasAnOrder(Object(t), t.Keys);
    assert Unordered(entries) == t;
    var layouts: seq<Layout> := seq(|Flatten(entries)| + 1, _ => []);
    ParseUndoesPrint(t, entries, layouts, None);
  }

  // ---------------------------------------------------------------------
  // Library folders and the app manifest
  // ---------------------------------------------------------------------

  function PathOf(library: Value): Option<string> {
    match library
    case Str(path) => Some(path)
    case Object(fields) =>
      if "path" in fields && fields["path"].Str? then Some(fields["path"].text) else None
  }

  function PathsOf(libraries: Fields, keys: seq<string>): seq<string>
    requires forall key <- keys :: key in libraries
  {
    if keys == [] then []
    else (match PathOf(libraries[keys[0]]) case Some(path) => [path] case None => []) + PathsOf(libraries, keys[1..])
  }

  ghost function Elements(keys: set<string>): (s: seq<string>)
    ensures forall key :: key in s <==> key in keys
    ensures KeysAreUnique(SelfKey, s)
  {
    if keys == {} then []
    else
      var key :| key in keys;
      [key] + Elements(keys - {key})
  }

  function SelfKey(key: string): string {
    key
  }

  /** The keys in the order a `BTreeMap` visits them. */
  ghost function KeyOrder(keys: set<string>): seq<string> {
    SortedBy(SelfKey, Elements(keys))
  }

  lemma KeyOrderIsStrict(keys: set<string>)
    ensures StrictlyAscending(SelfKey, KeyOrder(keys))
    ensures forall key :: key in KeyOrder(keys) <==> key in keys
  {
    var s := Elements(keys);
    SortIsAnAscendingPermutation(SelfKey, s);
    UniqueKeysAreUniqueInAnyOrder(SelfKey, s, KeyOrder(keys));
    StrictIsUnique(SelfKey, KeyOrder(keys));
    assert forall key :: key in KeyOrder(keys) <==> key in multiset(KeyOrder(keys));
    assert forall key :: key in s <==> key in multiset(s);
  }

  ghost function LibraryPaths(text: string): Result<seq<string>, VdfError> {
    var root :- ParseVdf(text);
    if "libraryfolders" in root && root["libraryfolders"].Object? then
      var libraries := root["libraryfolders"].fields;
      KeyOrderIsStrict(libraries.Keys);
      Ok(PathsOf(libraries, KeyOrder(libraries.Keys)))
    else Ok([])
  }

  predicate AppManifestIsCs2(text: string) {
    var root := ParseVdf(text);
    && root.Ok?
    && "AppState" in root.value && root.value["AppState"].Object?
    && var state := root.value["AppState"].fields;
       "appid" in state && state["appid"] == Str(CS2_APP_ID)
  }

  function EntryKey(e: Entry): string {
    e.key
  }

  /** A library written as a text is its path; one written as an object holds it under "path". */
  predicate Gives(library: Ordered, path: string) {
    library == Leaf(path) || (library.Node? && Entry("path", Leaf(path)) in library.entries)
  }

  /** The paths the libraries give, in their order; a library that gives none adds nothing. */
  ghost predicate AreTheGivenPaths(libraries: seq<Entry>, paths: seq<string>) {
    if libraries == [] then paths == []
    else
      || (paths != [] && Gives(libraries[0].value, paths[0]) && AreTheGivenPaths(libraries[1..], paths[1..]))
      || ((forall path :: !Gives(libraries[0].value, path)) && AreTheGivenPaths(libraries[1..], paths))
  }

  function EntryKeys(entries: seq<Entry>): seq<string> {
    seq(|entries|, i requires 0 <= i < |entries| => entries[i].key)
  }

  lemma {:induction false} StrictEntriesAreDistinct(entries: seq<Entry>, key: string)
    requires StrictlyAscending(EntryKey, entries)
    ensures StrictlyAscending(SelfKey, EntryKeys(entries))
    ensures key in EntryKeys(entries) <==> HasKey(entries, key)
  {
    if HasKey(entries, key) {
      var e :| e in entries && e.key == key;
      var i :| 0 <= i < |entries| && entries[i] == e;
      assert EntryKeys(entries)[i] == key;
    }
  }

  lemma {:induction false} UnorderedLookup(entries: seq<Entry>)
    requires KeysAreDistinct(entries)
    ensures forall e <- entries :: e.key in Unordered(entries) && Unordered(entries)[e.key] == UnorderedValue(e.value)
  {
    if entries != [] {
      UnorderedLookup(entries[1..]);
      assert forall e <- entries :: e == entries[0] || (e in entries[1..] && e.key != entries[0].key);
    }
  }

  lemma PathOfMeans(library: Ordered, path: string)
    requires ValueKeysAreDistinct(library)
    ensures PathOf(UnorderedValue(library)) == Some(path) <==> Gives(library, path)
  {
    if library.Node? {
      UnorderedLookup(library.entries);
      UnorderedKeys(library.entries, "path");
      if PathOf(UnorderedValue(library)) == Some(path) {
        var e :| e in library.entries && e.key == "path";
        assert UnorderedValue(e.value) == Str(path);
        assert e == Entry("path", Leaf(path));
      }
    }
  }

  lemma {:induction false} PathsAreGiven(libraries: seq<Entry>, all: Fields)
    requires KeysAreDistinct(libraries)
    requires forall e <- libraries :: e.key in all && all[e.key] == UnorderedValue(e.value)
    ensures forall key <- EntryKeys(libraries) :: key in all
    ensures AreTheGivenPaths(libraries, PathsOf(all, EntryKeys(libraries)))
  {
    if libraries != [] {
      assert EntryKeys(libraries)[1..] == EntryKeys(libraries[1..]);
      PathsAreGiven(libraries[1..], all);
      forall path ensures PathOf(all[libraries[0].key]) == Some(path) <==> Gives(libraries[0].value, path) {
        PathOfMeans(libraries[0].value, path);
      }
      match PathOf(all[libraries[0].key])
      case Some(path) =>
        assert PathsOf(all, EntryKeys(libraries)) == [path] + PathsOf(all, EntryKeys(libraries[1..]));
      case None =>
        assert PathsOf(all, EntryKeys(libraries)) == PathsOf(all, EntryKeys(libraries[1..]));
    }
  }

  /**
   * Library paths are the paths the libraries give, in the order of their keys,
   * however the text orders its fields and whichever of the two shapes each has.
   */
  lemma LibraryPathsComeInKeyOrder(text: string, root: Fields, libraries: seq<Entry>)
    requires ParseVdf(text) == Ok(root)
    requires "libraryfolders" in root && root["libraryfolders"] == Object(Unordered(libraries))
    requires KeysAreDistinct(libraries) && StrictlyAscending(EntryKey, libraries)
    ensures LibraryPaths(text).Ok? && AreTheGivenPaths(libraries, LibraryPaths(text).value)
  {
    var all := Unordered(libraries);
    UnorderedLookup(libraries);
    PathsAreGiven(libraries, all);
    KeyOrderIsStrict(all.Keys);
    forall key ensures key in EntryKeys(libraries) <==> key in KeyOrder(all.Keys) {
      StrictEntriesAreDistinct(libraries, key);
      UnorderedKeys(libraries, key);
    }
    StrictEntriesAreDistinct(libraries, "");
    StrictOrderIsUnique(SelfKey, EntryKeys(libraries), KeyOrder(all.Keys));
  }

  /** A text that is no VDF is refused; a tree without a libraryfolders object has no paths. */
  lemma NoLibraryFoldersNoPaths(text: string)
    ensures LibraryPaths(text).Err? <==> forall t: Fields :: !(IsPrintable(t) && Denotes(text, t))
    ensures forall t: Fields | IsPrintable(t) && Denotes(text, t) ::
              "libraryfolders" !in t || t["libraryfolders"].Str? ==> LibraryPaths(text) == Ok([])
  {
    var parsed := ParseVdf(text);
    if parsed.Ok? {
      ParserAcceptsExactlyThePrinted(text, parsed.value);
    }
    forall t: Fields | IsPrintable(t) && Denotes(text, t) ensures parsed == Ok(t) {
      ParserAcceptsExactlyThePrinted(text, t);
    }
  }

  /** A text is the CS2 manifest exactly when it writes a tree whose AppState names the CS2 app. */
  lemma ManifestIsRecognisedInAnyLayout(text: string)
    ensures AppManifestIsCs2(text) <==>
              exists t: Fields :: IsPrintable(t) && Denotes(text, t)
                && "AppState" in t && t["AppState"].Object?
                && "appid" in t["AppState"].fields && t["AppState"].fields["appid"] == Str(CS2_APP_ID)
  {
    var parsed := ParseVdf(text);
    if parsed.Ok? {
      ParserAcceptsExactlyThePrinted(text, parsed.value);
    }
    forall t: Fields | IsPrintable(t) && Denotes(text, t) ensures parsed == Ok(t) {
      ParserAcceptsExactlyThePrinted(text, t);
    }
  }
}
