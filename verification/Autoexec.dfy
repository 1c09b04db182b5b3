/** The autoexec bootstrap: one exec line, everything of the user kept. */
module AutoexecText {
  import opened Text

  const AUTOEXEC_LINE := "exec optimization.cfg"
  const NEW_FILE_COMMENT :=
    "// Optional frametime.cfg bootstrap. Keep personal CVars in this file.\n// Add a temporary sentinel to prove CS2 executed the line; this does not guarantee precedence.\n\n"

  predicate EndsIn(s: string, c: char) {
    s != [] && s[|s| - 1] == c
  }

  predicate EndsWith(s: string, suffix: string) {
    |suffix| <= |s| && s[|s| - |suffix|..] == suffix
  }

  /** The Unicode White_Space property. */
  predicate IsWhitespace(c: char) {
    var n := c as int;
    || 0x9 <= n <= 0xD || n == 0x20 || n == 0x85 || n == 0xA0 || n == 0x1680
    || 0x2000 <= n <= 0x200A || n == 0x2028 || n == 0x2029 || n == 0x202F || n == 0x205F || n == 0x3000
  }

  function TrimStart(s: string): string {
    if s != [] && IsWhitespace(s[0]) then TrimStart(s[1..]) else s
  }

  function TrimEnd(s: string): string {
    if s != [] && IsWhitespace(s[|s| - 1]) then TrimEnd(s[..|s| - 1]) else s
  }

  function Trim(s: string): string {
    TrimEnd(TrimStart(s))
  }

  // ---------------------------------------------------------------------
  // Lines
  // ---------------------------------------------------------------------

  function WithoutFinalCr(line: string): string {
    if EndsIn(line, '\r') then line[..|line| - 1] else line
  }

  /** `str::lines`: split at line feeds, a carriage return before one belongs to the break. */
  function Lines(s: string): seq<string> {
    if s == [] then []
    else
      var i := Find(s, '\n');
      if i == |s| then [s] else [WithoutFinalCr(s[..i])] + Lines(s[i + 1..])
  }

  /** The part of a line before a comment. */
  function BeforeComment(line: string): string {
    if line == [] then []
    else if "//" <= line then []
    else [line[0]] + BeforeComment(line[1..])
  }

  /** The line runs `command`, in any letter case, before any comment. */
  predicate Runs(line: string, command: string) {
    Lower(Trim(BeforeComment(line))) == Lower(command)
  }

  predicate HasLineRunning(s: string, command: string) {
    exists line <- Lines(s) :: Runs(line, command)
  }

  // ---------------------------------------------------------------------
  // The bootstrap
  // ---------------------------------------------------------------------

  function TrimEndBreaks(s: string): string {
    if s != [] && (s[|s| - 1] == '\r' || s[|s| - 1] == '\n') then TrimEndBreaks(s[..|s| - 1]) else s
  }

  /** What stands after the last carriage return or line feed. */
  function LastSegment(s: string): string {
    if s == [] || s[|s| - 1] == '\r' || s[|s| - 1] == '\n' then [] else LastSegment(s[..|s| - 1]) + [s[|s| - 1]]
  }

  predicate HasBlankFinalLine(s: string) {
    EndsWith(s, "\n\n") || EndsWith(s, "\r\n\r\n") || Trim(LastSegment(TrimEndBreaks(s))) == []
  }

  /** `command` in a line of its own after the existing text, set off by an empty line. */
  function Appended(existing: string, command: string): string {
    existing
    + ((if EndsIn(existing, '\n') then [] else ['\n'])
       + ((if HasBlankFinalLine(existing) then [] else ['\n']) + (command + ['\n'])))
  }

  function EnsureLine(existing: string, command: string, comment: string): string {
    if HasLineRunning(existing, command) then existing
    else if existing == [] then comment + (command + ['\n'])
    else Appended(existing, command)
  }

  function EnsureAutoexecLine(existing: string): string {
    EnsureLine(existing, AUTOEXEC_LINE, NEW_FILE_COMMENT)
  }

  method BuildLine(existing: string, command: string, comment: string) returns (output: string)
    ensures output == EnsureLine(existing, command, comment)
  {
    if HasLineRunning(existing, command) {
      return existing;
    }
    if existing == [] {
      return comment + (command + ['\n']);
    }
    var hasBlankFinalLine := HasBlankFinalLine(existing);
    ghost var ending: string := if EndsIn(existing, '\n') then [] else ['\n'];
    ghost var blank: string := if hasBlankFinalLine then [] else ['\n'];
    output := existing;
    if !EndsIn(output, '\n') {
      output := output + ['\n'];
    }
    if !hasBlankFinalLine {
      output := output + ['\n'];
    }
    assert output == (existing + ending) + blank;
    output := output + command;
    output := output + ['\n'];
    FromTheRight(existing, ending, blank, command, ['\n']);
  }

  lemma FromTheRight<T>(a: seq<T>, b: seq<T>, c: seq<T>, d: seq<T>, e: seq<T>)
    ensures ((((a + b) + c) + d) + e) == a + (b + (c + (d + e)))
  {
  }

  lemma Reassociated<T>(a: seq<T>, x: seq<T>, b: seq<T>, c: seq<T>)
    ensures (a + (x + b)) + c == a + (x + (b + c))
    ensures (x + b) + c == x + (b + c)
  {
  }

  method BuildAutoexec(existing: string) returns (output: string)
    ensures output == EnsureAutoexecLine(existing)
  {
    output := BuildLine(existing, AUTOEXEC_LINE, NEW_FILE_COMMENT);
  }

  // ---------------------------------------------------------------------
  // How lines and concatenation interact
  // ---------------------------------------------------------------------

  lemma FindIn(s: string, c: char, i: nat)
    requires i < |s| && s[i] == c && forall j :: 0 <= j < i ==> s[j] != c
    ensures Find(s, c) == i
  {
  }

  /** The first line of a text that has a line feed. */
  lemma FirstLine(line: string, rest: string)
    requires '\n' !in line
    ensures Lines(line + (['\n'] + rest)) == [WithoutFinalCr(line)] + Lines(rest)
  {
    var s := line + (['\n'] + rest);
    FindIn(s, '\n', |line|);
    assert s[..|line|] == line;
    assert s[|line| + 1..] == rest;
  }

  /** A text is an open line, or a line and a line feed and the rest. */
  lemma LineSplit(s: string) returns (line: string, rest: string)
    requires '\n' in s
    ensures '\n' !in line && s == line + (['\n'] + rest)
    ensures Lines(s) == [WithoutFinalCr(line)] + Lines(rest)
    ensures EndsIn(s, '\n') <==> rest == [] || EndsIn(rest, '\n')
    ensures |rest| < |s|
  {
    var i := Find(s, '\n');
    line, rest := s[..i], s[i + 1..];
    assert s == line + (['\n'] + rest);
  }

  /** After a whole line, lines go on independently. */
  lemma {:induction false} LinesAfterBreak(a: string, b: string)
    requires EndsIn(a, '\n')
    ensures Lines(a + b) == Lines(a) + Lines(b)
    decreases |a|
  {
    assert a[|a| - 1] == '\n';
    var line, rest := LineSplit(a);
    LinesOfJoin(line, rest, b);
    if rest == [] {
      assert rest + b == b;
      assert Lines(rest) + Lines(b) == Lines(b);
    } else {
      LinesAfterBreak(rest, b);
    }
    OneBefore(WithoutFinalCr(line), Lines(rest), Lines(b));
  }

  lemma LinesOfJoin(line: string, rest: string, b: string)
    requires '\n' !in line
    ensures Lines((line + (['\n'] + rest)) + b) == [WithoutFinalCr(line)] + Lines(rest + b)
  {
    Reassociated(line, ['\n'], rest, b);
    FirstLine(line, rest + b);
  }

  lemma OneBefore(first: string, a: seq<string>, b: seq<string>)
    ensures ([first] + a) + b == [first] + (a + b)
  {
  }

  lemma OpenLine(s: string)
    requires s != [] && '\n' !in s
    ensures Lines(s) == [s]
    ensures Lines(s + ['\n']) == [WithoutFinalCr(s)]
  {
    FirstLine(s, []);
    assert s + (['\n'] + []) == s + ['\n'];
  }

  lemma LastOfMore(first: string, lines: seq<string>, last: string)
    requires lines != []
    ensures var more := [first] + lines;
            more[|more| - 1] == lines[|lines| - 1]
            && [first] + (lines[..|lines| - 1] + [last]) == more[..|more| - 1] + [last]
  {
  }

  /** Ending an open last line changes that line only by a carriage return it ended in. */
  lemma {:induction false} LinesOfEnded(a: string)
    requires a != [] && !EndsIn(a, '\n')
    ensures Lines(a) != []
    ensures EndsIn(a, '\r') <==> EndsIn(Lines(a)[|Lines(a)| - 1], '\r')
    ensures Lines(a + ['\n']) == Lines(a)[..|Lines(a)| - 1] + [WithoutFinalCr(Lines(a)[|Lines(a)| - 1])]
    decreases |a|
  {
    if '\n' !in a {
      OpenLine(a);
    } else {
      var line, rest := LineSplit(a);
      LinesOfEnded(rest);
      Reassociated(line, ['\n'], rest, ['\n']);
      FirstLine(line, rest + ['\n']);
      assert a[|a| - 1] == rest[|rest| - 1];
      LastOfMore(WithoutFinalCr(line), Lines(rest), WithoutFinalCr(Lines(rest)[|Lines(rest)| - 1]));
    }
  }

  lemma {:induction false} NoCommentKeepsAll(s: string)
    requires '/' !in s
    ensures BeforeComment(s) == s
  {
    if s != [] {
      NoCommentKeepsAll(s[1..]);
      assert s == [s[0]] + s[1..];
    }
  }

  /** A command that is one line running itself. */
  predicate IsCommand(command: string) {
    && command != [] && '\n' !in command && '/' !in command
    && !IsWhitespace(command[0]) && !IsWhitespace(command[|command| - 1])
  }

  lemma CommandRunsItself(command: string)
    requires IsCommand(command)
    ensures Runs(command, command)
    ensures Lines(command + ['\n']) == [command]
  {
    NoCommentKeepsAll(command);
    OpenLine(command);
  }

  function Ended(s: string): string {
    if EndsIn(s, '\n') then s else s + ['\n']
  }

  lemma CommandIsOneLine(ended: string, command: string)
    requires EndsIn(ended, '\n') && IsCommand(command)
    ensures Lines(ended + (command + ['\n'])) == Lines(ended) + [command]
  {
    CommandRunsItself(command);
    LinesAfterBreak(ended, command + ['\n']);
  }

  lemma EmptyLineFirst(ended: string, tail: string)
    requires EndsIn(ended, '\n')
    ensures Lines(ended + (['\n'] + tail)) == Lines(ended) + ([[]] + Lines(tail))
  {
    LinesAfterBreak(ended, ['\n'] + tail);
    FirstLine([], tail);
    assert [] + (['\n'] + tail) == ['\n'] + tail;
    assert WithoutFinalCr([]) == [];
  }

  /** Lines of an ended text followed by a command line, with an empty line between or not. */
  lemma LinesOfTail(ended: string, blank: bool, command: string)
    requires EndsIn(ended, '\n') && IsCommand(command)
    ensures Lines(ended + ((if blank then [] else ['\n']) + (command + ['\n'])))
              == Lines(ended) + ((if blank then [] else [[]]) + [command])
  {
    var tail := command + ['\n'];
    if blank {
      CommandIsOneLine(ended, command);
      assert [] + tail == tail;
      assert [] + [command] == [command];
    } else {
      CommandRunsItself(command);
      EmptyLineFirst(ended, tail);
    }
  }

  /** The lines of the result when a line is appended. */
  lemma LinesOfAppended(existing: string, command: string)
    requires existing != [] && IsCommand(command)
    ensures Lines(Appended(existing, command))
              == Lines(Ended(existing)) + ((if HasBlankFinalLine(existing) then [] else [[]]) + [command])
  {
    var blank := HasBlankFinalLine(existing);
    LinesOfTail(Ended(existing), blank, command);
    EndedJoins(existing, (if blank then [] else ['\n']) + (command + ['\n']));
  }

  lemma EndedJoins(existing: string, tail: string)
    ensures existing + ((if EndsIn(existing, '\n') then [] else ['\n']) + tail) == Ended(existing) + tail
  {
  }

  // ---------------------------------------------------------------------
  // The properties
  // ---------------------------------------------------------------------

  /** The result always runs the command, in a line of its own. */
  lemma ResultRuns(existing: string, command: string, comment: string)
    requires IsCommand(command) && EndsIn(comment, '\n')
    ensures HasLineRunning(EnsureLine(existing, command, comment), command)
  {
    var result := EnsureLine(existing, command, comment);
    if !HasLineRunning(existing, command) {
      CommandRunsItself(command);
      if existing == [] {
        LinesAfterBreak(comment, command + ['\n']);
      } else {
        LinesOfAppended(existing, command);
      }
      assert Lines(result)[|Lines(result)| - 1] == command;
      assert command in Lines(result);
    }
  }

  /** Running it again changes nothing. */
  lemma EnsureIsIdempotent(existing: string, command: string, comment: string)
    requires IsCommand(command) && EndsIn(comment, '\n')
    ensures EnsureLine(EnsureLine(existing, command, comment), command, comment) == EnsureLine(existing, command, comment)
  {
    ResultRuns(existing, command, comment);
  }

  /** Nothing changes exactly when the line is there; otherwise text is added at the end only. */
  lemma ExistingTextIsAPrefix(existing: string, command: string, comment: string)
    requires IsCommand(command) && EndsIn(comment, '\n')
    ensures existing <= EnsureLine(existing, command, comment)
    ensures EnsureLine(existing, command, comment) == existing <==> HasLineRunning(existing, command)
  {
    ResultRuns(existing, command, comment);
  }

  /**
   * Every line of the user survives as a line, unless a line is appended to a text
   * whose last line is open and ends in a carriage return: that line loses it.
   */
  lemma LinesSurviveUnlessOpenCr(existing: string, command: string, comment: string)
    requires IsCommand(command)
    ensures (Lines(existing) <= Lines(EnsureLine(existing, command, comment)))
            <==> (HasLineRunning(existing, command) || !EndsIn(existing, '\r'))
  {
    if !HasLineRunning(existing, command) && existing != [] {
      LinesOfAppended(existing, command);
      if !EndsIn(existing, '\n') {
        LinesOfEnded(existing);
        OpenCrDecides(Lines(existing), Lines(EnsureLine(existing, command, comment)));
      }
    }
  }

  lemma OpenCrDecides(lines: seq<string>, longer: seq<string>)
    requires lines != [] && |longer| >= |lines|
    requires longer[..|lines|] == lines[..|lines| - 1] + [WithoutFinalCr(lines[|lines| - 1])]
    ensures lines <= longer <==> !EndsIn(lines[|lines| - 1], '\r')
  {
    var n := |lines| - 1;
    assert longer[n] == longer[..|lines|][n];
    assert lines == lines[..n] + [lines[n]];
  }

  // ---------------------------------------------------------------------
  // The bootstrap of optimization.cfg
  // ---------------------------------------------------------------------

  lemma AutoexecLineIsACommand()
    ensures IsCommand(AUTOEXEC_LINE)
  {
  }

  lemma NewFileCommentIsClosed()
    ensures EndsIn(NEW_FILE_COMMENT, '\n')
  {
  }

  /** What applying, verifying and applying again rely on. */
  lemma AutoexecIsStable(existing: string)
    ensures EnsureAutoexecLine(EnsureAutoexecLine(existing)) == EnsureAutoexecLine(existing)
    ensures existing <= EnsureAutoexecLine(existing)
  {
    AutoexecLineIsACommand();
    NewFileCommentIsClosed();
    EnsureIsIdempotent(existing, AUTOEXEC_LINE, NEW_FILE_COMMENT);
    ExistingTextIsAPrefix(existing, AUTOEXEC_LINE, NEW_FILE_COMMENT);
  }

  /** A text that loses a carriage return: its open line "x\r" reads back as "x". */
  lemma OpenCrIsLost(command: string, comment: string)
    requires IsCommand(command) && |command| > 1
    ensures var result := EnsureLine("x\r", command, comment);
            Lines("x\r") == ["x\r"] && Lines(result)[0] == "x"
  {
    var s := "x\r";
    OpenLine(s);
    assert BeforeComment(s) == s by {
      NoCommentKeepsAll(s);
    }
    assert s[..1] == "x";
    assert Trim(s) == "x";
    assert |Lower("x")| == 1;
    LinesOfAppended(s, command);
    assert WithoutFinalCr(s) == "x";
  }
}
