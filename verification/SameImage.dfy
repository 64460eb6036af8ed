/** Building the worker's command line (esptool/src/process/SameImage.cpp), and the C runtime
    that takes it apart again.

    `CRuntimeArguments` is the reference: the rules of "Parsing C command-line arguments" in
    the Microsoft C runtime, as its `parse_cmdline` applies them. The theorem says which
    command lines survive the trip. */
module SameImage {

  // ---------------------------------------------------------------- quoting

  function Slashes(n: nat): (s: string)
    ensures |s| == n && forall i :: 0 <= i < n ==> s[i] == '\\'
  {
    seq(n, _ => '\\')
  }

  /** The characters that make `QuoteArgument` wrap its argument. */
  predicate ForcesQuotes(c: char) {
    c == ' ' || c == '\t' || c == '\n' || c == '\U{0B}' || c == '"'
  }

  predicate NeedsQuotes(argument: string) {
    argument == "" || exists i :: 0 <= i < |argument| && ForcesQuotes(argument[i])
  }

  /** What the quoting loop still has to write when `rest` is unread and a run of `slashes`
      backslashes is pending. */
  function QuoteBody(rest: string, slashes: nat): string {
    if rest == "" then Slashes(slashes * 2)
    else if rest[0] == '\\' then QuoteBody(rest[1..], slashes + 1)
    else if rest[0] == '"' then Slashes(slashes * 2 + 1) + "\"" + QuoteBody(rest[1..], 0)
    else Slashes(slashes) + [rest[0]] + QuoteBody(rest[1..], 0)
  }

  function Quoted(argument: string): string {
    if NeedsQuotes(argument) then "\"" + QuoteBody(argument, 0) + "\"" else argument
  }

  method QuoteArgument(argument: string) returns (quoted: string)
    ensures quoted == Quoted(argument)
  {
    if !NeedsQuotes(argument) {
      return argument;
    }
    quoted := "\"";
    var backslashes := 0;
    for i := 0 to |argument|
      invariant quoted + QuoteBody(argument[i..], backslashes) == "\"" + QuoteBody(argument, 0)
    {
      var ch := argument[i];
      assert argument[i..][1..] == argument[i + 1..];
      if ch == '\\' {
        backslashes := backslashes + 1;
      } else if ch == '"' {
        quoted := quoted + Slashes(backslashes * 2 + 1) + "\"";
        backslashes := 0;
      } else {
        quoted := quoted + Slashes(backslashes) + [ch];
        backslashes := 0;
      }
    }
    quoted := quoted + Slashes(backslashes * 2);
    quoted := quoted + "\"";
  }

  /** Every argument in its quoted form, each after one blank. */
  function Spaced(arguments: seq<string>): string {
    if arguments == [] then "" else " " + Quoted(arguments[0]) + Spaced(arguments[1..])
  }

  function CommandLine(image: string, arguments: seq<string>): string {
    Quoted(image) + Spaced(arguments)
  }

  method BuildCommandLine(image: string, arguments: seq<string>) returns (commandLine: string)
    ensures commandLine == CommandLine(image, arguments)
  {
    commandLine := QuoteArgument(image);
    for i := 0 to |arguments|
      invariant commandLine + Spaced(arguments[i..]) == CommandLine(image, arguments)
    {
      assert arguments[i..][1..] == arguments[i + 1..];
      commandLine := commandLine + " ";
      var next := QuoteArgument(arguments[i]);
      commandLine := commandLine + next;
    }
  }

  /** Only an empty argument, or one with a blank, a tab, a line feed, a vertical tab or a quote, is
      wrapped in quotes; any other is written as it is. */
  lemma QuotedOnlyIfNeeded(a: string)
    ensures NeedsQuotes(a) <==> a == "" || exists i :: 0 <= i < |a| && a[i] as int in {9, 10, 11, 32, 34}
    ensures !NeedsQuotes(a) ==> Quoted(a) == a
    ensures NeedsQuotes(a) ==> |Quoted(a)| >= 2 && Quoted(a)[0] == '"' && Quoted(a)[|Quoted(a)| - 1] == '"'
  {}

  // ---------------------------------------------------------------- the C runtime

  /** One scanned argument and the text after it. */
  datatype Scan = Scan(argument: string, rest: string)

  predicate IsBlank(c: char) {
    c == ' ' || c == '\t'
  }

  function Prepend(text: string, scan: Scan): Scan {
    Scan(text + scan.argument, scan.rest)
  }

  /** The program name: quotes group and disappear, backslashes are ordinary characters. */
  function ScanProgram(line: string, inQuotes: bool): (s: Scan)
    ensures |s.rest| <= |line|
  {
    if line == "" then Scan("", "")
    else if line[0] == '"' then ScanProgram(line[1..], !inQuotes)
    else if !inQuotes && IsBlank(line[0]) then Scan("", line[1..])
    else Prepend([line[0]], ScanProgram(line[1..], inQuotes))
  }

  /** Any later argument, with a run of `slashes` backslashes just read: 2n backslashes and a
      quote are n backslashes and a delimiter, 2n+1 are n backslashes and a literal quote, and
      a doubled quote inside quotes is one. A run before any other character is literal. */
  function ScanArgument(line: string, slashes: nat, inQuotes: bool): (s: Scan)
    ensures |s.rest| <= |line|
    ensures line != "" && (inQuotes || !IsBlank(line[0])) ==> |s.rest| < |line|
    decreases |line|, 1
  {
    if line == "" then Scan(Slashes(slashes), "")
    else if line[0] == '\\' then ScanArgument(line[1..], slashes + 1, inQuotes)
    else if line[0] == '"' then ScanAfterQuote(line, slashes, inQuotes)
    else if !inQuotes && IsBlank(line[0]) then Scan(Slashes(slashes), line)
    else Prepend(Slashes(slashes) + [line[0]], ScanArgument(line[1..], 0, inQuotes))
  }

  function ScanAfterQuote(line: string, slashes: nat, inQuotes: bool): (s: Scan)
    requires line != "" && line[0] == '"'
    ensures |s.rest| < |line|
    decreases |line|, 0
  {
    if slashes % 2 == 1 then Prepend(Slashes(slashes / 2) + "\"", ScanArgument(line[1..], 0, inQuotes))
    else if inQuotes && |line| > 1 && line[1] == '"' then
      Prepend(Slashes(slashes / 2) + "\"", ScanArgument(line[2..], 0, inQuotes))
    else Prepend(Slashes(slashes / 2), ScanArgument(line[1..], 0, !inQuotes))
  }

  function SkipBlanks(line: string): (p: string)
    ensures |p| <= |line| && (p != "" ==> !IsBlank(p[0]))
  {
    if line != "" && IsBlank(line[0]) then SkipBlanks(line[1..]) else line
  }

  function ScanArguments(line: string): seq<string>
    decreases |line|
  {
    var p := SkipBlanks(line);
    if p == "" then [] else
    var s := ScanArgument(p, 0, false);
    [s.argument] + ScanArguments(s.rest)
  }

  /** The text up to the first NUL: `CreateProcessW` and the runtime both stop there. */
  function UpToNul(line: string): (s: string)
    ensures '\0' !in s
  {
    if line == "" || line[0] == '\0' then "" else [line[0]] + UpToNul(line[1..])
  }

  /** What the child's `wmain` receives as argv. */
  function CRuntimeArguments(line: string): (argv: seq<string>)
    ensures |argv| > 0
  {
    var s := ScanProgram(UpToNul(line), false);
    [s.argument] + ScanArguments(s.rest)
  }

  // ---------------------------------------------------------------- what survives

  predicate EndsArgument(tail: string) {
    tail != "" ==> tail[0] == ' '
  }

  lemma {:induction false} SlashRunScans(k: nat, rest: string, slashes: nat, inQuotes: bool)
    ensures ScanArgument(Slashes(k) + rest, slashes, inQuotes) == ScanArgument(rest, slashes + k, inQuotes)
  {
    if k == 0 {
      assert Slashes(0) + rest == rest;
    } else {
      assert (Slashes(k) + rest)[1..] == Slashes(k - 1) + rest;
      SlashRunScans(k - 1, rest, slashes + 1, inQuotes);
    }
  }

  /** An argument written without quotes is read back up to the next blank. */
  lemma {:induction false} PlainArgumentScans(a: string, k: nat, tail: string)
    requires EndsArgument(tail)
    requires forall i :: 0 <= i < |a| ==> !ForcesQuotes(a[i])
    ensures ScanArgument(a + tail, k, false) == Scan(Slashes(k) + a, tail)
  {
    if a == "" {
      assert a + tail == tail;
      assert Slashes(k) + a == Slashes(k);
    } else {
      assert (a + tail)[1..] == a[1..] + tail;
      PlainArgumentScans(a[1..], if a[0] == '\\' then k + 1 else 0, tail);
      SlashesBefore(a, k);
    }
  }

  lemma SlashesBefore(a: string, k: nat)
    requires a != ""
    ensures a[0] == '\\' ==> Slashes(k + 1) + a[1..] == Slashes(k) + a
    ensures Slashes(k) + [a[0]] + (Slashes(0) + a[1..]) == Slashes(k) + a
  {}

  /** The quoted form, entered inside its opening quote, gives back every pending backslash
      and every unread character. */
  lemma {:induction false} QuotedBodyScans(a: string, k: nat, tail: string)
    requires EndsArgument(tail)
    ensures ScanArgument(QuoteBody(a, k) + "\"" + tail, 0, true) == Scan(Slashes(k) + a, tail)
    decreases |a|
  {
    if a == "" {
      ClosingQuoteScans(k, tail);
    } else if a[0] == '\\' {
      SlashesBefore(a, k);
      QuotedBodyScans(a[1..], k + 1, tail);
    } else {
      QuotedBodyScans(a[1..], 0, tail);
      assert Slashes(0) + a[1..] == a[1..];
      var next := QuoteBody(a[1..], 0) + "\"" + tail;
      if a[0] == '"' {
        QuotedQuoteScans(a, k, next, tail);
      } else {
        QuotedOtherScans(a, k, next, tail);
      }
    }
  }

  lemma QuotedQuoteScans(a: string, k: nat, next: string, tail: string)
    requires a != "" && a[0] == '"' && next == QuoteBody(a[1..], 0) + "\"" + tail
    requires ScanArgument(next, 0, true) == Scan(a[1..], tail)
    ensures ScanArgument(QuoteBody(a, k) + "\"" + tail, 0, true) == Scan(Slashes(k) + a, tail)
  {
    LiteralQuoteScans(a[0], k, next);
    assert QuoteBody(a, k) + "\"" + tail == Slashes(k * 2 + 1) + [a[0]] + next;
    assert Slashes(k) + [a[0]] + a[1..] == Slashes(k) + a;
  }

  lemma QuotedOtherScans(a: string, k: nat, next: string, tail: string)
    requires a != "" && a[0] != '"' && a[0] != '\\' && next == QuoteBody(a[1..], 0) + "\"" + tail
    requires ScanArgument(next, 0, true) == Scan(a[1..], tail)
    ensures ScanArgument(QuoteBody(a, k) + "\"" + tail, 0, true) == Scan(Slashes(k) + a, tail)
  {
    OtherCharacterScans(a[0], k, next);
    assert QuoteBody(a, k) + "\"" + tail == Slashes(k) + [a[0]] + next;
    assert Slashes(k) + [a[0]] + a[1..] == Slashes(k) + a;
  }

  lemma LiteralQuoteScans(c: char, k: nat, next: string)
    requires c == '"'
    ensures ScanArgument(Slashes(k * 2 + 1) + [c] + next, 0, true) == Prepend(Slashes(k) + [c], ScanArgument(next, 0, true))
  {
    var p := [c] + next;
    assert Slashes(k * 2 + 1) + [c] + next == Slashes(k * 2 + 1) + p;
    SlashRunScans(k * 2 + 1, p, 0, true);
    assert p[1..] == next;
    assert (k * 2 + 1) / 2 == k && (k * 2 + 1) % 2 == 1;
  }

  lemma OtherCharacterScans(c: char, k: nat, next: string)
    requires c != '\\' && c != '"'
    ensures ScanArgument(Slashes(k) + [c] + next, 0, true) == Prepend(Slashes(k) + [c], ScanArgument(next, 0, true))
  {
    var p := [c] + next;
    assert Slashes(k) + [c] + next == Slashes(k) + p;
    SlashRunScans(k, p, 0, true);
    assert p[1..] == next;
  }

  lemma ClosingQuoteScans(k: nat, tail: string)
    requires EndsArgument(tail)
    ensures ScanArgument(QuoteBody("", k) + "\"" + tail, 0, true) == Scan(Slashes(k) + "", tail)
  {
    var p := "\"" + tail;
    assert QuoteBody("", k) + "\"" + tail == Slashes(k * 2) + p;
    SlashRunScans(k * 2, p, 0, true);
    assert p[1..] == tail;
    assert ScanArgument(tail, 0, false) == Scan("", tail);
  }

  lemma QuotedArgumentScans(a: string, tail: string)
    requires EndsArgument(tail)
    ensures Quoted(a) != "" && !IsBlank(Quoted(a)[0])
    ensures ScanArgument(Quoted(a) + tail, 0, false) == Scan(a, tail)
  {
    if NeedsQuotes(a) {
      WrappedArgumentScans(a, Quoted(a) + tail, tail);
    } else {
      assert !ForcesQuotes(a[0]) && Slashes(0) + a == a;
      PlainArgumentScans(a, 0, tail);
    }
  }

  lemma WrappedArgumentScans(a: string, line: string, tail: string)
    requires EndsArgument(tail) && line == "\"" + QuoteBody(a, 0) + "\"" + tail
    ensures ScanArgument(line, 0, false) == Scan(a, tail)
  {
    QuotedBodyScans(a, 0, tail);
    assert line[1..] == QuoteBody(a, 0) + "\"" + tail;
    assert Slashes(0) + a == a;
    QuoteEnters(line);
  }

  lemma QuoteEnters(line: string)
    requires line != "" && line[0] == '"'
    ensures ScanArgument(line, 0, false) == ScanArgument(line[1..], 0, true)
  {}

  lemma SpacedArgumentScans(first: string, tail: string)
    requires EndsArgument(tail)
    ensures var line := " " + Quoted(first) + tail;
      ScanArguments(line) == [first] + ScanArguments(tail) && ScanArguments(line[1..]) == [first] + ScanArguments(tail)
  {
    QuotedArgumentScans(first, tail);
    AfterBlank(Quoted(first), tail);
    FirstArgumentScans(Quoted(first) + tail, Quoted(first) + tail);
    FirstArgumentScans(" " + Quoted(first) + tail, Quoted(first) + tail);
  }

  lemma AfterBlank(a: string, b: string)
    requires a != ""
    ensures " " + a + b != "" && (" " + a + b)[0] == ' ' && (" " + a + b)[1..] == a + b
    ensures a + b != "" && (a + b)[0] == a[0]
  {}

  lemma FirstArgumentScans(line: string, text: string)
    requires text != "" && !IsBlank(text[0]) && (line == text || (line != "" && IsBlank(line[0]) && line[1..] == text))
    ensures ScanArguments(line) == [ScanArgument(text, 0, false).argument] + ScanArguments(ScanArgument(text, 0, false).rest)
  {
    assert SkipBlanks(text) == text;
  }

  lemma {:induction false} SpacedArgumentsScan(arguments: seq<string>)
    ensures EndsArgument(Spaced(arguments))
    ensures ScanArguments(Spaced(arguments)) == arguments
    ensures arguments != [] ==> ScanArguments(Spaced(arguments)[1..]) == arguments
  {
    if arguments != [] {
      SpacedArgumentsScan(arguments[1..]);
      SpacedArgumentScans(arguments[0], Spaced(arguments[1..]));
      assert arguments == [arguments[0]] + arguments[1..];
    }
  }

  // ---------------------------------------------------------------- the program name

  /** A path whose quoted form the runtime reads back: argv[0] knows no escapes. */
  predicate SafeImage(image: string) {
    '"' !in image && '\0' !in image && !(NeedsQuotes(image) && image != "" && image[|image| - 1] == '\\')
  }

  lemma {:induction false} ProgramScansPlain(text: string, tail: string, inQuotes: bool)
    requires '"' !in text
    requires inQuotes || forall i :: 0 <= i < |text| ==> !IsBlank(text[i])
    requires inQuotes ==> tail != "" && tail[0] == '"' && EndsArgument(tail[1..])
    requires !inQuotes ==> EndsArgument(tail)
    ensures var end := if inQuotes then tail[1..] else tail;
            ScanProgram(text + tail, inQuotes) == Scan(text, if end == "" then "" else end[1..])
  {
    if text == "" {
      assert text + tail == tail;
    } else {
      assert (text + tail)[1..] == text[1..] + tail;
      ProgramScansPlain(text[1..], tail, inQuotes);
      assert text == [text[0]] + text[1..];
    }
  }

  lemma {:induction false} ProgramHasNoQuote(line: string, inQuotes: bool)
    ensures '"' !in ScanProgram(line, inQuotes).argument
    ensures forall c :: c in ScanProgram(line, inQuotes).argument ==> c in line
  {
    if line != "" {
      ProgramHasNoQuote(line[1..], inQuotes);
      ProgramHasNoQuote(line[1..], !inQuotes);
    }
  }

  function TrailingSlashes(s: string): (n: nat)
    ensures n <= |s|
  {
    if s != "" && s[|s| - 1] == '\\' then 1 + TrailingSlashes(s[..|s| - 1]) else 0
  }

  /** Without quotes inside, quoting doubles the trailing backslashes and nothing else. */
  lemma {:induction false} QuoteBodyOfPlain(a: string, k: nat)
    requires '"' !in a
    ensures QuoteBody(a, k) == Slashes(k) + a + Slashes(TrailingSlashes(Slashes(k) + a))
    decreases |a|
  {
    if a == "" {
      AllSlashesTrail(k);
      assert Slashes(k) + a == Slashes(k);
      assert Slashes(k * 2) == Slashes(k) + Slashes(k);
    } else if a[0] == '\\' {
      QuoteBodyOfPlain(a[1..], k + 1);
      SlashesBefore(a, k);
    } else {
      QuoteBodyOfPlain(a[1..], 0);
      OtherCharacterTrails(a, k);
    }
  }

  lemma OtherCharacterTrails(a: string, k: nat)
    requires a != "" && a[0] != '\\'
    ensures var tail := Slashes(TrailingSlashes(Slashes(0) + a[1..]));
      Slashes(k) + [a[0]] + (Slashes(0) + a[1..] + tail) == Slashes(k) + a + Slashes(TrailingSlashes(Slashes(k) + a))
  {
    var front, rest := Slashes(k) + [a[0]], a[1..];
    assert Slashes(0) + rest == rest;
    TrailingSlashesAfter(front, rest);
    assert Slashes(k) + a == front + rest;
  }

  lemma {:induction false} AllSlashesTrail(k: nat)
    ensures TrailingSlashes(Slashes(k)) == k
  {
    if k > 0 {
      assert Slashes(k)[..k - 1] == Slashes(k - 1);
      AllSlashesTrail(k - 1);
    }
  }

  lemma {:induction false} TrailingSlashesAfter(front: string, s: string)
    requires front != "" && front[|front| - 1] != '\\'
    ensures TrailingSlashes(front + s) == TrailingSlashes(s)
  {
    if s == "" {
      assert front + s == front;
    } else {
      assert (front + s)[..|front + s| - 1] == front + s[..|s| - 1];
      TrailingSlashesAfter(front, s[..|s| - 1]);
    }
  }

  lemma QuoteOpens(line: string)
    requires line != "" && line[0] == '"'
    ensures ScanProgram(line, false) == ScanProgram(line[1..], true)
  {}

  lemma GroupedProgramScans(text: string, tail: string)
    requires '"' !in text && EndsArgument(tail)
    ensures ScanProgram("\"" + text + "\"" + tail, false) == Scan(text, if tail == "" then "" else tail[1..])
  {
    var line := "\"" + text + "\"" + tail;
    assert line[1..] == text + ("\"" + tail);
    QuoteOpens(line);
    QuotedProgramScans(text, "\"" + tail, tail);
  }

  lemma QuotedProgramScans(text: string, end: string, tail: string)
    requires '"' !in text && EndsArgument(tail) && end == "\"" + tail
    ensures ScanProgram(text + end, true) == Scan(text, if tail == "" then "" else tail[1..])
  {
    assert end[1..] == tail;
    ProgramScansPlain(text, end, true);
  }

  lemma WrappedProgramScans(image: string, tail: string)
    requires '"' !in image && EndsArgument(tail)
    ensures ScanProgram("\"" + QuoteBody(image, 0) + "\"" + tail, false)
            == Scan(image + Slashes(TrailingSlashes(image)), if tail == "" then "" else tail[1..])
  {
    QuoteBodyOfPlain(image, 0);
    assert Slashes(0) + image == image;
    GroupedProgramScans(QuoteBody(image, 0), tail);
  }

  /** The runtime reads the program name as the image path plus the backslashes quoting added. */
  lemma ProgramScans(image: string, tail: string)
    requires '"' !in image && EndsArgument(tail)
    ensures var added := if NeedsQuotes(image) then TrailingSlashes(image) else 0;
            ScanProgram(Quoted(image) + tail, false)
            == Scan(image + Slashes(added), if tail == "" then "" else tail[1..])
  {
    if NeedsQuotes(image) {
      WrappedProgramScans(image, tail);
    } else {
      assert forall i :: 0 <= i < |image| ==> !ForcesQuotes(image[i]);
      ProgramScansPlain(image, tail, false);
      assert image + Slashes(0) == image;
    }
  }

  // ---------------------------------------------------------------- NUL characters

  lemma {:induction false} UpToNulIsAll(line: string)
    requires '\0' !in line
    ensures UpToNul(line) == line
  {
    if line != "" {
      UpToNulIsAll(line[1..]);
    }
  }

  lemma {:induction false} QuoteBodyKeepsNul(a: string, k: nat)
    ensures '\0' in QuoteBody(a, k) <==> '\0' in a
    decreases |a|
  {
    if a != "" {
      QuoteBodyKeepsNul(a[1..], k + 1);
      QuoteBodyKeepsNul(a[1..], 0);
      assert a == [a[0]] + a[1..];
    }
  }

  lemma {:induction false} SpacedKeepsNul(arguments: seq<string>)
    ensures '\0' in Spaced(arguments) <==> exists i :: 0 <= i < |arguments| && '\0' in arguments[i]
  {
    if arguments != [] {
      SpacedKeepsNul(arguments[1..]);
      QuoteBodyKeepsNul(arguments[0], 0);
      assert '\0' in Quoted(arguments[0]) <==> '\0' in arguments[0];
      if i :| 0 <= i < |arguments[1..]| && '\0' in arguments[1..][i] {
        assert '\0' in arguments[i + 1];
      }
      if i :| 0 <= i < |arguments| && '\0' in arguments[i] {
        assert i > 0 ==> arguments[1..][i - 1] == arguments[i];
      }
    }
  }

  lemma {:induction false} ScannedArgumentIsFromLine(line: string, slashes: nat, inQuotes: bool)
    requires '\0' !in line
    ensures '\0' !in ScanArgument(line, slashes, inQuotes).argument
    ensures '\0' !in ScanArgument(line, slashes, inQuotes).rest
    decreases |line|
  {
    if line != "" {
      ScannedArgumentIsFromLine(line[1..], slashes + 1, inQuotes);
      ScannedArgumentIsFromLine(line[1..], 0, inQuotes);
      ScannedArgumentIsFromLine(line[1..], 0, !inQuotes);
      if |line| > 1 {
        ScannedArgumentIsFromLine(line[2..], 0, inQuotes);
      }
    }
  }

  lemma {:induction false} ScannedArgumentsAreFromLine(line: string)
    requires '\0' !in line
    ensures forall i :: 0 <= i < |ScanArguments(line)| ==> '\0' !in ScanArguments(line)[i]
    decreases |line|
  {
    var p := SkipBlanks(line);
    SkippedIsFromLine(line);
    if p != "" {
      ScannedArgumentIsFromLine(p, 0, false);
      ScannedArgumentsAreFromLine(ScanArgument(p, 0, false).rest);
    }
  }

  lemma {:induction false} SkippedIsFromLine(line: string)
    ensures '\0' in SkipBlanks(line) ==> '\0' in line
  {
    if line != "" && IsBlank(line[0]) {
      SkippedIsFromLine(line[1..]);
    }
  }

  lemma {:induction false} ProgramRestIsFromLine(line: string, inQuotes: bool)
    ensures '\0' in ScanProgram(line, inQuotes).rest ==> '\0' in line
  {
    if line != "" {
      ProgramRestIsFromLine(line[1..], inQuotes);
      ProgramRestIsFromLine(line[1..], !inQuotes);
    }
  }

  lemma ArgvHasNoNul(line: string)
    ensures forall i :: 0 <= i < |CRuntimeArguments(line)| ==> '\0' !in CRuntimeArguments(line)[i]
  {
    var cut := UpToNul(line);
    ProgramHasNoQuote(cut, false);
    ProgramRestIsFromLine(cut, false);
    ScannedArgumentsAreFromLine(ScanProgram(cut, false).rest);
  }

  // ---------------------------------------------------------------- the theorem

  predicate NulFree(arguments: seq<string>) {
    forall i :: 0 <= i < |arguments| ==> '\0' !in arguments[i]
  }

  /** The child's argv is the image path and the arguments the parent wrote, exactly when no
      text holds a NUL, the path holds no quote, and a path that is wrapped in quotes does not
      end in a backslash. Empty arguments, quotes and backslash runs in arguments are all safe. */
  lemma CommandLineRoundTrip(image: string, arguments: seq<string>)
    ensures CRuntimeArguments(CommandLine(image, arguments)) == [image] + arguments
            <==> SafeImage(image) && NulFree(arguments)
  {
    var line := CommandLine(image, arguments);
    var argv := CRuntimeArguments(line);
    if '\0' in image || !NulFree(arguments) {
      ArgvHasNoNul(line);
      var expected := [image] + arguments;
      assert expected[0] == image;
      assert forall i :: 0 <= i < |arguments| ==> expected[i + 1] == arguments[i];
    } else {
      QuoteBodyKeepsNul(image, 0);
      assert '\0' !in Quoted(image);
      SpacedKeepsNul(arguments);
      UpToNulIsAll(line);
      if '"' in image {
        ProgramHasNoQuote(line, false);
        assert argv[0] != image;
      } else {
        SpacedArgumentsScan(arguments);
        ProgramScans(image, Spaced(arguments));
        assert argv[0] == image + Slashes(if NeedsQuotes(image) then TrailingSlashes(image) else 0);
        if SafeImage(image) {
          assert argv[0] == image;
        } else {
          assert |argv[0]| > |image|;
        }
      }
    }
  }
}
