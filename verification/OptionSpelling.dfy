/** The two spellings of a valued flag (esptool/src/cli/Options.cpp). */
module OptionSpelling {
  import opened Wrappers
  import opened StrHelpers
  import opened Options

  predicate NoEquals(token: string) {
    forall i :: 0 <= i < |token| ==> token[i] != '='
  }

  /** A token without an equals sign is only ever its own flag. */
  lemma ExactFlag(flags: seq<string>, token: string)
    requires NoEquals(token)
    ensures FindFlag(flags, token) == if token in flags then Some(token) else None
  {
    var found := FindFlag(flags, token);
    assert forall f :: IsFlag(token, f) ==> f == token;
    if token in flags {
      assert IsFlag(token, token);
    }
  }

  lemma {:induction false} NoInlineValue(token: string)
    requires NoEquals(token)
    ensures AfterEquals(token) == None
  {
    if token != "" {
      NoInlineValue(token[1..]);
    }
  }

  lemma {:induction false} InlineValue(flag: string, value: string)
    requires NoEquals(flag)
    ensures AfterEquals(flag + "=" + value) == Some(value)
  {
    var token := flag + "=" + value;
    if flag == "" {
      assert token[1..] == value;
    } else {
      assert token[1..] == flag[1..] + "=" + value;
      InlineValue(flag[1..], value);
    }
  }

  /** With an inline value, a token is the flag in front of its first equals sign. */
  lemma InlineFlag(flags: seq<string>, flag: string, value: string)
    requires NoEquals(flag) && forall f :: f in flags ==> NoEquals(f)
    ensures FindFlag(flags, flag + "=" + value) == if flag in flags then Some(flag) else None
  {
    var token := flag + "=" + value;
    assert token[|flag|] == '=' && forall i :: 0 <= i < |flag| ==> token[i] == flag[i] != '=';
    forall f | f in flags && IsFlag(token, f) ensures f == flag {
      assert f < token && token[|f|] == '=' && forall i :: 0 <= i < |f| ==> token[i] == f[i] != '=';
      assert |f| == |flag|;
      assert f == token[..|f|] && flag == token[..|flag|];
    }
    var found := FindFlag(flags, token);
    if flag in flags {
      assert IsFlag(token, flag);
    }
  }

  lemma StringFlagsHaveNoEquals()
    ensures forall f :: f in STRING_FLAGS ==> NoEquals(f)
  {}

  /** Both spellings of every text flag set that flag to the value, and nothing else. */
  lemma TextFlagReads(flag: string, value: string, rest: seq<string>, o: Options)
    requires flag in STRING_FLAGS
    ensures StepFlag(flag, [value] + rest, o) == Success((o.(texts := o.texts[flag := value]), 2))
    ensures StepFlag(flag + "=" + value, rest, o) == Success((o.(texts := o.texts[flag := value]), 1))
  {
    StringFlagsHaveNoEquals();
    SpelledApart(flag, value, rest);
    SpelledInline(flag, value, rest);
  }

  lemma SpelledApart(flag: string, value: string, rest: seq<string>)
    requires flag in STRING_FLAGS && NoEquals(flag)
    ensures ReadSetting(flag, [value] + rest) == Success((SetText(flag, value), 2))
  {
    ExactFlag(STRING_FLAGS, flag);
    NoInlineValue(flag);
  }

  lemma SpelledInline(flag: string, value: string, rest: seq<string>)
    requires flag in STRING_FLAGS && forall f :: f in STRING_FLAGS ==> NoEquals(f)
    ensures ReadSetting(flag + "=" + value, rest) == Success((SetText(flag, value), 1))
  {
    InlineFlag(STRING_FLAGS, flag, value);
    InlineValue(flag, value);
  }

  // ---------------------------------------------------------------- switches and counts

  lemma BoolFlagsHaveNoEquals()
    ensures forall f :: f in BOOL_FLAGS ==> NoEquals(f)
  {
    FirstBoolFlags();
    MoreBoolFlags();
    LastBoolFlags();
  }

  lemma FirstBoolFlags()
    ensures |BOOL_FLAGS| == 23 && forall k :: 0 <= k < 8 ==> NoEquals(BOOL_FLAGS[k])
  {}

  lemma MoreBoolFlags()
    ensures |BOOL_FLAGS| == 23 && forall k :: 8 <= k < 16 ==> NoEquals(BOOL_FLAGS[k])
  {}

  lemma LastBoolFlags()
    ensures |BOOL_FLAGS| == 23 && forall k :: 16 <= k < 23 ==> NoEquals(BOOL_FLAGS[k])
  {}

  lemma CountFlagsHaveNoEquals()
    ensures forall f :: f in COUNT_FLAGS ==> NoEquals(f)
  {}

  /** The flags of each kind. */
  lemma FlagNames(flag: string)
    ensures flag in STRING_FLAGS <==> flag in {
      "--dll", "--rules", "--log", "--pipe", "--service", "--level", "--target", "--permission", "--guid", "--kind",
      "--pid", "--tid", "--path", "--file-id", "--volume", "--stream", "--name", "--event-id", "--properties", "--supported"}
    ensures flag in BOOL_FLAGS <==> flag in {
      "--help", "-h", "--verbose", "-v", "--no-provision", "--no-auto-provision", "--force-provision", "--force-hop",
      "--no-hop", "--clear-attribute", "--isolated", "--json", "--iocp", "--enforce-compat", "--bypass-eventtype",
      "--fresh", "--all", "--from-notify", "--duplicate", "--context-set", "--context-enum", "--enum-ids", "--open"}
    ensures flag in COUNT_FLAGS <==> flag in {"--duration", "--max", "--type", "--lifetime"}
    ensures WORKER == "--worker"
  {}

  // The first letters and the lengths tell the three kinds of flags apart.

  predicate TextShape(f: string) {
    |f| >= 5 &&
    var n, c := |f|, f[2];
    (c == 'd' && n == 5) || (c == 'r' && n == 7) || (c == 'l' && n <= 7) || (c == 'p' && n in {5, 6, 12})
    || (c == 's' && n in {8, 9, 11}) || (c == 't' && n in {5, 8}) || (c == 'g' && n == 6) || (c == 'k' && n == 6)
    || (c == 'f' && n == 9) || (c == 'v' && n == 8) || (c == 'n' && n == 6) || (c == 'e' && f[3] == 'v')
  }

  predicate CountShape(f: string) {
    |f| >= 5 &&
    var n, c := |f|, f[2];
    (c == 'd' && n == 10) || (c == 'm' && n == 5) || (c == 't' && n == 6) || (c == 'l' && n == 10)
  }

  lemma TextShapes()
    ensures forall f :: f in STRING_FLAGS ==> TextShape(f)
  {}

  lemma BoolShapes()
    ensures forall f :: f in BOOL_FLAGS ==> !TextShape(f) && !CountShape(f)
  {
    FirstBoolShapes();
    LastBoolShapes();
  }

  lemma FirstBoolShapes()
    ensures |BOOL_FLAGS| == 23 && forall k :: 0 <= k < 12 ==> !TextShape(BOOL_FLAGS[k]) && !CountShape(BOOL_FLAGS[k])
  {}

  lemma LastBoolShapes()
    ensures |BOOL_FLAGS| == 23 && forall k :: 12 <= k < 23 ==> !TextShape(BOOL_FLAGS[k]) && !CountShape(BOOL_FLAGS[k])
  {}

  lemma CountShapes()
    ensures forall f :: f in COUNT_FLAGS ==> CountShape(f)
    ensures !CountShape(WORKER)
  {}

  /** No flag is of two kinds. */
  lemma KindsAreApart(flag: string)
    ensures flag in BOOL_FLAGS ==> flag !in STRING_FLAGS
    ensures flag in COUNT_FLAGS ==> flag !in STRING_FLAGS && flag !in BOOL_FLAGS && flag != WORKER
  {
    TextShapes();
    BoolShapes();
    CountShapes();
    assert CountShape(flag) ==> !TextShape(flag);
  }

  /** Every boolean flag, also with a value behind an equals sign, turns its switch on and nothing
      else; the two short flags are their long ones. */
  lemma SwitchReads(flag: string, value: string, rest: seq<string>, o: Options)
    requires flag in BOOL_FLAGS
    ensures var after := o.(switches := o.switches + {if flag == "-h" then "--help" else if flag == "-v" then "--verbose" else flag});
      StepFlag(flag, rest, o) == Success((after, 1)) && StepFlag(flag + "=" + value, rest, o) == Success((after, 1))
  {
    StringFlagsHaveNoEquals();
    BoolFlagsHaveNoEquals();
    KindsAreApart(flag);
    ExactFlag(STRING_FLAGS, flag);
    ExactFlag(BOOL_FLAGS, flag);
    InlineFlag(STRING_FLAGS, flag, value);
    InlineFlag(BOOL_FLAGS, flag, value);
  }

  function CountRead(flag: string, value: string, used: nat): Result<(Setting, nat), OptionError> {
    if CountOf(value).None? then Failure(InvalidCount(flag, value)) else Success((SetNumber(flag, CountOf(value).value), used))
  }

  lemma CountSteps(token: string, rest: seq<string>, flag: string, value: string, used: nat, o: Options)
    requires flag in COUNT_FLAGS && ReadSetting(token, rest) == CountRead(flag, value, used)
    ensures StepFlag(token, rest, o) == CountStep(flag, value, used, o)
  {
    if CountOf(value).Some? {
      ApplyCount(flag, CountOf(value).value, o);
    }
  }

  lemma ApplyCount(flag: string, n: nat, o: Options)
    requires flag in COUNT_FLAGS
    ensures Apply(SetNumber(flag, n), o)
      == o.(counts := o.counts[flag := n], given := if flag == "--lifetime" then o.given else o.given + {flag})
  {
    RememberedCounts(flag);
  }

  lemma RememberedCounts(flag: string)
    requires flag in COUNT_FLAGS
    ensures flag in REMEMBERED_COUNTS <==> flag != "--lifetime"
  {
    assert "--duration"[2] == 'd' && "--max"[2] == 'm' && "--type"[2] == 't' && "--lifetime"[2] == 'l';
  }

  /** What a counted flag does: it sets its number, and is remembered as given unless it is the lifetime. */
  function CountStep(flag: string, value: string, used: nat, o: Options): Result<(Options, nat), OptionError> {
    var n := CountOf(value);
    if n.None? then Failure(InvalidCount(flag, value))
    else
      var given := if flag == "--lifetime" then o.given else o.given + {flag};
      Success((o.(counts := o.counts[flag := n.value], given := given), used))
  }

  /** A counted flag takes a numeral of at most 32 bits, in both spellings, and refuses any other text. */
  lemma CountFlagReads(flag: string, value: string, rest: seq<string>, o: Options)
    requires flag in COUNT_FLAGS
    ensures StepFlag(flag, [value] + rest, o) == CountStep(flag, value, 2, o)
    ensures StepFlag(flag + "=" + value, rest, o) == CountStep(flag, value, 1, o)
  {
    CountApart(flag, value, rest);
    CountInline(flag, value, rest);
    CountSteps(flag, [value] + rest, flag, value, 2, o);
    CountSteps(flag + "=" + value, rest, flag, value, 1, o);
  }

  lemma CountApart(flag: string, value: string, rest: seq<string>)
    requires flag in COUNT_FLAGS
    ensures ReadSetting(flag, [value] + rest) == CountRead(flag, value, 2)
  {
    CountFlagsHaveNoEquals();
    KindsAreApart(flag);
    ExactFlag(STRING_FLAGS, flag);
    ExactFlag(BOOL_FLAGS, flag);
    ExactFlag(COUNT_FLAGS, flag);
    NoInlineValue(flag);
  }

  lemma CountInline(flag: string, value: string, rest: seq<string>)
    requires flag in COUNT_FLAGS
    ensures ReadSetting(flag + "=" + value, rest) == CountRead(flag, value, 1)
  {
    StringFlagsHaveNoEquals();
    BoolFlagsHaveNoEquals();
    CountFlagsHaveNoEquals();
    KindsAreApart(flag);
    InlineFlag(STRING_FLAGS, flag, value);
    InlineFlag(BOOL_FLAGS, flag, value);
    InlineFlag(COUNT_FLAGS, flag, value);
    InlineValue(flag, value);
    assert (flag + "=" + value)[|flag|] == '=';
  }

  /** The numerals that a count takes: what a decimal or hexadecimal print of up to 32 bits gives back. */
  lemma CountOfNumber(n: nat, upper: bool)
    ensures n <= 0xFFFF_FFFF ==> CountOf(Decimal(n)) == Some(n) && CountOf("0x" + Hexadecimal(n, upper)) == Some(n)
    ensures n > 0xFFFF_FFFF ==> CountOf(Decimal(n)) == None && CountOf("0x" + Hexadecimal(n, upper)) == None
  {
    DecimalRoundTrip(n);
    HexadecimalRoundTrip(n, upper, "0x");
  }

  /** A valued flag at the end of the line lacks its value. */
  lemma ValueIsMissing(flag: string, o: Options)
    requires flag in STRING_FLAGS || flag in COUNT_FLAGS
    ensures StepFlag(flag, [], o) == Failure(MissingValue(flag))
  {
    StringFlagsHaveNoEquals();
    CountFlagsHaveNoEquals();
    KindsAreApart(flag);
    ExactFlag(STRING_FLAGS, flag);
    ExactFlag(BOOL_FLAGS, flag);
    ExactFlag(COUNT_FLAGS, flag);
    NoInlineValue(flag);
  }

  /** Any other token that looks like a flag is refused. */
  lemma UnknownFlagIsRefused(token: string, rest: seq<string>, o: Options)
    requires NoEquals(token) && token !in STRING_FLAGS && token !in BOOL_FLAGS && token !in COUNT_FLAGS && token != WORKER
    ensures StepFlag(token, rest, o) == Failure(UnknownOption(token))
  {
    ExactFlag(STRING_FLAGS, token);
    ExactFlag(BOOL_FLAGS, token);
    ExactFlag(COUNT_FLAGS, token);
  }

  // ---------------------------------------------------------------- words and conflicts

  /** A word is the command if there is none yet and positional otherwise; a lone dash and an empty
      token are words; after the marker everything is positional. */
  lemma WordReads(word: string, rest: seq<string>, o: Options)
    requires word == "" || word == "-" || word[0] != '-'
    ensures ParseTokens([word] + rest, o, false)
      == ParseTokens(rest, if o.command == "" then o.(command := word) else o.(positional := o.positional + [word]), false)
    ensures ParseTokens(["--"] + rest, o, false) == ParseTokens(rest, o, true)
    ensures ParseTokens([word] + rest, o, true) == ParseTokens(rest, o.(positional := o.positional + [word]), true)
  {
    assert ([word] + rest)[1..] == rest && (["--"] + rest)[1..] == rest;
    assert word != "--";
  }

  /** Which parsed lines are refused after all, and for which of their flags. */
  lemma ConflictsSay(o: Options)
    ensures var permission := if "--permission" in o.texts then o.texts["--permission"] else "";
      Conflicts(o) ==
        if "--no-provision" in o.switches && "--force-provision" in o.switches then Some(Conflict("--no-provision", "--force-provision"))
        else if "--no-provision" in o.switches && permission != "" then Some(Conflict("--no-provision", "--permission"))
        else if "--no-hop" in o.switches && "--force-hop" in o.switches then Some(Conflict("--no-hop", "--force-hop"))
        else if permission != "" && !EqualsIgnoreCase(permission, "full") && !EqualsIgnoreCase(permission, "restricted")
                && !EqualsIgnoreCase(permission, "abcd") && CountOf(permission).None? then Some(InvalidPermission(permission))
        else None
  {}

  /** What an empty line means. */
  lemma DefaultsSay()
    ensures Parsed([]) == Success(Options(
      "", [], map["--pipe" := "esptool", "--service" := "esptool"], {},
      map["--duration" := 5000, "--max" := 10, "--type" := 2, "--lifetime" := 1], {}, false))
  {}
}
