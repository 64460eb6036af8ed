/** The command line (esptool/src/cli/Options.cpp): the flag tables, one token, and whole token lists. */
module Options {
  import opened Wrappers
  import opened StrHelpers

  // ---------------------------------------------------------------- the flag tables

  const STRING_FLAGS: seq<string> := [
    "--dll", "--rules", "--log", "--pipe", "--service", "--level", "--target", "--permission",
    "--guid", "--kind", "--pid", "--tid", "--path", "--file-id", "--volume", "--stream", "--name",
    "--event-id", "--properties", "--supported"
  ]

  const BOOL_FLAGS: seq<string> := [
    "--help", "-h", "--verbose", "-v", "--no-provision", "--no-auto-provision",
    "--force-provision", "--force-hop", "--no-hop", "--clear-attribute", "--isolated", "--json",
    "--iocp", "--enforce-compat", "--bypass-eventtype", "--fresh", "--all", "--from-notify",
    "--duplicate", "--context-set", "--context-enum", "--enum-ids", "--open"
  ]

  const COUNT_FLAGS: seq<string> := ["--duration", "--max", "--type", "--lifetime"]

  /** The count flags whose presence is remembered besides their value. */
  const REMEMBERED_COUNTS: set<string> := {"--duration", "--max", "--type"}

  const WORKER := "--worker"
  const NO_PROVISION := "--no-provision"
  const NO_AUTO_PROVISION := "--no-auto-provision"
  const FORCE_PROVISION := "--force-provision"
  const CLEAR_ATTRIBUTE := "--clear-attribute"

  /** The switches `LaunchWorker` makes sure the child sees. */
  const HOP_FLAGS: set<string> := {NO_PROVISION, CLEAR_ATTRIBUTE, NO_AUTO_PROVISION, FORCE_PROVISION}

  const WORKER_COMMANDS: seq<string> := [
    "connect", "rules", "monitor", "query", "refs", "collections", "context", "exercise",
    "call-one", "provision", "clients", "unregister", "enum-rules", "remove-rules",
    "persist-rules", "open-queue", "trust"
  ]

  /** The field a boolean flag sets, named by its long spelling. */
  function SwitchOf(flag: string): string {
    if flag == "-h" then "--help" else if flag == "-v" then "--verbose" else flag
  }

  // ---------------------------------------------------------------- parsed options

  /** The parsed command line. `texts` and `counts` hold the valued flags by name, `switches`
      the boolean fields that are on, `given` the count flags the user wrote. */
  datatype Options = Options(
    command: string,
    positional: seq<string>,
    texts: map<string, string>,
    switches: set<string>,
    counts: map<string, nat>,
    given: set<string>,
    worker: bool)

  const DEFAULTS := Options(
    "", [],
    map["--pipe" := "esptool", "--service" := "esptool"],
    {},
    map["--duration" := 5000, "--max" := 10, "--type" := 2, "--lifetime" := 1],
    {}, false)

  datatype OptionError =
    | MissingValue(flag: string)
    | InvalidCount(flag: string, value: string)
    | UnknownOption(token: string)
    | Conflict(first: string, second: string)
    | InvalidPermission(value: string)

  function Text(o: Options, flag: string): string {
    if flag in o.texts then o.texts[flag] else ""
  }

  // ---------------------------------------------------------------- one token

  /** An exact flag, or the --flag=value form. */
  predicate IsFlag(token: string, flag: string) {
    token == flag || (flag < token && token[|flag|] == '=')
  }

  function FindFlag(flags: seq<string>, token: string): (r: Option<string>)
    ensures r.Some? ==> r.value in flags && IsFlag(token, r.value)
    ensures r.None? ==> forall f :: f in flags ==> !IsFlag(token, f)
  {
    if flags == [] then None
    else if IsFlag(token, flags[0]) then Some(flags[0])
    else FindFlag(flags[1..], token)
  }

  predicate LooksLikeFlag(token: string) {
    token != "" && token[0] == '-' && token != "-"
  }

  function AfterEquals(token: string): Option<string> {
    if token == "" then None
    else if token[0] == '=' then Some(token[1..])
    else AfterEquals(token[1..])
  }

  /** The value of a flag, and how many tokens the flag and its value use. */
  function FlagValue(token: string, rest: seq<string>, flag: string): (r: Result<(string, nat), OptionError>)
    ensures r.Success? ==> 1 <= r.value.1 <= 1 + |rest|
  {
    var inline := AfterEquals(token);
    if inline.Some? then Success((inline.value, 1))
    else if rest == [] then Failure(MissingValue(flag))
    else Success((rest[0], 2))
  }

  function CountOf(value: string): Option<nat> {
    Bounded(Numeral(Trim(value)), MAX_U32)
  }

  /** What one flag says. */
  datatype Setting = SetText(flag: string, value: string) | TurnOn(switch: string) | BeWorker | SetNumber(flag: string, n: nat)

  /** The setting of one flag, and the number of tokens it used. */
  function ReadSetting(token: string, rest: seq<string>): (r: Result<(Setting, nat), OptionError>)
    ensures r.Success? ==> 1 <= r.value.1 <= 1 + |rest|
  {
    var text, switch, count := FindFlag(STRING_FLAGS, token), FindFlag(BOOL_FLAGS, token), FindFlag(COUNT_FLAGS, token);
    if text.Some? then
      var v := FlagValue(token, rest, text.value);
      if v.Failure? then Failure(v.error) else Success((SetText(text.value, v.value.0), v.value.1))
    else if switch.Some? then Success((TurnOn(SwitchOf(switch.value)), 1))
    else if token == WORKER then Success((BeWorker, 1))
    else if count.Some? then
      var v := FlagValue(token, rest, count.value);
      if v.Failure? then Failure(v.error)
      else if CountOf(v.value.0).None? then Failure(InvalidCount(count.value, v.value.0))
      else Success((SetNumber(count.value, CountOf(v.value.0).value), v.value.1))
    else Failure(UnknownOption(token))
  }

  function Apply(setting: Setting, o: Options): Options {
    match setting
    case SetText(flag, value) => o.(texts := o.texts[flag := value])
    case TurnOn(switch) => o.(switches := o.switches + {switch})
    case BeWorker => o.(worker := true)
    case SetNumber(flag, n) =>
      o.(counts := o.counts[flag := n], given := if flag in REMEMBERED_COUNTS then o.given + {flag} else o.given)
  }

  /** The options after one flag, and the number of tokens it used. */
  function StepFlag(token: string, rest: seq<string>, o: Options): (r: Result<(Options, nat), OptionError>)
    ensures r.Success? ==> 1 <= r.value.1 <= 1 + |rest|
  {
    var read := ReadSetting(token, rest);
    if read.Failure? then Failure(read.error) else Success((Apply(read.value.0, o), read.value.1))
  }

  function StepWord(token: string, o: Options): Options {
    if o.command == "" then o.(command := token) else o.(positional := o.positional + [token])
  }

  // ---------------------------------------------------------------- all tokens

  /** Reads `args` on top of `o`; `only` says that an end-of-options marker was passed. The
      result repeats that flag. */
  function ParseTokens(args: seq<string>, o: Options, only: bool): Result<(Options, bool), OptionError>
    decreases |args|
  {
    if args == [] then Success((o, only))
    else if only then ParseTokens(args[1..], o.(positional := o.positional + [args[0]]), true)
    else if args[0] == "--" then ParseTokens(args[1..], o, true)
    else if !LooksLikeFlag(args[0]) then ParseTokens(args[1..], StepWord(args[0], o), false)
    else
      var step := StepFlag(args[0], args[1..], o);
      if step.Failure? then Failure(step.error)
      else ParseTokens(args[step.value.1..], step.value.0, false)
  }

  predicate KnownPermission(value: string) {
    EqualsIgnoreCase(value, "full") || EqualsIgnoreCase(value, "restricted") || EqualsIgnoreCase(value, "abcd")
    || CountOf(value).Some?
  }

  /** The checks after the loop, in the source's order. */
  function Conflicts(o: Options): Option<OptionError> {
    if NO_PROVISION in o.switches && FORCE_PROVISION in o.switches then Some(Conflict(NO_PROVISION, FORCE_PROVISION))
    else if NO_PROVISION in o.switches && Text(o, "--permission") != "" then Some(Conflict(NO_PROVISION, "--permission"))
    else if "--no-hop" in o.switches && "--force-hop" in o.switches then Some(Conflict("--no-hop", "--force-hop"))
    else if Text(o, "--permission") != "" && !KnownPermission(Text(o, "--permission")) then
      Some(InvalidPermission(Text(o, "--permission")))
    else None
  }

  /** The meaning of a token list: the options, or the first error. */
  function Parsed(tokens: seq<string>): Result<Options, OptionError> {
    var r := ParseTokens(tokens, DEFAULTS, false);
    if r.Failure? then Failure(r.error)
    else if Conflicts(r.value.0).Some? then Failure(Conflicts(r.value.0).value)
    else Success(r.value.0)
  }

  method TakeValue(argv: seq<string>, index: nat, token: string, flag: string)
    returns (result: Result<string, OptionError>, next: nat)
    requires 0 < index < |argv|
    ensures var v := FlagValue(token, argv[index + 1..], flag);
            if v.Success? then result == Success(v.value.0) && next == index + v.value.1 - 1
            else result == Failure(v.error)
  {
    next := index;
    var equals := AfterEquals(token);
    if equals.Some? {
      return Success(equals.value), next;
    }
    if index + 1 >= |argv| {
      return Failure(MissingValue(flag)), next;
    }
    next := next + 1;
    return Success(argv[next]), next;
  }

  /** The flag branches of the loop body, in the source's order. */
  method ReadFlag(argv: seq<string>, index: nat, out: Options) returns (result: Result<Options, OptionError>, next: nat)
    requires 0 < index < |argv|
    ensures var step := StepFlag(argv[index], argv[index + 1..], out);
            if step.Success? then result == Success(step.value.0) && next == index + step.value.1
            else result == Failure(step.error)
  {
    var token := argv[index];
    next := index + 1;
    var entry := FindFlag(STRING_FLAGS, token);
    if entry.Some? {
      result, next := ReadText(argv, index, entry.value, out);
      return;
    }
    entry := FindFlag(BOOL_FLAGS, token);
    if entry.Some? {
      return Success(out.(switches := out.switches + {SwitchOf(entry.value)})), next;
    }
    if token == WORKER {
      return Success(out.(worker := true)), next;
    }
    entry := FindFlag(COUNT_FLAGS, token);
    if entry.Some? {
      result, next := ReadCount(argv, index, entry.value, out);
      return;
    }
    return Failure(UnknownOption(token)), next;
  }

  method ReadText(argv: seq<string>, index: nat, flag: string, out: Options) returns (result: Result<Options, OptionError>, next: nat)
    requires 0 < index < |argv|
    ensures var v := FlagValue(argv[index], argv[index + 1..], flag);
      if v.Failure? then result == Failure(v.error)
      else result == Success(Apply(SetText(flag, v.value.0), out)) && next == index + v.value.1
  {
    next := index + 1;
    var value, last := TakeValue(argv, index, argv[index], flag);
    if value.Failure? {
      return Failure(value.error), next;
    }
    return Success(out.(texts := out.texts[flag := value.value])), last + 1;
  }

  method ReadCount(argv: seq<string>, index: nat, flag: string, out: Options) returns (result: Result<Options, OptionError>, next: nat)
    requires 0 < index < |argv|
    ensures var v := FlagValue(argv[index], argv[index + 1..], flag);
      if v.Failure? then result == Failure(v.error)
      else if CountOf(v.value.0).None? then result == Failure(InvalidCount(flag, v.value.0))
      else result == Success(Apply(SetNumber(flag, CountOf(v.value.0).value), out)) && next == index + v.value.1
  {
    next := index + 1;
    var value, last := TakeValue(argv, index, argv[index], flag);
    if value.Failure? {
      return Failure(value.error), next;
    }
    var count := CountOf(value.value);
    if count.None? {
      return Failure(InvalidCount(flag, value.value)), next;
    }
    var counted := out.(counts := out.counts[flag := count.value]);
    if flag in REMEMBERED_COUNTS {
      counted := counted.(given := counted.given + {flag});
    }
    return Success(counted), last + 1;
  }

  /** One turn of the loop. */
  method ReadToken(argv: seq<string>, index: nat, out: Options, only: bool)
    returns (result: Result<Options, OptionError>, next: nat, only': bool)
    requires 0 < index < |argv|
    ensures result.Failure? ==> ParseTokens(argv[index..], out, only) == Failure(result.error)
    ensures result.Success? ==>
      index < next <= |argv| && ParseTokens(argv[index..], out, only) == ParseTokens(argv[next..], result.value, only')
  {
    var token := argv[index];
    only', next := only, index + 1;
    assert argv[index..][1..] == argv[index + 1..];
    if only {
      result := Success(out.(positional := out.positional + [token]));
    } else if token == "--" {
      only', result := true, Success(out);
    } else if !LooksLikeFlag(token) {
      result := Success(StepWord(token, out));
    } else {
      result, next := ReadFlag(argv, index, out);
      if result.Success? {
        assert argv[index..][next - index..] == argv[next..];
      }
    }
  }

  /** The loop over the tokens. */
  method ReadTokens(argv: seq<string>) returns (result: Result<Options, OptionError>)
    requires argv != []
    ensures var r := ParseTokens(argv[1..], DEFAULTS, false);
      result == if r.Failure? then Failure(r.error) else Success(r.value.0)
  {
    var out, only, index := DEFAULTS, false, 1;
    while index < |argv|
      invariant 1 <= index <= |argv|
      invariant ParseTokens(argv[index..], out, only) == ParseTokens(argv[1..], DEFAULTS, false)
    {
      result, index, only := ReadToken(argv, index, out, only);
      if result.Failure? {
        return;
      }
      out := result.value;
    }
    return Success(out);
  }

  /** The index loop over argv and the checks after it compute `Parsed`; argv[0] is the program name. */
  method ParseOptions(argv: seq<string>) returns (result: Result<Options, OptionError>)
    ensures result == Parsed(if argv == [] then [] else argv[1..])
  {
    if argv == [] {
      return Success(DEFAULTS);
    }
    result := ReadTokens(argv);
    if result.Success? {
      var conflict := Conflicts(result.value);
      if conflict.Some? {
        return Failure(conflict.value);
      }
    }
  }
}
