/** The trust plan (esptool/src/cli/Options.cpp) and the hop to a worker child
    (esptool/src/cli/Commands.cpp, esptool/src/process/SameImage.cpp): which command lines make
    the child work under the options the parent decided on. */
module WorkerHop {
  import opened Wrappers
  import opened StrHelpers
  import opened Options
  import opened OptionSpelling
  import SameImage

  // ---------------------------------------------------------------- the trust plan

  /** The probed state of this process and its token. */
  datatype Context = Context(isPpl: bool, testSigning: bool, attributePresent: bool, attributePermission: nat)

  datatype TrustPlan = TrustPlan(
    noProvision: bool, autoNoProvision: bool, stampNeeded: bool, cleanNeeded: bool,
    childRequired: bool, targetPermission: nat)

  function ParsePermission(value: string): Option<nat> {
    if EqualsIgnoreCase(value, "full") then Some(2)
    else if EqualsIgnoreCase(value, "restricted") then Some(1)
    else if EqualsIgnoreCase(value, "abcd") then Some(0x4D564900)
    else CountOf(value)
  }

  function ResolvePermission(o: Options, ctx: Context): nat {
    var parsed := ParsePermission(Text(o, "--permission"));
    if parsed.Some? then parsed.value else if ctx.isPpl then 2 else 1
  }

  predicate NeedsWorker(o: Options) {
    o.command in WORKER_COMMANDS
  }

  /** The plan the precedence rules give. `AutoNoProvision` is the one case in which the plan
      overrides what the user wrote. */
  function PlanOf(o: Options, ctx: Context): TrustPlan {
    var auto := AutoNoProvision(o, ctx);
    var noProvision := NO_PROVISION in o.switches || auto;
    var target := if noProvision then 0 else ResolvePermission(o, ctx);
    var clean := noProvision && ctx.attributePresent && ctx.testSigning && !ctx.isPpl;
    var stamp := !noProvision && NeedsWorker(o) && !(ctx.attributePresent && ctx.attributePermission == target);
    var child :=
      if o.worker || "--no-hop" in o.switches then false
      else if "--force-hop" in o.switches then NeedsWorker(o)
      else NeedsWorker(o) && (stamp || clean);
    TrustPlan(noProvision, auto, stamp, clean, child, target)
  }

  predicate AutoNoProvision(o: Options, ctx: Context) {
    NO_PROVISION !in o.switches && FORCE_PROVISION !in o.switches && Text(o, "--permission") == ""
    && NO_AUTO_PROVISION !in o.switches && ctx.testSigning && !ctx.isPpl && o.command != "provision"
  }

  /** The step-by-step assignments of the source. */
  method EvaluateTrustPlan(o: Options, ctx: Context) returns (plan: TrustPlan)
    ensures plan == PlanOf(o, ctx)
  {
    plan := TrustPlan(false, false, false, false, false, 0);
    if NO_PROVISION in o.switches {
      plan := plan.(noProvision := true);
    } else if FORCE_PROVISION in o.switches || Text(o, "--permission") != "" {
      plan := plan.(targetPermission := ResolvePermission(o, ctx));
    } else if NO_AUTO_PROVISION in o.switches {
      plan := plan.(targetPermission := ResolvePermission(o, ctx));
    } else if ctx.testSigning && !ctx.isPpl && o.command != "provision" {
      plan := plan.(noProvision := true, autoNoProvision := true);
    } else {
      plan := plan.(targetPermission := ResolvePermission(o, ctx));
    }
    if plan.noProvision {
      if ctx.attributePresent && ctx.testSigning && !ctx.isPpl {
        plan := plan.(cleanNeeded := true);
      }
    } else if NeedsWorker(o) {
      plan := plan.(stampNeeded := !(ctx.attributePresent && ctx.attributePermission == plan.targetPermission));
    }
    if o.worker {
      plan := plan.(childRequired := false);
    } else if "--no-hop" in o.switches {
      plan := plan.(childRequired := false);
    } else if "--force-hop" in o.switches {
      plan := plan.(childRequired := NeedsWorker(o));
    } else if !NeedsWorker(o) {
      plan := plan.(childRequired := false);
    } else if plan.stampNeeded {
      plan := plan.(childRequired := true);
    } else if plan.cleanNeeded {
      plan := plan.(childRequired := true);
    }
  }

  /** The options `Dispatch` works with after the plan. */
  function Effective(o: Options, plan: TrustPlan): Options {
    var s := if plan.autoNoProvision then o.switches + {NO_PROVISION} else o.switches;
    o.(switches := if plan.cleanNeeded then s + {CLEAR_ATTRIBUTE} else s)
  }

  /** What the plan means, switch by switch. Provisioning is off if the user says so, or by itself
      under test signing without PPL, unless the user asks for it in one of three ways. The target is
      the permission asked for, or the one that fits the process. A stamp is needed where the token
      lacks the target, a cleaning where it must not carry one, and a child for either. */
  lemma PlanSays(o: Options, ctx: Context)
    ensures var plan := PlanOf(o, ctx);
      var permission := if "--permission" in o.texts then o.texts["--permission"] else "";
      var asked := "--force-provision" in o.switches || "--no-auto-provision" in o.switches || permission != "";
      var automatic := ctx.testSigning && !ctx.isPpl && o.command != "provision";
      && (plan.noProvision <==> "--no-provision" in o.switches || (!asked && automatic))
      && (plan.autoNoProvision <==> "--no-provision" !in o.switches && !asked && automatic)
      && (plan.noProvision ==> plan.targetPermission == 0)
      && (!plan.noProvision ==>
            plan.targetPermission == if EqualsIgnoreCase(permission, "full") then 2
                                     else if EqualsIgnoreCase(permission, "restricted") then 1
                                     else if EqualsIgnoreCase(permission, "abcd") then 0x4D564900
                                     else if CountOf(permission).Some? then CountOf(permission).value
                                     else if ctx.isPpl then 2
                                     else 1)
      && (plan.stampNeeded <==>
            !plan.noProvision && NeedsWorker(o)
            && !(ctx.attributePresent && ctx.attributePermission == plan.targetPermission))
      && (plan.cleanNeeded <==> plan.noProvision && ctx.attributePresent && ctx.testSigning && !ctx.isPpl)
      && (plan.childRequired <==>
            !o.worker && "--no-hop" !in o.switches && NeedsWorker(o)
            && ("--force-hop" in o.switches || plan.stampNeeded || plan.cleanNeeded))
  {}

  /** An empty permission is none. */
  lemma NoPermission(ctx: Context, o: Options)
    requires Text(o, "--permission") == "" && !PlanOf(o, ctx).noProvision
    ensures PlanOf(o, ctx).targetPermission == if ctx.isPpl then 2 else 1
  {
    assert Trim("") == "";
  }

  /** The commands that work in a child, and the four switches it must see. */
  lemma WorkerNames(o: Options)
    ensures NeedsWorker(o) <==> o.command in {
      "connect", "rules", "monitor", "query", "refs", "collections", "context", "exercise", "call-one",
      "provision", "clients", "unregister", "enum-rules", "remove-rules", "persist-rules", "open-queue", "trust"}
    ensures HOP_FLAGS == {"--no-provision", "--clear-attribute", "--no-auto-provision", "--force-provision"}
  {}

  /** The effective switches: those given, and those that the plan adds. */
  lemma EffectiveSays(o: Options, plan: TrustPlan, f: string)
    ensures f in Effective(o, plan).switches <==>
      f in o.switches || (plan.autoNoProvision && f == "--no-provision") || (plan.cleanNeeded && f == "--clear-attribute")
    ensures Effective(o, plan) == o.(switches := Effective(o, plan).switches)
  {}

  // ---------------------------------------------------------------- the child's arguments

  function WithoutWorker(tokens: seq<string>): (r: seq<string>)
    ensures WORKER !in r
    ensures forall t :: t in r <==> t in tokens && t != WORKER
  {
    if tokens == [] then []
    else if tokens[0] == WORKER then WithoutWorker(tokens[1..])
    else [tokens[0]] + WithoutWorker(tokens[1..])
  }

  function IfMissing(flag: string, o: Options, arguments: seq<string>): seq<string> {
    if flag in o.switches && flag !in arguments then [flag] else []
  }

  /** The hop flags that are on but that no argument spells exactly, in the source's order. */
  function Missing(o: Options, arguments: seq<string>): (r: seq<string>)
    ensures forall f :: f in r <==> f in HOP_FLAGS && f in o.switches && f !in arguments
  {
    IfMissing(NO_PROVISION, o, arguments) + IfMissing(CLEAR_ATTRIBUTE, o, arguments)
    + IfMissing(NO_AUTO_PROVISION, o, arguments) + IfMissing(FORCE_PROVISION, o, arguments)
  }

  /** Each switch is missing exactly if it is on and not spelled, and they are appended in this order. */
  lemma MissingSays(o: Options, arguments: seq<string>)
    ensures Missing(o, arguments) ==
      (if "--no-provision" in o.switches && "--no-provision" !in arguments then ["--no-provision"] else [])
      + (if "--clear-attribute" in o.switches && "--clear-attribute" !in arguments then ["--clear-attribute"] else [])
      + (if "--no-auto-provision" in o.switches && "--no-auto-provision" !in arguments then ["--no-auto-provision"] else [])
      + (if "--force-provision" in o.switches && "--force-provision" !in arguments then ["--force-provision"] else [])
  {}

  function ChildTokens(tokens: seq<string>, o: Options): seq<string> {
    [WORKER] + WithoutWorker(tokens) + Missing(o, WithoutWorker(tokens))
  }

  method WorkerArguments(tokens: seq<string>) returns (arguments: seq<string>)
    ensures arguments == [WORKER] + WithoutWorker(tokens)
  {
    arguments := [WORKER];
    for i := 0 to |tokens|
      invariant arguments + WithoutWorker(tokens[i..]) == [WORKER] + WithoutWorker(tokens)
    {
      assert tokens[i..][1..] == tokens[i + 1..];
      if tokens[i] != WORKER {
        arguments := arguments + [tokens[i]];
      }
    }
  }

  lemma HopFlagsDiffer()
    ensures WORKER !in HOP_FLAGS
    ensures NO_PROVISION != CLEAR_ATTRIBUTE && NO_PROVISION != NO_AUTO_PROVISION && NO_PROVISION != FORCE_PROVISION
    ensures CLEAR_ATTRIBUTE != NO_AUTO_PROVISION && CLEAR_ATTRIBUTE != FORCE_PROVISION
    ensures NO_AUTO_PROVISION != FORCE_PROVISION
  {
    assert |WORKER| == 8 && |NO_PROVISION| == 14 && |NO_AUTO_PROVISION| == 19;
    assert CLEAR_ATTRIBUTE[2] != FORCE_PROVISION[2];
  }

  /** One `has_arg` test of `LaunchWorker`. */
  function WithFlag(list: seq<string>, flag: string, o: Options): seq<string> {
    if flag in o.switches && flag !in list then list + [flag] else list
  }

  lemma WithFlagAppends(list: seq<string>, flag: string, o: Options, kept: seq<string>)
    requires flag in list <==> flag in kept
    ensures WithFlag(list, flag, o) == list + IfMissing(flag, o, kept)
    ensures forall f :: f != flag ==> (f in WithFlag(list, flag, o) <==> f in list)
  {
    assert list + [] == list;
  }

  /** The argument list of `LaunchWorker`, or None for a process that already is a worker. */
  method LaunchArguments(o: Options, tokens: seq<string>) returns (arguments: Option<seq<string>>)
    ensures arguments == if o.worker then None else Some(ChildTokens(tokens, o))
  {
    if o.worker {
      return None;
    }
    var list := WorkerArguments(tokens);
    HopFlagsDiffer();
    ghost var kept := WithoutWorker(tokens);
    WithFlagAppends(list, NO_PROVISION, o, kept);
    list := WithFlag(list, NO_PROVISION, o);
    WithFlagAppends(list, CLEAR_ATTRIBUTE, o, kept);
    list := WithFlag(list, CLEAR_ATTRIBUTE, o);
    WithFlagAppends(list, NO_AUTO_PROVISION, o, kept);
    list := WithFlag(list, NO_AUTO_PROVISION, o);
    WithFlagAppends(list, FORCE_PROVISION, o, kept);
    list := WithFlag(list, FORCE_PROVISION, o);
    JoinFour([WORKER] + kept, IfMissing(NO_PROVISION, o, kept), IfMissing(CLEAR_ATTRIBUTE, o, kept),
             IfMissing(NO_AUTO_PROVISION, o, kept), IfMissing(FORCE_PROVISION, o, kept));
    return Some(list);
  }

  lemma JoinFour(base: seq<string>, a: seq<string>, b: seq<string>, c: seq<string>, d: seq<string>)
    ensures base + a + b + c + d == base + (a + b + c + d)
  {}

  // ---------------------------------------------------------------- reading the flags

  lemma TextFlagLetters()
    ensures forall f :: f in STRING_FLAGS ==>
      |f| > 2 && f[2] != 'w' && f[2] != 'c' && (f[2] == 'n' ==> |f| == 6) && (f[2] == 'f' ==> |f| == 9)
  {
    assert |STRING_FLAGS| == 20;
  }

  lemma HopFlagsHaveNoEquals()
    ensures NoEquals(WORKER) && NoEquals(NO_PROVISION) && NoEquals(CLEAR_ATTRIBUTE)
    ensures NoEquals(NO_AUTO_PROVISION) && NoEquals(FORCE_PROVISION)
  {}

  lemma HopFlagLetters(flag: string)
    requires flag in HOP_FLAGS || flag == WORKER
    ensures |flag| > 6 && flag[0] == '-' && flag[1] == '-'
    ensures flag[2] == 'w' || flag[2] == 'c' || (flag[2] == 'n' && |flag| > 6) || (flag[2] == 'f' && |flag| > 9)
  {}

  lemma LettersAreNotText(flag: string)
    requires |flag| > 6
    requires flag[2] == 'w' || flag[2] == 'c' || flag[2] == 'n' || (flag[2] == 'f' && |flag| > 9)
    ensures flag !in STRING_FLAGS
  {
    TextFlagLetters();
  }

  lemma HopFlagsAreNotText(flag: string)
    requires flag in HOP_FLAGS || flag == WORKER
    ensures NoEquals(flag) && flag !in STRING_FLAGS && LooksLikeFlag(flag) && flag != "--"
  {
    HopFlagsHaveNoEquals();
    HopFlagLetters(flag);
    LettersAreNotText(flag);
  }

  lemma HopFlagsAreSwitches(flag: string)
    requires flag in HOP_FLAGS
    ensures flag in BOOL_FLAGS && flag != WORKER && SwitchOf(flag) == flag
  {
    assert |BOOL_FLAGS| == 23;
    assert BOOL_FLAGS[4] == NO_PROVISION && BOOL_FLAGS[9] == CLEAR_ATTRIBUTE;
    assert BOOL_FLAGS[5] == NO_AUTO_PROVISION && BOOL_FLAGS[6] == FORCE_PROVISION;
  }

  lemma WorkerIsNoSwitch()
    ensures WORKER !in BOOL_FLAGS
  {
    assert |BOOL_FLAGS| == 23;
    assert forall f :: f in BOOL_FLAGS ==> |f| <= 2 || f[2] != 'w';
  }

  /** Reading one of the hop flags turns its switch on and uses one token. */
  lemma HopFlagSteps(flag: string, rest: seq<string>, o: Options)
    requires flag in HOP_FLAGS
    ensures StepFlag(flag, rest, o) == Success((o.(switches := o.switches + {flag}), 1))
  {
    HopFlagsAreNotText(flag);
    HopFlagsAreSwitches(flag);
    ExactFlag(STRING_FLAGS, flag);
    ExactFlag(BOOL_FLAGS, flag);
  }

  lemma WorkerSteps(rest: seq<string>, o: Options)
    ensures StepFlag(WORKER, rest, o) == Success((o.(worker := true), 1))
  {
    HopFlagsAreNotText(WORKER);
    WorkerIsNoSwitch();
    ExactFlag(STRING_FLAGS, WORKER);
    ExactFlag(BOOL_FLAGS, WORKER);
  }

  // ---------------------------------------------------------------- reading token lists

  /** Reading a list is reading its first part and then the second part from there. */
  lemma {:induction false} ParseAppend(a: seq<string>, b: seq<string>, o: Options, only: bool)
    requires ParseTokens(a, o, only).Success?
    ensures var mid := ParseTokens(a, o, only).value;
            ParseTokens(a + b, o, only) == ParseTokens(b, mid.0, mid.1)
    decreases |a|
  {
    if a == [] {
      assert a + b == b;
    } else {
      assert (a + b)[1..] == a[1..] + b;
      if only {
        ParseAppend(a[1..], b, o.(positional := o.positional + [a[0]]), true);
      } else if a[0] == "--" {
        ParseAppend(a[1..], b, o, true);
      } else if !LooksLikeFlag(a[0]) {
        ParseAppend(a[1..], b, StepWord(a[0], o), false);
      } else {
        var step := StepFlag(a[0], a[1..], o);
        StepFlagLooksAtOne(a[0], a[1..], b, o);
        assert (a + b)[step.value.1..] == a[step.value.1..] + b;
        ParseAppend(a[step.value.1..], b, step.value.0, false);
      }
    }
  }

  lemma StepFlagLooksAtOne(token: string, rest: seq<string>, more: seq<string>, o: Options)
    requires StepFlag(token, rest, o).Success?
    ensures StepFlag(token, rest + more, o) == StepFlag(token, rest, o)
  {
    var read := ReadSetting(token, rest);
    assert read.Success?;
    assert rest != [] ==> (rest + more)[0] == rest[0];
    FlagValueLooksAtOne(token, rest, more);
    assert ReadSetting(token, rest + more) == read;
  }

  lemma FlagValueLooksAtOne(token: string, rest: seq<string>, more: seq<string>)
    ensures forall flag :: FlagValue(token, rest, flag).Success? ==> FlagValue(token, rest + more, flag) == FlagValue(token, rest, flag)
    ensures forall flag :: FlagValue(token, rest, flag).Success? ==> FlagValue(token, rest, flag).value.1 <= 2
  {}

  lemma StepFlagIgnoresWorker(token: string, rest: seq<string>, o: Options)
    ensures var plain := StepFlag(token, rest, o);
            StepFlag(token, rest, o.(worker := true))
            == if plain.Success? then Success((plain.value.0.(worker := true), plain.value.1)) else plain
  {
    var read := ReadSetting(token, rest);
    if read.Success? {
      ApplyIgnoresWorker(read.value.0, o);
    }
  }

  lemma ApplyIgnoresWorker(setting: Setting, o: Options)
    ensures Apply(setting, o.(worker := true)) == Apply(setting, o).(worker := true)
    ensures Apply(setting, o).positional == o.positional
  {}

  /** The worker flag is only ever set, never read: it rides along. */
  lemma {:induction false} WorkerRidesAlong(args: seq<string>, o: Options, only: bool)
    ensures var plain := ParseTokens(args, o, only);
            ParseTokens(args, o.(worker := true), only)
            == if plain.Success? then Success((plain.value.0.(worker := true), plain.value.1)) else plain
    decreases |args|
  {
    if args == [] {
    } else if only {
      WorkerRidesAlong(args[1..], o.(positional := o.positional + [args[0]]), true);
    } else if args[0] == "--" {
      WorkerRidesAlong(args[1..], o, true);
    } else if !LooksLikeFlag(args[0]) {
      WorkerRidesAlong(args[1..], StepWord(args[0], o), false);
      assert StepWord(args[0], o.(worker := true)) == StepWord(args[0], o).(worker := true);
    } else {
      StepFlagIgnoresWorker(args[0], args[1..], o);
      var step := StepFlag(args[0], args[1..], o);
      if step.Success? {
        WorkerRidesAlong(args[step.value.1..], step.value.0, false);
      }
    }
  }

  /** No flag in the list has `value` as its separate value token. */
  predicate NoFlagTakes(args: seq<string>, o: Options, value: string)
    decreases |args|
  {
    args == [] || args[0] == "--" ||
    if !LooksLikeFlag(args[0]) then NoFlagTakes(args[1..], StepWord(args[0], o), value)
    else
      var step := StepFlag(args[0], args[1..], o);
      step.Success? ==>
        (step.value.1 == 2 ==> args[1] != value) && NoFlagTakes(args[step.value.1..], step.value.0, value)
  }

  /** If the worker flag was not read, a token that spells it stands after the end marker and
      is therefore a positional argument. */
  lemma {:induction false} UnreadWorkerIsPositional(args: seq<string>, o: Options)
    requires ParseTokens(args, o, false).Success? && !ParseTokens(args, o, false).value.0.worker
    requires NoFlagTakes(args, o, WORKER) && WORKER in args
    ensures ParseTokens(args, o, false).value.1
    ensures WORKER in ParseTokens(args, o, false).value.0.positional
    decreases |args|
  {
    HopFlagsAreNotText(WORKER);
    if args[0] == "--" {
      AfterMarker(args[1..], o);
    } else if !LooksLikeFlag(args[0]) {
      UnreadWorkerIsPositional(args[1..], StepWord(args[0], o));
    } else {
      var step := StepFlag(args[0], args[1..], o);
      var rest := args[step.value.1..];
      if WORKER !in rest {
        WorkerIsRead(args, o);
      }
      UnreadWorkerIsPositional(rest, step.value.0);
    }
  }

  lemma WorkerIsRead(args: seq<string>, o: Options)
    requires args != [] && LooksLikeFlag(args[0]) && args[0] != "--" && WORKER in args
    requires StepFlag(args[0], args[1..], o).Success? && ParseTokens(args, o, false).Success?
    requires NoFlagTakes(args, o, WORKER)
    requires WORKER !in args[StepFlag(args[0], args[1..], o).value.1..]
    ensures ParseTokens(args, o, false).value.0.worker
  {
    var used := StepFlag(args[0], args[1..], o).value.1;
    FlagUsesTwo(args[0], args[1..], o);
    FirstIsValue(args, used, WORKER);
    WorkerSteps(args[1..], o);
    WorkerStays(args[1..], o.(worker := true), false);
  }

  lemma FlagUsesTwo(token: string, rest: seq<string>, o: Options)
    ensures StepFlag(token, rest, o).Success? ==> StepFlag(token, rest, o).value.1 <= 2
  {
    FlagValueLooksAtOne(token, rest, []);
  }

  lemma FirstIsValue(args: seq<string>, used: nat, value: string)
    requires 1 <= used <= 2 && used <= |args| && value in args && value !in args[used..]
    requires used == 2 ==> args[1] != value
    ensures args[0] == value
  {
    var front := if used == 1 then [args[0]] else [args[0], args[1]];
    assert args == front + args[used..];
  }

  lemma {:induction false} AfterMarker(args: seq<string>, o: Options)
    ensures ParseTokens(args, o, true) == Success((o.(positional := o.positional + args), true))
  {
    if args == [] {
      assert o.positional + args == o.positional;
    } else {
      AfterMarker(args[1..], o.(positional := o.positional + [args[0]]));
      assert o.positional + [args[0]] + args[1..] == o.positional + args;
    }
  }

  lemma {:induction false} WorkerStays(args: seq<string>, o: Options, only: bool)
    requires o.worker
    ensures ParseTokens(args, o, only).Success? ==> ParseTokens(args, o, only).value.0.worker
    decreases |args|
  {
    WorkerRidesAlong(args, o, only);
    assert o.(worker := true) == o;
  }

  /** Positional arguments are tokens of the list. */
  lemma {:induction false} PositionalAreTokens(args: seq<string>, o: Options, only: bool)
    requires ParseTokens(args, o, only).Success?
    ensures forall p :: p in ParseTokens(args, o, only).value.0.positional ==> p in o.positional || p in args
    decreases |args|
  {
    if args != [] {
      if only {
        PositionalAreTokens(args[1..], o.(positional := o.positional + [args[0]]), true);
      } else if args[0] == "--" {
        PositionalAreTokens(args[1..], o, true);
      } else if !LooksLikeFlag(args[0]) {
        PositionalAreTokens(args[1..], StepWord(args[0], o), false);
      } else {
        var step, read := StepFlag(args[0], args[1..], o), ReadSetting(args[0], args[1..]);
        ApplyIgnoresWorker(read.value.0, o);
        assert step.value.0.positional == o.positional;
        PositionalAreTokens(args[step.value.1..], step.value.0, false);
      }
    }
  }

  lemma {:induction false} WithoutAbsentWorker(tokens: seq<string>)
    requires WORKER !in tokens
    ensures WithoutWorker(tokens) == tokens
  {
    if tokens != [] {
      WithoutAbsentWorker(tokens[1..]);
    }
  }

  /** Reading hop flags in flag position turns exactly those switches on. */
  lemma {:induction false} HopFlagsRead(flags: seq<string>, o: Options)
    requires forall f :: f in flags ==> f in HOP_FLAGS
    ensures ParseTokens(flags, o, false)
            == Success((o.(switches := o.switches + (set f | f in flags)), false))
  {
    if flags == [] {
      assert o.switches + (set f | f in flags) == o.switches;
    } else {
      HopFlagSteps(flags[0], flags[1..], o);
      HopFlagsAreNotText(flags[0]);
      HopFlagsRead(flags[1..], o.(switches := o.switches + {flags[0]}));
      assert o.switches + {flags[0]} + (set f | f in flags[1..]) == o.switches + (set f | f in flags);
    }
  }

  // ---------------------------------------------------------------- the theorem

  function MarkerSeen(tokens: seq<string>): bool {
    ParseTokens(tokens, DEFAULTS, false).Success? && ParseTokens(tokens, DEFAULTS, false).value.1
  }

  /** When the hop keeps the effective options. Without an end-of-options marker, a switch that
      the plan turned on must not be spelled by a token that is only a value or a word; after a
      marker nothing can be appended and no worker token may be dropped. */
  predicate HopKeeps(tokens: seq<string>, parsed: Options, effective: Options) {
    if MarkerSeen(tokens) then
      WORKER !in tokens &&
      forall f :: f in HOP_FLAGS && f in effective.switches ==> f in parsed.switches && f in tokens
    else
      forall f :: f in HOP_FLAGS && f in effective.switches ==> f in parsed.switches || f !in tokens
  }

  lemma EffectiveHasNoConflict(o: Options, ctx: Context)
    requires Conflicts(o).None?
    ensures Conflicts(Effective(o, PlanOf(o, ctx)).(worker := true)).None?
  {
    var e := Effective(o, PlanOf(o, ctx));
    assert CLEAR_ATTRIBUTE != NO_PROVISION && CLEAR_ATTRIBUTE != FORCE_PROVISION;
    assert "--no-hop" != CLEAR_ATTRIBUTE && "--force-hop" != CLEAR_ATTRIBUTE;
    assert "--no-hop" != NO_PROVISION && "--force-hop" != NO_PROVISION && FORCE_PROVISION != NO_PROVISION;
  }

  /** The child reads its worker flag first. */
  lemma ChildStarts(tokens: seq<string>, o: Options)
    ensures ParseTokens(ChildTokens(tokens, o), DEFAULTS, false)
            == ParseTokens(WithoutWorker(tokens) + Missing(o, WithoutWorker(tokens)), DEFAULTS.(worker := true), false)
  {
    var rest := WithoutWorker(tokens) + Missing(o, WithoutWorker(tokens));
    assert ChildTokens(tokens, o) == [WORKER] + rest;
    WorkerFirst([WORKER] + rest, rest);
  }

  lemma WorkerFirst(args: seq<string>, rest: seq<string>)
    requires args == [WORKER] + rest
    ensures ParseTokens(args, DEFAULTS, false) == ParseTokens(rest, DEFAULTS.(worker := true), false)
  {
    assert args[1..] == rest;
    HopFlagsAreNotText(WORKER);
    WorkerSteps(rest, DEFAULTS);
  }

  /** How the child reads its tokens when the parent's hold no worker token. */
  lemma ChildReads(tokens: seq<string>, o: Options)
    requires ParseTokens(tokens, DEFAULTS, false).Success? && WORKER !in tokens
    ensures var parent := ParseTokens(tokens, DEFAULTS, false).value;
            var missing := Missing(o, tokens);
            ParseTokens(ChildTokens(tokens, o), DEFAULTS, false)
            == if parent.1
               then Success((parent.0.(worker := true, positional := parent.0.positional + missing), true))
               else Success((parent.0.(worker := true, switches := parent.0.switches + (set f | f in missing)), false))
  {
    WithoutAbsentWorker(tokens);
    var parent := ParseTokens(tokens, DEFAULTS, false).value;
    var missing := Missing(o, tokens);
    ChildStarts(tokens, o);
    WorkerRidesAlong(tokens, DEFAULTS, false);
    ParseAppend(tokens, missing, DEFAULTS.(worker := true), false);
    if parent.1 {
      AfterMarker(missing, parent.0.(worker := true));
    } else {
      HopFlagsRead(missing, parent.0.(worker := true));
    }
  }

  /** If no flag was given the value "--worker", the child parses to the parent's effective options,
      with the worker flag on, exactly when `HopKeeps` holds. */
  lemma PlainHopKeepsOptions(tokens: seq<string>, ctx: Context)
    requires Parsed(tokens).Success? && !Parsed(tokens).value.worker
    requires NoFlagTakes(tokens, DEFAULTS, WORKER)
    ensures var parsed := Parsed(tokens).value;
            var effective := Effective(parsed, PlanOf(parsed, ctx));
            Parsed(ChildTokens(tokens, effective)) == Success(effective.(worker := true))
            <==> HopKeeps(tokens, parsed, effective)
  {
    var parsed := Parsed(tokens).value;
    var effective := Effective(parsed, PlanOf(parsed, ctx));
    if WORKER in tokens {
      UnreadWorkerIsPositional(tokens, DEFAULTS);
      if Parsed(ChildTokens(tokens, effective)).Success? {
        DroppedWorkerIsLost(tokens, effective);
      }
    } else {
      ChildReads(tokens, effective);
      AddedSwitchesAreHopFlags(parsed, ctx);
      ChildOptionsAgree(tokens, parsed, effective);
      EffectiveHasNoConflict(parsed, ctx);
    }
  }

  /** The options `ChildReads` describes against the effective ones, field by field. */
  lemma ChildOptionsAgree(tokens: seq<string>, parsed: Options, effective: Options)
    requires WORKER !in tokens && parsed.switches <= effective.switches
    requires effective == parsed.(switches := effective.switches)
    requires forall f :: f in effective.switches ==> f in parsed.switches || f in HOP_FLAGS
    ensures var missing := Missing(effective, tokens);
            HopKeeps(tokens, parsed, effective)
            <==> effective == if MarkerSeen(tokens) then parsed.(positional := parsed.positional + missing)
                              else parsed.(switches := parsed.switches + (set f | f in missing))
  {
    var missing := Missing(effective, tokens);
    if MarkerSeen(tokens) {
      if missing == [] {
        assert parsed.positional + missing == parsed.positional;
      } else {
        assert missing[0] in missing;
        assert |parsed.positional + missing| > |parsed.positional|;
      }
    } else if HopKeeps(tokens, parsed, effective) {
      assert parsed.switches + (set f | f in missing) == effective.switches;
    } else {
      var f :| f in HOP_FLAGS && f in effective.switches && f !in parsed.switches && f in tokens;
      assert f !in parsed.switches + (set g | g in missing);
    }
  }

  lemma AddedSwitchesAreHopFlags(parsed: Options, ctx: Context)
    ensures forall f :: f in Effective(parsed, PlanOf(parsed, ctx)).switches ==> f in parsed.switches || f in HOP_FLAGS
    ensures parsed.switches <= Effective(parsed, PlanOf(parsed, ctx)).switches
  {
  }

  /** A positional "--worker" never reaches the child. */
  lemma DroppedWorkerIsLost(tokens: seq<string>, o: Options)
    requires Parsed(ChildTokens(tokens, o)).Success?
    ensures WORKER !in Parsed(ChildTokens(tokens, o)).value.positional
  {
    var rest := WithoutWorker(tokens) + Missing(o, WithoutWorker(tokens));
    ChildStarts(tokens, o);
    assert forall f :: f in HOP_FLAGS ==> f != WORKER by {
      forall f | f in HOP_FLAGS ensures f != WORKER { HopFlagsAreSwitches(f); }
    }
    PositionalAreTokens(rest, DEFAULTS.(worker := true), false);
  }

  lemma ChildIsWorker(tokens: seq<string>, o: Options)
    requires Parsed(ChildTokens(tokens, o)).Success?
    ensures Parsed(ChildTokens(tokens, o)).value.worker
  {
    var rest := WithoutWorker(tokens) + Missing(o, WithoutWorker(tokens));
    ChildStarts(tokens, o);
    WorkerStays(rest, DEFAULTS.(worker := true), false);
  }

  lemma WorkerPlan(o: Options, ctx: Context)
    requires o.worker
    ensures !PlanOf(o, ctx).childRequired
  {}

  /** A worker never asks for another hop, whatever its own probe says: a chain of hops has
      length at most one. */
  lemma WorkerNeverHops(tokens: seq<string>, o: Options, ctx: Context)
    requires Parsed(ChildTokens(tokens, o)).Success?
    ensures !PlanOf(Parsed(ChildTokens(tokens, o)).value, ctx).childRequired
  {
    ChildIsWorker(tokens, o);
    WorkerPlan(Parsed(ChildTokens(tokens, o)).value, ctx);
  }

  /** A child that reads the effective options and probes the same machine plans the same work as
      its parent: the same provisioning, target, stamp and cleaning, without a hop. */
  lemma ChildPlansTheSame(o: Options, ctx: Context)
    ensures var plan := PlanOf(o, ctx);
            PlanOf(Effective(o, plan).(worker := true), ctx) == plan.(childRequired := false, autoNoProvision := false)
  {
    var plan := PlanOf(o, ctx);
    var e := Effective(o, plan).(worker := true);
    assert Text(e, "--permission") == Text(o, "--permission");
    assert NO_PROVISION != CLEAR_ATTRIBUTE && FORCE_PROVISION != CLEAR_ATTRIBUTE && FORCE_PROVISION != NO_PROVISION
      && NO_AUTO_PROVISION != NO_PROVISION && NO_AUTO_PROVISION != CLEAR_ATTRIBUTE;
    assert NO_PROVISION in e.switches <==> plan.noProvision;
  }

  /** When the child works under the parent's options. Without an end-of-options marker it always
      does; after one nothing can be appended and no worker token may be dropped. */
  predicate HopReaches(tokens: seq<string>, effective: Options) {
    MarkerSeen(tokens) ==>
      WORKER !in tokens && forall f :: f in HOP_FLAGS && f in effective.switches ==> f in tokens
  }

  /** A child that reads some of the switches its parent's plan added finds the rest itself. */
  lemma PlanRestores(o: Options, c: Options, ctx: Context)
    requires c == o.(worker := true, switches := c.switches)
    requires o.switches <= c.switches <= Effective(o, PlanOf(o, ctx)).switches
    ensures Effective(c, PlanOf(c, ctx)) == Effective(o, PlanOf(o, ctx)).(worker := true)
  {
    var plan := PlanOf(o, ctx);
    assert NO_PROVISION != CLEAR_ATTRIBUTE && FORCE_PROVISION != CLEAR_ATTRIBUTE && FORCE_PROVISION != NO_PROVISION
      && NO_AUTO_PROVISION != NO_PROVISION && NO_AUTO_PROVISION != CLEAR_ATTRIBUTE;
    assert Text(c, "--permission") == Text(o, "--permission");
    assert FORCE_PROVISION in c.switches <==> FORCE_PROVISION in o.switches;
    assert NO_AUTO_PROVISION in c.switches <==> NO_AUTO_PROVISION in o.switches;
    assert PlanOf(c, ctx).noProvision == plan.noProvision && PlanOf(c, ctx).cleanNeeded == plan.cleanNeeded;
  }

  lemma FewerSwitchesHaveNoConflict(o: Options, e: Options)
    requires o == e.(switches := o.switches) && o.switches <= e.switches && Conflicts(e).None?
    ensures Conflicts(o).None?
  {}

  /** If no flag was given the value "--worker", the child parses and under the same probe its own
      plan leads it to the parent's effective options, with the worker flag on, exactly when
      `HopReaches` holds. A switch that the parse misses because another token spells it is planned
      again. */
  lemma PlainHopKeepsMeaning(tokens: seq<string>, ctx: Context)
    requires Parsed(tokens).Success? && !Parsed(tokens).value.worker
    requires NoFlagTakes(tokens, DEFAULTS, WORKER)
    ensures var parsed := Parsed(tokens).value;
            var effective := Effective(parsed, PlanOf(parsed, ctx));
            ChildArrives(Parsed(ChildTokens(tokens, effective)), effective, ctx) <==> HopReaches(tokens, effective)
  {
    var parsed := Parsed(tokens).value;
    var effective := Effective(parsed, PlanOf(parsed, ctx));
    AddedSwitchesAreHopFlags(parsed, ctx);
    if WORKER in tokens {
      UnreadWorkerIsPositional(tokens, DEFAULTS);
      if Parsed(ChildTokens(tokens, effective)).Success? {
        DroppedWorkerIsLost(tokens, effective);
      }
    } else {
      EffectiveHasNoConflict(parsed, ctx);
      ChildWithoutWorkerToken(tokens, parsed, effective, ctx);
    }
  }

  lemma ChildWithoutWorkerToken(tokens: seq<string>, parsed: Options, effective: Options, ctx: Context)
    requires Parsed(tokens) == Success(parsed) && WORKER !in tokens
    requires effective == Effective(parsed, PlanOf(parsed, ctx)) && parsed.switches <= effective.switches
    requires Conflicts(effective.(worker := true)).None?
    ensures ChildArrives(Parsed(ChildTokens(tokens, effective)), effective, ctx) <==> HopReaches(tokens, effective)
  {
    ChildReads(tokens, effective);
    var missing := Missing(effective, tokens);
    if MarkerSeen(tokens) {
      if missing != [] {
        assert missing[0] in missing;
        assert |parsed.positional + missing| > |parsed.positional|;
      } else {
        assert parsed.positional + missing == parsed.positional;
        assert forall f :: f in HOP_FLAGS && f in effective.switches ==> f !in missing;
        ChildWithSome(parsed, parsed.(worker := true), effective, ctx);
      }
    } else {
      ChildWithSome(parsed, parsed.(worker := true, switches := parsed.switches + (set f | f in missing)), effective, ctx);
    }
  }

  lemma ChildWithSome(parsed: Options, child: Options, effective: Options, ctx: Context)
    requires effective == Effective(parsed, PlanOf(parsed, ctx)) && Conflicts(effective.(worker := true)).None?
    requires child == parsed.(worker := true, switches := child.switches)
    requires parsed.switches <= child.switches <= effective.switches
    ensures Conflicts(child).None? && ChildArrives(Success(child), effective, ctx)
  {
    FewerSwitchesHaveNoConflict(child, effective.(worker := true));
    PlanRestores(parsed, child, ctx);
  }

  /** The child's own `Dispatch` arrives at the parent's effective options. */
  predicate ChildArrives(child: Result<Options, OptionError>, effective: Options, ctx: Context) {
    child.Success? && Effective(child.value, PlanOf(child.value, ctx)) == effective.(worker := true)
  }

  lemma ChildTokensAreNulFree(tokens: seq<string>, effective: Options)
    requires SameImage.NulFree(tokens)
    ensures SameImage.NulFree(ChildTokens(tokens, effective))
  {
    var child := ChildTokens(tokens, effective);
    forall i | 0 <= i < |child| ensures '\0' !in child[i] {
      if child[i] in tokens {
        var k :| 0 <= k < |tokens| && tokens[k] == child[i];
      } else {
        assert child[i] == WORKER || child[i] in HOP_FLAGS;
      }
    }
  }
}
