/** Concrete command lines on which the hop to a worker child behaves in a way one might not expect. */
module HopExamples {
  import opened Wrappers
  import opened Options
  import opened OptionSpelling
  import opened WorkerHop

  /** A machine that signs for tests and a token that still carries the attribute: the plan turns
      provisioning off, wants the attribute cleared, and needs a child to do it. */
  const INHERITED := Context(false, true, true, 0)

  /** A machine that does not and a token without the attribute: a child has to stamp its token. */
  const UNSTAMPED := Context(false, false, false, 0)

  const RULES := "rules"

  /** A text flag with no say in the trust plan. */
  predicate PlainFlag(flag: string) {
    flag in STRING_FLAGS && LooksLikeFlag(flag) && flag != "--" && flag != "--permission"
  }

  function WithText(o: Options, flag: string, value: string): Options {
    o.(texts := o.texts[flag := value])
  }

  lemma WordThen(args: seq<string>, word: string, rest: seq<string>, o: Options)
    requires args == [word] + rest && !LooksLikeFlag(word) && word != "--"
    ensures ParseTokens(args, o, false) == ParseTokens(rest, StepWord(word, o), false)
    ensures NoFlagTakes(args, o, WORKER) == NoFlagTakes(rest, StepWord(word, o), WORKER)
  {
    assert args[1..] == rest;
  }

  lemma TextThen(args: seq<string>, flag: string, value: string, rest: seq<string>, o: Options)
    requires args == [flag, value] + rest && PlainFlag(flag)
    ensures ParseTokens(args, o, false) == ParseTokens(rest, WithText(o, flag, value), false)
    ensures value == WORKER ==> !NoFlagTakes(args, o, WORKER)
  {
    assert args[1..] == [value] + rest && args[2..] == rest;
    TextFlagReads(flag, value, rest, o);
  }

  lemma InlineThen(args: seq<string>, flag: string, value: string, rest: seq<string>, o: Options)
    requires args == [flag + "=" + value] + rest && PlainFlag(flag)
    ensures ParseTokens(args, o, false) == ParseTokens(rest, WithText(o, flag, value), false)
  {
    assert args[1..] == rest;
    TextFlagReads(flag, value, rest, o);
    assert (flag + "=" + value)[0] == flag[0] && |flag + "=" + value| > 1;
    assert flag + "=" + value != "--" by {
      assert (flag + "=" + value)[|flag|] == '=';
    }
  }

  lemma NothingThen(flag: string, o: Options)
    requires PlainFlag(flag)
    ensures ParseTokens([flag], o, false) == Failure(MissingValue(flag))
  {
    StringFlagsHaveNoEquals();
    ExactFlag(STRING_FLAGS, flag);
    NoInlineValue(flag);
  }

  lemma WorkerThen(args: seq<string>, rest: seq<string>, o: Options)
    requires args == [WORKER] + rest
    ensures ParseTokens(args, o, false) == ParseTokens(rest, o.(worker := true), false)
  {
    assert args[1..] == rest;
    HopFlagsAreNotText(WORKER);
    WorkerSteps(rest, o);
  }

  lemma NoConflictWithout(o: Options)
    requires o.switches == {} && Text(o, "--permission") == ""
    ensures Conflicts(o).None?
  {}

  /** `rules <flag> <value>` parses to a rules command with that text. */
  lemma RulesText(tokens: seq<string>, flag: string, value: string, parsed: Options)
    requires tokens == [RULES, flag, value] && PlainFlag(flag)
    requires parsed == WithText(StepWord(RULES, DEFAULTS), flag, value)
    ensures ParseTokens(tokens, DEFAULTS, false) == Success((parsed, false)) && Parsed(tokens) == Success(parsed)
    ensures value == WORKER ==> !NoFlagTakes(tokens, DEFAULTS, WORKER)
    ensures parsed.command == RULES && parsed.switches == {} && !parsed.worker && Text(parsed, "--permission") == ""
  {
    RulesThen(tokens, flag, value, [], DEFAULTS);
    NoConflictWithout(parsed);
  }

  lemma RulesPlans(o: Options)
    requires o.command == RULES && o.switches == {} && !o.worker && Text(o, "--permission") == ""
    ensures PlanOf(o, INHERITED).childRequired && PlanOf(o, UNSTAMPED).childRequired
    ensures Effective(o, PlanOf(o, INHERITED)) == o.(switches := {NO_PROVISION, CLEAR_ATTRIBUTE})
    ensures Effective(o, PlanOf(o, UNSTAMPED)) == o
  {
    assert WORKER_COMMANDS[1] == RULES && RULES != "provision";
  }

  /** `rules <flag> --no-provision`: the parent finds the switch's spelling among its tokens and does
      not append it, so the child does not read it, but plans it again. */
  lemma MaskedSwitchIsPlannedAgain(flag: string)
    requires PlainFlag(flag)
    ensures var tokens := [RULES, flag, NO_PROVISION];
            Parsed(tokens).Success? &&
            (var parsed := Parsed(tokens).value;
             var effective := Effective(parsed, PlanOf(parsed, INHERITED));
             var child := Parsed(ChildTokens(tokens, effective));
             PlanOf(parsed, INHERITED).childRequired && NO_PROVISION in effective.switches
             && child.Success? && NO_PROVISION !in child.value.switches && ChildArrives(child, effective, INHERITED))
  {
    var tokens := [RULES, flag, NO_PROVISION];
    var parsed := WithText(StepWord(RULES, DEFAULTS), flag, NO_PROVISION);
    RulesText(tokens, flag, NO_PROVISION, parsed);
    RulesPlans(parsed);
    var effective := Effective(parsed, PlanOf(parsed, INHERITED));
    assert tokens[2] == NO_PROVISION;
    HopFlagsAreNotText(WORKER);
    HopFlagsAreSwitches(NO_PROVISION);
    assert WORKER !in tokens;
    EffectiveHasNoConflict(parsed, INHERITED);
    ChildWithoutWorkerToken(tokens, parsed, effective, INHERITED);
    ChildReads(tokens, effective);
  }

  /** `rules -- x`: after the marker, the switches that the parent appends are positional arguments
      of the child. It plans them again, but the arguments stay. */
  lemma SwitchesAfterMarkerArePositional(x: string)
    requires x !in HOP_FLAGS && x != WORKER
    ensures var tokens := [RULES, "--", x];
            Parsed(tokens).Success? &&
            (var parsed := Parsed(tokens).value;
             var effective := Effective(parsed, PlanOf(parsed, INHERITED));
             var child := Parsed(ChildTokens(tokens, effective));
             PlanOf(parsed, INHERITED).childRequired
             && child == Success(parsed.(worker := true, positional := [x, NO_PROVISION, CLEAR_ATTRIBUTE]))
             && !ChildArrives(child, effective, INHERITED))
  {
    var tokens := [RULES, "--", x];
    var parsed := StepWord(RULES, DEFAULTS).(positional := [x]);
    RulesMarker(tokens, x, parsed);
    RulesPlans(parsed);
    var effective := Effective(parsed, PlanOf(parsed, INHERITED));
    MarkerTokens(tokens, x);
    MarkerChild(tokens, x, parsed, effective);
    assert |parsed.(positional := [x, NO_PROVISION, CLEAR_ATTRIBUTE]).positional| != |parsed.positional|;
  }

  lemma MarkerChild(tokens: seq<string>, x: string, parsed: Options, effective: Options)
    requires ParseTokens(tokens, DEFAULTS, false) == Success((parsed, true)) && WORKER !in tokens
    requires parsed.positional == [x] && parsed.switches == {} && Text(parsed, "--permission") == ""
    requires effective.switches == {NO_PROVISION, CLEAR_ATTRIBUTE} && forall f :: f in HOP_FLAGS ==> f !in tokens
    ensures Parsed(ChildTokens(tokens, effective))
            == Success(parsed.(worker := true, positional := [x, NO_PROVISION, CLEAR_ATTRIBUTE]))
  {
    ChildReads(tokens, effective);
    OnlyTwoMissing(effective, tokens);
    var child := parsed.(worker := true, positional := [x, NO_PROVISION, CLEAR_ATTRIBUTE]);
    assert parsed.positional + [NO_PROVISION, CLEAR_ATTRIBUTE] == child.positional;
    NoConflictWithout(child);
  }

  lemma MarkerTokens(tokens: seq<string>, x: string)
    requires tokens == [RULES, "--", x] && x !in HOP_FLAGS && x != WORKER
    ensures WORKER !in tokens && forall f :: f in HOP_FLAGS ==> f !in tokens
  {
    assert RULES !in HOP_FLAGS && "--" !in HOP_FLAGS && RULES != WORKER && "--" != WORKER;
  }

  lemma OnlyTwoMissing(effective: Options, tokens: seq<string>)
    requires effective.switches == {NO_PROVISION, CLEAR_ATTRIBUTE} && forall f :: f in HOP_FLAGS ==> f !in tokens
    ensures Missing(effective, tokens) == [NO_PROVISION, CLEAR_ATTRIBUTE]
  {
    assert NO_AUTO_PROVISION !in effective.switches && FORCE_PROVISION !in effective.switches;
  }

  lemma RulesMarker(tokens: seq<string>, x: string, parsed: Options)
    requires tokens == [RULES, "--", x] && parsed == StepWord(RULES, DEFAULTS).(positional := [x])
    ensures ParseTokens(tokens, DEFAULTS, false) == Success((parsed, true)) && Parsed(tokens) == Success(parsed)
    ensures parsed.command == RULES && parsed.switches == {} && !parsed.worker && Text(parsed, "--permission") == ""
  {
    var o, rest := StepWord(RULES, DEFAULTS), ["--", x];
    WordThen(tokens, RULES, rest, DEFAULTS);
    assert rest[1..] == [x];
    AfterMarker([x], o);
    assert ParseTokens(rest, o, false) == ParseTokens([x], o, true);
    assert o.positional + [x] == [x];
    NoConflictWithout(parsed);
  }

  /** `rules <flag> --worker`: the value is dropped with the worker flags and the child has nothing
      to read. */
  lemma WorkerAsValueIsLost(flag: string)
    requires PlainFlag(flag)
    ensures var tokens := [RULES, flag, WORKER];
            Parsed(tokens).Success? && !Parsed(tokens).value.worker && !NoFlagTakes(tokens, DEFAULTS, WORKER) &&
            (var parsed := Parsed(tokens).value;
             var plan := PlanOf(parsed, UNSTAMPED);
             plan.childRequired && Parsed(ChildTokens(tokens, Effective(parsed, plan))) == Failure(MissingValue(flag)))
  {
    var tokens := [RULES, flag, WORKER];
    var parsed := WithText(StepWord(RULES, DEFAULTS), flag, WORKER);
    RulesText(tokens, flag, WORKER, parsed);
    RulesPlans(parsed);
    ChildOfWorkerValue(tokens, flag, parsed);
    ChildMissesValue([WORKER] + [RULES, flag], flag);
  }

  lemma ChildOfWorkerValue(tokens: seq<string>, flag: string, parsed: Options)
    requires tokens == [RULES, flag, WORKER] && PlainFlag(flag) && parsed.switches == {}
    ensures ChildTokens(tokens, parsed) == [WORKER] + [RULES, flag]
  {
    FlagIsNotWorker(flag);
    DropsWorker([RULES, flag], []);
    assert [RULES, flag] + [WORKER] + [] == tokens && [RULES, flag] + [] == [RULES, flag];
  }

  lemma ChildMissesValue(child: seq<string>, flag: string)
    requires child == [WORKER] + [RULES, flag] && PlainFlag(flag)
    ensures Parsed(child) == Failure(MissingValue(flag))
  {
    var rest, w := [RULES, flag], DEFAULTS.(worker := true);
    WorkerThen(child, rest, DEFAULTS);
    assert rest == [RULES] + [flag];
    WordThen(rest, RULES, [flag], w);
    NothingThen(flag, StepWord(RULES, w));
  }

  lemma FlagIsNotWorker(flag: string)
    requires PlainFlag(flag)
    ensures flag != WORKER && RULES != WORKER
  {
    HopFlagsAreNotText(WORKER);
  }

  lemma DropsNext(args: seq<string>)
    requires args != []
    ensures WithoutWorker(args) == (if args[0] == WORKER then [] else [args[0]]) + WithoutWorker(args[1..])
  {
    assert [] + WithoutWorker(args[1..]) == WithoutWorker(args[1..]);
  }

  lemma {:induction false} DropsWorker(front: seq<string>, back: seq<string>)
    requires WORKER !in front && WORKER !in back
    ensures WithoutWorker(front + [WORKER] + back) == front + back
  {
    var all := front + [WORKER] + back;
    DropsNext(all);
    if front == [] {
      assert all[1..] == back;
      WithoutAbsentWorker(back);
    } else {
      assert all[0] == front[0] && front[0] in front;
      assert all[1..] == front[1..] + [WORKER] + back;
      DropsWorker(front[1..], back);
      assert front == [front[0]] + front[1..];
    }
  }

  /** And ones that are repaired by accident: `rules <flag> --worker` and then `<flag>=v` twice or more.
      The child takes the first inline form as a value, and the next sets the text again. So no
      condition on single tokens is exact once a flag takes "--worker". */
  lemma WorkerAsValueMaySurvive(flag: string, v: string, copies: seq<string>)
    requires PlainFlag(flag) && |copies| >= 2 && forall k :: 0 <= k < |copies| ==> copies[k] == flag + "=" + v
    ensures var tokens := [RULES, flag, WORKER] + copies;
            Parsed(tokens).Success? && !NoFlagTakes(tokens, DEFAULTS, WORKER) &&
            (var parsed := Parsed(tokens).value;
             PlanOf(parsed, UNSTAMPED).childRequired && Effective(parsed, PlanOf(parsed, UNSTAMPED)) == parsed
             && Parsed(ChildTokens(tokens, parsed)) == Success(parsed.(worker := true)))
  {
    var tokens := [RULES, flag, WORKER] + copies;
    var parsed := WithText(StepWord(RULES, DEFAULTS), flag, v);
    RulesThen(tokens, flag, WORKER, copies, DEFAULTS);
    ThenCopies(tokens, flag, WORKER, v, copies, DEFAULTS);
    NoConflictWithout(parsed);
    RulesPlans(parsed);
    CopiesChild(tokens, flag, v, copies, parsed);
    var t, w := copies[0], DEFAULTS.(worker := true);
    var rest := [RULES, flag, t] + copies[1..];
    WorkerThen([WORKER] + rest, rest, DEFAULTS);
    ThenCopies(rest, flag, t, v, copies[1..], w);
    assert WithText(StepWord(RULES, w), flag, v) == parsed.(worker := true);
    NoConflictWithout(parsed.(worker := true));
  }

  lemma CopiesChild(tokens: seq<string>, flag: string, v: string, copies: seq<string>, parsed: Options)
    requires PlainFlag(flag) && copies != [] && forall k :: 0 <= k < |copies| ==> copies[k] == flag + "=" + v
    requires tokens == [RULES, flag, WORKER] + copies && parsed.switches == {}
    ensures ChildTokens(tokens, parsed) == [WORKER] + ([RULES, flag, copies[0]] + copies[1..])
  {
    FlagIsNotWorker(flag);
    InlineIsNotWorker(flag, v);
    DropsWorker([RULES, flag], copies);
    assert [RULES, flag] + [WORKER] + copies == tokens;
    assert [RULES, flag] + copies == [RULES, flag, copies[0]] + copies[1..];
  }

  lemma InlineIsNotWorker(flag: string, v: string)
    ensures flag + "=" + v != WORKER
  {
    HopFlagsHaveNoEquals();
    assert (flag + "=" + v)[|flag|] == '=';
  }

  lemma {:induction false} CopiesRead(copies: seq<string>, flag: string, v: string, o: Options)
    requires PlainFlag(flag) && copies != [] && forall k :: 0 <= k < |copies| ==> copies[k] == flag + "=" + v
    ensures ParseTokens(copies, o, false) == Success((WithText(o, flag, v), false))
  {
    var rest, next := copies[1..], WithText(o, flag, v);
    assert copies == [flag + "=" + v] + rest;
    InlineThen(copies, flag, v, rest, o);
    if rest != [] {
      CopiesRead(rest, flag, v, next);
      TextAgain(o, flag, v, v);
    }
  }

  lemma ThenCopies(args: seq<string>, flag: string, first: string, v: string, copies: seq<string>, o: Options)
    requires PlainFlag(flag) && copies != [] && forall k :: 0 <= k < |copies| ==> copies[k] == flag + "=" + v
    requires args == [RULES, flag, first] + copies
    ensures ParseTokens(args, o, false) == Success((WithText(StepWord(RULES, o), flag, v), false))
  {
    RulesThen(args, flag, first, copies, o);
    CopiesRead(copies, flag, v, WithText(StepWord(RULES, o), flag, first));
    TextAgain(StepWord(RULES, o), flag, first, v);
  }

  lemma RulesThen(args: seq<string>, flag: string, value: string, rest: seq<string>, o: Options)
    requires args == [RULES, flag, value] + rest && PlainFlag(flag)
    ensures ParseTokens(args, o, false) == ParseTokens(rest, WithText(StepWord(RULES, o), flag, value), false)
    ensures value == WORKER ==> !NoFlagTakes(args, o, WORKER)
  {
    var more := [flag, value] + rest;
    assert args == [RULES] + more;
    WordThen(args, RULES, more, o);
    TextThen(more, flag, value, rest, StepWord(RULES, o));
  }

  lemma TextAgain(o: Options, flag: string, a: string, b: string)
    ensures WithText(WithText(o, flag, a), flag, b) == WithText(o, flag, b)
  {
    assert o.texts[flag := a][flag := b] == o.texts[flag := b];
  }
}
