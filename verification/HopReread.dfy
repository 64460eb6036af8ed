/** The hop to a worker child, for every command line that a parent can hop with: what the child
    reads from the tokens that are left, and when it works under its parent's options. */
module HopReread {
  import opened Wrappers
  import opened Options
  import opened WorkerHop
  import SameImage

  // ---------------------------------------------------------------- reading what is left

  /** What the kept tokens and the appended switches are read as, worker flag aside. After an
      end-of-options marker the switches are positional; if the last kept token is a flag that
      lacks its value, it takes the first of them. */
  function Reread(kept: seq<string>, missing: seq<string>): Result<Options, OptionError> {
    var q := ParseTokens(kept, DEFAULTS, false);
    if q.Success? then
      var (o, only) := q.value;
      Success(if only then o.(positional := o.positional + missing) else WithSwitches(o, missing))
    else if q.error.MissingValue? && missing != [] then
      var r := ParseTokens(kept + missing[..1], DEFAULTS, false);
      if r.Failure? then Failure(r.error) else Success(WithSwitches(r.value.0, missing[1..]))
    else Failure(q.error)
  }

  function WithSwitches(o: Options, flags: seq<string>): Options {
    o.(switches := o.switches + set f | f in flags)
  }

  /** A list that fails for another reason than a missing value fails however it goes on. */
  lemma {:induction false} FailureStays(a: seq<string>, b: seq<string>, o: Options, only: bool)
    requires ParseTokens(a, o, only).Failure? && !ParseTokens(a, o, only).error.MissingValue?
    ensures ParseTokens(a + b, o, only) == ParseTokens(a, o, only)
    decreases |a|
  {
    assert (a + b)[1..] == a[1..] + b;
    if only {
      FailureStays(a[1..], b, o.(positional := o.positional + [a[0]]), true);
    } else if a[0] == "--" {
      FailureStays(a[1..], b, o, true);
    } else if !LooksLikeFlag(a[0]) {
      FailureStays(a[1..], b, StepWord(a[0], o), false);
    } else {
      var step := StepFlag(a[0], a[1..], o);
      StepLooksAtOne(a[0], a[1..], b, o);
      if step.Success? {
        assert (a + b)[step.value.1..] == a[step.value.1..] + b;
        FailureStays(a[step.value.1..], b, step.value.0, false);
      }
    }
  }

  lemma StepLooksAtOne(token: string, rest: seq<string>, more: seq<string>, o: Options)
    requires var step := StepFlag(token, rest, o); step.Success? || !step.error.MissingValue?
    ensures StepFlag(token, rest + more, o) == StepFlag(token, rest, o)
  {
    ValueLooksAtOne(token, rest, more);
    assert ReadSetting(token, rest + more) == ReadSetting(token, rest);
  }

  lemma ValueLooksAtOne(token: string, rest: seq<string>, more: seq<string>)
    ensures forall flag :: FlagValue(token, rest, flag).Success? ==> FlagValue(token, rest + more, flag) == FlagValue(token, rest, flag)
    ensures forall flag :: FlagValue(token, rest, flag).Failure? ==> FlagValue(token, rest, flag).error.MissingValue?
  {
    assert rest != [] ==> (rest + more)[0] == rest[0];
  }

  /** A list that lacks the value of its last flag takes one more token as that value. */
  lemma {:induction false} MissingValueIsTaken(a: seq<string>, x: string, o: Options, only: bool)
    requires ParseTokens(a, o, only).Failure? && ParseTokens(a, o, only).error.MissingValue?
    ensures var r := ParseTokens(a + [x], o, only);
      if r.Success? then !r.value.1 else !r.error.MissingValue?
    decreases |a|
  {
    assert (a + [x])[1..] == a[1..] + [x];
    if only {
      MissingValueIsTaken(a[1..], x, o.(positional := o.positional + [a[0]]), true);
    } else if a[0] == "--" {
      AfterMarker(a[1..], o);
    } else if !LooksLikeFlag(a[0]) {
      MissingValueIsTaken(a[1..], x, StepWord(a[0], o), false);
    } else {
      var step := StepFlag(a[0], a[1..], o);
      if step.Success? {
        StepLooksAtOne(a[0], a[1..], [x], o);
        assert (a + [x])[step.value.1..] == a[step.value.1..] + [x];
        MissingValueIsTaken(a[step.value.1..], x, step.value.0, false);
      } else {
        LastFlagTakes(a[0], a[1..], x, o);
        var next := StepFlag(a[0], [x], o);
        assert a[1..] + [x] == [x];
        if next.Success? {
          assert (a + [x])[next.value.1..] == [];
        }
      }
    }
  }

  lemma LastFlagTakes(token: string, rest: seq<string>, x: string, o: Options)
    requires var step := StepFlag(token, rest, o); step.Failure? && step.error.MissingValue?
    ensures rest == []
    ensures var next := StepFlag(token, [x], o); if next.Success? then next.value.1 == 2 else !next.error.MissingValue?
  {
    LastValueIsTaken(token, rest, x);
    var read, next := ReadSetting(token, rest), ReadSetting(token, [x]);
    assert read.Failure? && read.error.MissingValue?;
    assert rest == [];
    assert if next.Success? then next.value.1 == 2 else !next.error.MissingValue?;
  }

  lemma LastValueIsTaken(token: string, rest: seq<string>, x: string)
    ensures forall flag :: FlagValue(token, rest, flag).Failure? ==> rest == [] && FlagValue(token, [x], flag) == Success((x, 2))
    ensures rest != [] ==> forall flag :: FlagValue(token, rest, flag).Success?
  {}

  /** The kept tokens with the switches after them are read as `Reread` says. */
  lemma ReadsKept(kept: seq<string>, missing: seq<string>)
    requires forall f :: f in missing ==> f in HOP_FLAGS
    ensures var r := ParseTokens(kept + missing, DEFAULTS, false);
      Reread(kept, missing) == if r.Failure? then Failure(r.error) else Success(r.value.0)
  {
    var q := ParseTokens(kept, DEFAULTS, false);
    if q.Success? {
      ParseAppend(kept, missing, DEFAULTS, false);
      if q.value.1 {
        AfterMarker(missing, q.value.0);
      } else {
        HopFlagsRead(missing, q.value.0);
      }
    } else if q.error.MissingValue? && missing != [] {
      CompletedReads(kept, missing);
    } else if q.error.MissingValue? {
      assert kept + missing == kept;
    } else {
      FailureStays(kept, missing, DEFAULTS, false);
    }
  }

  lemma CompletedReads(kept: seq<string>, missing: seq<string>)
    requires missing != [] && forall f :: f in missing ==> f in HOP_FLAGS
    requires ParseTokens(kept, DEFAULTS, false).Failure? && ParseTokens(kept, DEFAULTS, false).error.MissingValue?
    ensures var r, all := ParseTokens(kept + missing[..1], DEFAULTS, false), ParseTokens(kept + missing, DEFAULTS, false);
      all == if r.Failure? then r else Success((WithSwitches(r.value.0, missing[1..]), false))
  {
    var completed, rest := kept + missing[..1], missing[1..];
    assert missing[..1] == [missing[0]];
    assert completed + rest == kept + missing;
    MissingValueIsTaken(kept, missing[0], DEFAULTS, false);
    var r := ParseTokens(completed, DEFAULTS, false);
    if r.Success? {
      ParseAppend(completed, rest, DEFAULTS, false);
      HopFlagsRead(rest, r.value.0);
    } else {
      FailureStays(completed, rest, DEFAULTS, false);
    }
  }

  /** The child reads its tokens as `Reread` says, with the worker flag on. */
  lemma ChildRereads(tokens: seq<string>, o: Options)
    ensures var kept := WithoutWorker(tokens);
            var r, child := Reread(kept, Missing(o, kept)), ParseTokens(ChildTokens(tokens, o), DEFAULTS, false);
      if r.Failure? then child == Failure(r.error)
      else child.Success? && child.value.0 == r.value.(worker := true)
  {
    var kept := WithoutWorker(tokens);
    ChildStarts(tokens, o);
    WorkerRidesAlong(kept + Missing(o, kept), DEFAULTS, false);
    ReadsKept(kept, Missing(o, kept));
  }

  // ---------------------------------------------------------------- when the child arrives

  /** A plan made from the options `c` turns this switch on. */
  predicate PlannedAgain(flag: string, c: Options, ctx: Context) {
    (flag == NO_PROVISION && AutoNoProvision(c, ctx)) || (flag == CLEAR_ATTRIBUTE && PlanOf(c, ctx).cleanNeeded)
  }

  /** The same options but for the switches and the worker flag. */
  predicate SameWords(c: Options, effective: Options) {
    c.(switches := {}, worker := true) == effective.(switches := {}, worker := true)
  }

  /** Nothing of the effective options is lost on a child that reads `c`: the same words, no switch
      too many, and each one that lacks is planned again. */
  predicate Recovers(c: Options, effective: Options, ctx: Context) {
    && SameWords(c, effective) && c.switches <= effective.switches
    && forall f :: f in effective.switches && f !in c.switches ==> PlannedAgain(f, c, ctx)
  }

  lemma RecoversExactlyWhen(parsed: Options, c: Options, ctx: Context)
    requires c.worker && Conflicts(parsed).None?
    ensures var effective := Effective(parsed, PlanOf(parsed, ctx));
            var child := if Conflicts(c).Some? then Failure(Conflicts(c).value) else Success(c);
      ChildArrives(child, effective, ctx) <==> Recovers(c, effective, ctx)
  {
    var effective := Effective(parsed, PlanOf(parsed, ctx));
    EffectiveHasNoConflict(parsed, ctx);
    if Recovers(c, effective, ctx) {
      FewerSwitchesHaveNoConflict(c, effective.(worker := true));
      RecoversAll(parsed, c, ctx);
    } else if Conflicts(c).None? && ChildArrives(Success(c), effective, ctx) {
      ArrivesByPlan(c, effective, ctx);
    }
  }

  lemma ArrivesByPlan(c: Options, effective: Options, ctx: Context)
    requires Effective(c, PlanOf(c, ctx)) == effective.(worker := true)
    ensures Recovers(c, effective, ctx)
  {}

  lemma RecoversAll(parsed: Options, c: Options, ctx: Context)
    requires c.worker && Recovers(c, Effective(parsed, PlanOf(parsed, ctx)), ctx)
    ensures Effective(c, PlanOf(c, ctx)) == Effective(parsed, PlanOf(parsed, ctx)).(worker := true)
  {
    var effective := Effective(parsed, PlanOf(parsed, ctx));
    assert NO_PROVISION != CLEAR_ATTRIBUTE && FORCE_PROVISION != CLEAR_ATTRIBUTE && FORCE_PROVISION != NO_PROVISION
      && NO_AUTO_PROVISION != NO_PROVISION && NO_AUTO_PROVISION != CLEAR_ATTRIBUTE;
    assert c.texts == parsed.texts && c.command == parsed.command;
    assert FORCE_PROVISION in c.switches <==> FORCE_PROVISION in parsed.switches;
    assert NO_AUTO_PROVISION in c.switches <==> NO_AUTO_PROVISION in parsed.switches;
    assert PlanOf(c, ctx).noProvision == PlanOf(parsed, ctx).noProvision;
    assert PlanOf(c, ctx).cleanNeeded == PlanOf(parsed, ctx).cleanNeeded;
    assert Effective(c, PlanOf(c, ctx)).switches == effective.switches;
  }

  /** The hop itself, for every command line that a parent hops with: the child parses, and under the
      same probe its own plan leads it to the parent's effective options with the worker flag on,
      exactly when what it rereads recovers them. If no flag was given the value "--worker", that is
      a matter of the marker and of single tokens alone. */
  lemma WorkerHopKeepsMeaning(tokens: seq<string>, ctx: Context)
    requires Parsed(tokens).Success? && !Parsed(tokens).value.worker
    ensures var parsed := Parsed(tokens).value;
            var effective := Effective(parsed, PlanOf(parsed, ctx));
            var kept := WithoutWorker(tokens);
            var c := Reread(kept, Missing(effective, kept));
            var arrives := ChildArrives(Parsed(ChildTokens(tokens, effective)), effective, ctx);
      && (arrives <==> c.Success? && Recovers(c.value, effective, ctx))
      && (NoFlagTakes(tokens, DEFAULTS, WORKER) ==> (arrives <==> HopReaches(tokens, effective)))
  {
    var parsed := Parsed(tokens).value;
    var effective := Effective(parsed, PlanOf(parsed, ctx));
    var kept := WithoutWorker(tokens);
    var c := Reread(kept, Missing(effective, kept));
    ChildRereads(tokens, effective);
    if c.Success? {
      RecoversExactlyWhen(parsed, c.value.(worker := true), ctx);
      RecoversWithoutWorker(c.value, effective, ctx);
    }
    if NoFlagTakes(tokens, DEFAULTS, WORKER) {
      PlainHopKeepsMeaning(tokens, ctx);
    }
  }

  lemma RecoversWithoutWorker(c: Options, effective: Options, ctx: Context)
    ensures Recovers(c.(worker := true), effective, ctx) <==> Recovers(c, effective, ctx)
  {
    var w := c.(worker := true);
    assert AutoNoProvision(w, ctx) == AutoNoProvision(c, ctx);
    assert PlanOf(w, ctx).cleanNeeded == PlanOf(c, ctx).cleanNeeded;
    assert forall f :: PlannedAgain(f, w, ctx) <==> PlannedAgain(f, c, ctx);
  }

  /** And the child's parse alone already gives the effective options, with the worker flag on,
      exactly when it rereads the same words and the same switches. */
  lemma WorkerHopKeepsOptions(tokens: seq<string>, ctx: Context)
    requires Parsed(tokens).Success? && !Parsed(tokens).value.worker
    ensures var parsed := Parsed(tokens).value;
            var effective := Effective(parsed, PlanOf(parsed, ctx));
            var kept := WithoutWorker(tokens);
            var c := Reread(kept, Missing(effective, kept));
            var same := Parsed(ChildTokens(tokens, effective)) == Success(effective.(worker := true));
      && (same <==> c.Success? && SameWords(c.value, effective) && c.value.switches == effective.switches)
      && (NoFlagTakes(tokens, DEFAULTS, WORKER) ==> (same <==> HopKeeps(tokens, parsed, effective)))
  {
    var parsed := Parsed(tokens).value;
    var effective := Effective(parsed, PlanOf(parsed, ctx));
    ChildRereads(tokens, effective);
    EffectiveHasNoConflict(parsed, ctx);
    if NoFlagTakes(tokens, DEFAULTS, WORKER) {
      PlainHopKeepsOptions(tokens, ctx);
    }
  }

  /** From the parent's tokens to the child's options through the command line and the C
      runtime: the round trips composed. */
  lemma HopThroughCommandLine(image: string, tokens: seq<string>, ctx: Context)
    requires Parsed(tokens).Success? && !Parsed(tokens).value.worker
    requires SameImage.SafeImage(image) && SameImage.NulFree(tokens)
    ensures var parsed := Parsed(tokens).value;
            var effective := Effective(parsed, PlanOf(parsed, ctx));
            var kept := WithoutWorker(tokens);
            var c := Reread(kept, Missing(effective, kept));
            var argv := SameImage.CRuntimeArguments(SameImage.CommandLine(image, ChildTokens(tokens, effective)));
            var arrives := ChildArrives(Parsed(argv[1..]), effective, ctx);
      && argv[0] == image
      && (arrives <==> c.Success? && Recovers(c.value, effective, ctx))
      && (NoFlagTakes(tokens, DEFAULTS, WORKER) ==> (arrives <==> HopReaches(tokens, effective)))
  {
    var parsed := Parsed(tokens).value;
    var effective := Effective(parsed, PlanOf(parsed, ctx));
    var child := ChildTokens(tokens, effective);
    ChildTokensAreNulFree(tokens, effective);
    SameImage.CommandLineRoundTrip(image, child);
    assert ([image] + child)[1..] == child;
    WorkerHopKeepsMeaning(tokens, ctx);
  }
}
