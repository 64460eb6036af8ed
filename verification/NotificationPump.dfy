/** The notification pump (esptool/src/esp/EspSession.cpp) as a step system. The session arms one
    buffer, waits, emits, completes and arms again; the driver delivers into an armed buffer at any
    moment, also while the session is between two of its steps or has stopped. */
module NotificationPump {

  datatype Reason = ArmFailed | CompleteFailed | TimedOut | MaxReached

  /** Where the session is: about to arm, at the loop's test, waiting, about to emit, about to
      complete, or stopped. */
  datatype Phase = Arming | Testing | Waiting | Emitting | Completing | Stopped(why: Reason)

  datatype Event = Armed | Delivered | Emitted | Completed

  datatype State = State(phase: Phase, armed: bool, signalled: bool, received: nat, log: seq<Event>)

  const START := State(Arming, false, false, 0, [])

  /** The driver's step: one delivery for an armed buffer. */
  predicate Delivers(s: State, t: State) {
    s.armed && t == s.(armed := false, signalled := true, log := s.log + [Delivered])
  }

  predicate Arms(s: State, ok: bool, t: State) {
    s.phase == Arming
    && t == if ok then s.(phase := Testing, armed := true, log := s.log + [Armed]) else s.(phase := Stopped(ArmFailed))
  }

  predicate Tests(s: State, max: nat, t: State) {
    s.phase == Testing && t == s.(phase := if s.received < max then Waiting else Stopped(MaxReached))
  }

  /** The wait ends with the deadline or with the signal, which it takes. */
  predicate Wakes(s: State, ok: bool, t: State) {
    s.phase == Waiting
    && if ok then s.signalled && t == s.(phase := Emitting, signalled := false) else t == s.(phase := Stopped(TimedOut))
  }

  predicate Emits(s: State, t: State) {
    s.phase == Emitting && t == s.(phase := Completing, received := s.received + 1, log := s.log + [Emitted])
  }

  predicate Completes(s: State, max: nat, ok: bool, t: State) {
    s.phase == Completing
    && t == if ok then s.(phase := if s.received >= max then Stopped(MaxReached) else Arming, log := s.log + [Completed])
            else s.(phase := Stopped(CompleteFailed))
  }

  ghost predicate Next(max: nat, s: State, t: State) {
    || Delivers(s, t) || (exists ok :: Arms(s, ok, t)) || Tests(s, max, t) || (exists ok :: Wakes(s, ok, t))
    || Emits(s, t) || (exists ok :: Completes(s, max, ok, t))
  }

  ghost predicate Run(max: nat, run: seq<State>) {
    run != [] && run[0] == START && forall k :: 0 <= k < |run| - 1 ==> Next(max, run[k], run[k + 1])
  }

  // ---------------------------------------------------------------- what every run keeps

  function Turn(k: nat): Event {
    match k % 4
    case 0 => Armed
    case 1 => Delivered
    case 2 => Emitted
    case _ => Completed
  }

  /** The log goes round: armed, delivered, emitted, completed, and again. */
  predicate Rounds(log: seq<Event>) {
    forall k :: 0 <= k < |log| ==> log[k] == Turn(k)
  }

  /** How far into its round the log is, phase by phase. */
  predicate InStep(s: State, max: nat) {
    var n := |s.log| % 4;
    && Rounds(s.log)
    && s.received == (|s.log| + 1) / 4
    && s.armed == (n == 1)
    && (s.signalled ==> n == 2)
    && match s.phase
       case Arming => n == 0 && (s.received == 0 || s.received < max)
       case Testing => n == 1 || (n == 2 && s.signalled)
       case Waiting => (n == 1 || (n == 2 && s.signalled)) && s.received < max
       case Emitting => n == 2 && !s.signalled && s.received < max
       case Completing => n == 3 && s.received <= max
       case Stopped(ArmFailed) => n == 0
       case Stopped(CompleteFailed) => n == 3
       case Stopped(TimedOut) => n == 1 || (n == 2 && s.signalled)
       case Stopped(MaxReached) =>
         s.received >= max && (if s.received == 0 then n == 1 || (n == 2 && s.signalled) else n == 0)
  }

  predicate Inv(s: State, max: nat) {
    InStep(s, max) && s.received <= max && (s.phase == Testing ==> s.received == 0 || s.received < max)
  }

  lemma NextKeepsInv(max: nat, s: State, t: State)
    requires Inv(s, max) && Next(max, s, t)
    ensures Inv(t, max)
  {
    if t.log != s.log {
      assert t.log == s.log + [Turn(|s.log|)];
    }
  }

  lemma SignalledByDelivery(s: State, max: nat)
    requires Inv(s, max)
    ensures s.signalled ==> s.log != [] && s.log[|s.log| - 1] == Delivered
  {
    if s.signalled {
      assert s.log[|s.log| - 1] == Turn(|s.log| - 1);
    }
  }

  lemma {:induction false} RunKeepsInv(max: nat, run: seq<State>, k: nat)
    requires Run(max, run) && k < |run|
    ensures Inv(run[k], max)
  {
    if k > 0 {
      RunKeepsInv(max, run, k - 1);
      assert Next(max, run[k - 1], run[k - 1 + 1]);
      NextKeepsInv(max, run[k - 1], run[k]);
    }
  }

  /** In every reachable state: each emitted notification was delivered once into one armed buffer
      and is completed before the next one is armed, and no more than the maximum is received. */
  lemma EmittedIsCompletedBeforeNextArm(max: nat, run: seq<State>, k: nat, i: nat)
    requires Run(max, run) && k < |run| && i < |run[k].log|
    ensures run[k].received <= max
    ensures run[k].log[i] == Armed && i > 0 ==> IsAt(run[k].log, i - 4, [Armed, Delivered, Emitted, Completed])
    ensures run[k].log[i] == Emitted ==> IsAt(run[k].log, i - 2, [Armed, Delivered])
  {
    RunKeepsInv(max, run, k);
    RoundBefore(run[k].log, i);
  }

  predicate IsAt(log: seq<Event>, from: int, events: seq<Event>) {
    0 <= from && from + |events| <= |log| && forall k :: 0 <= k < |events| ==> log[from + k] == events[k]
  }

  lemma RoundBefore(log: seq<Event>, i: nat)
    requires Rounds(log) && i < |log|
    ensures log[i] == Armed && i > 0 ==> IsAt(log, i - 4, [Armed, Delivered, Emitted, Completed])
    ensures log[i] == Emitted ==> IsAt(log, i - 2, [Armed, Delivered])
  {
    TurnsAround(i);
    assert log[i] == Turn(i);
    if i >= 2 {
      assert log[i - 2] == Turn(i - 2) && log[i - 1] == Turn(i - 1);
    }
    if i >= 4 {
      assert log[i - 4] == Turn(i - 4) && log[i - 3] == Turn(i - 3);
    }
  }

  lemma TurnsAround(i: nat)
    ensures Turn(i) == Armed && i > 0 ==>
      i >= 4 && Turn(i - 4) == Armed && Turn(i - 3) == Delivered && Turn(i - 2) == Emitted && Turn(i - 1) == Completed
    ensures Turn(i) == Emitted ==> i >= 2 && Turn(i - 2) == Armed && Turn(i - 1) == Delivered
  {
    if i >= 1 {
      TurnAfter(i - 1);
    }
    if i >= 2 {
      TurnAfter(i - 2);
    }
    if i >= 3 {
      TurnAfter(i - 3);
    }
    if i >= 4 {
      TurnAfter(i - 4);
    }
  }

  lemma TurnAfter(k: nat)
    ensures Turn(k + 1) == match Turn(k)
                           case Armed => Delivered
                           case Delivered => Emitted
                           case Emitted => Completed
                           case Completed => Armed
    ensures k == 0 ==> Turn(k) == Armed
  {
    assert (k + 1) % 4 == if k % 4 == 3 then 0 else k % 4 + 1;
  }

  /** A pump that stopped because it reached a positive maximum received exactly that many and
      completed all of them. */
  lemma StoppedByMaximum(max: nat, run: seq<State>, k: nat)
    requires Run(max, run) && k < |run| && run[k].phase == Stopped(MaxReached) && max >= 1
    ensures run[k].received == max && |run[k].log| == 4 * max && !run[k].armed && !run[k].signalled
  {
    RunKeepsInv(max, run, k);
  }

  ghost predicate StopsUnarmed(max: nat) {
    forall run: seq<State>, k: nat :: Run(max, run) && k < |run| && run[k].phase == Stopped(MaxReached) ==> !run[k].armed
  }

  /** Reaching the maximum leaves nothing armed exactly if the maximum is at least one: with zero
      the first arm is made before the loop's test. */
  lemma StopsUnarmedExactlyWhen(max: nat)
    ensures StopsUnarmed(max) <==> max >= 1
  {
    if max >= 1 {
      forall run: seq<State>, k: nat | Run(max, run) && k < |run| && run[k].phase == Stopped(MaxReached) ensures !run[k].armed {
        StoppedByMaximum(max, run, k);
      }
    } else {
      var run := ArmedForNothing();
      assert run[2].phase == Stopped(MaxReached) && run[2].armed;
    }
  }

  lemma ArmedForNothing() returns (run: seq<State>)
    ensures Run(0, run) && |run| == 3 && run[2].phase == Stopped(MaxReached) && run[2].armed
  {
    var armed := START.(phase := Testing, armed := true, log := [Armed]);
    run := [START, armed, armed.(phase := Stopped(MaxReached))];
    assert START.log + [Armed] == [Armed];
    assert Arms(START, true, armed);
    assert Next(0, run[0], run[1]);
    assert Tests(armed, 0, run[2]);
  }

  // ---------------------------------------------------------------- the pump

  /** A log that grew by the session's own events, and at most by one delivery after them. */
  predicate Follows(before: seq<Event>, own: seq<Event>, after: seq<Event>) {
    after == before + own || after == before + own + [Delivered]
  }

  /** The session's own events between the end of a wait and the phase it is in afterwards. */
  function Handled(phase: Phase): seq<Event> {
    match phase
    case Stopped(TimedOut) => []
    case Stopped(CompleteFailed) => [Emitted]
    case Stopped(_) => [Emitted, Completed]
    case _ => [Emitted, Completed, Armed]
  }

  /** A call of the session whose answer decides how it goes on. */
  datatype Call = ArmCall(ok: bool) | WaitCall(ok: bool) | CompleteCall(ok: bool)

  /** Arm, wait, complete, and again, as long as every call succeeds. */
  predicate InTurn(calls: seq<Call>) {
    forall k :: 0 <= k < |calls| ==>
      (k < |calls| - 1 ==> calls[k].ok)
      && match k % 3 case 0 => calls[k].ArmCall? case 1 => calls[k].WaitCall? case _ => calls[k].CompleteCall?
  }

  predicate AllOk(calls: seq<Call>) {
    forall k :: 0 <= k < |calls| ==> calls[k].ok
  }

  /** A phase and its calls: the session stops at the first call that fails, for its reason, or with all
      of them successful when it has completed the maximum, or armed for nothing. */
  predicate Traced(s: State, calls: seq<Call>, max: nat) {
    var n := |calls|;
    && InTurn(calls)
    && s.received == n / 3 + (if s.phase == Completing then 1 else 0)
    && match s.phase
       case Arming => n % 3 == 0 && AllOk(calls)
       case Testing => n % 3 == 1 && AllOk(calls)
       case Waiting => n % 3 == 1 && AllOk(calls)
       case Emitting => n % 3 == 2 && AllOk(calls)
       case Completing => n % 3 == 2 && AllOk(calls)
       case Stopped(ArmFailed) => n > 0 && calls[n - 1] == ArmCall(false)
       case Stopped(TimedOut) => n > 0 && calls[n - 1] == WaitCall(false)
       case Stopped(CompleteFailed) => n > 0 && calls[n - 1] == CompleteCall(false)
       case Stopped(MaxReached) => AllOk(calls) && n == if max == 0 then 1 else 3 * max
  }

  /** How the answers end a pump that stopped: by the one that failed, or by the maximum. */
  lemma StopsByItsCalls(s: State, calls: seq<Call>, max: nat)
    requires Traced(s, calls, max) && s.phase.Stopped?
    ensures calls != []
    ensures s.phase == Stopped(ArmFailed) <==> calls[|calls| - 1] == ArmCall(false)
    ensures s.phase == Stopped(TimedOut) <==> calls[|calls| - 1] == WaitCall(false)
    ensures s.phase == Stopped(CompleteFailed) <==> calls[|calls| - 1] == CompleteCall(false)
    ensures s.phase == Stopped(MaxReached) <==> forall k :: 0 <= k < |calls| ==> calls[k].ok
    ensures s.phase == Stopped(MaxReached) && max >= 1 ==> |calls| == 3 * max && calls[|calls| - 1] == CompleteCall(true)
  {
    var n := |calls|;
    if s.phase == Stopped(MaxReached) && max >= 1 {
      assert (n - 1) % 3 == 2;
    }
  }

  lemma NextCall(calls: seq<Call>, call: Call)
    requires InTurn(calls) && AllOk(calls)
    requires match |calls| % 3 case 0 => call.ArmCall? case 1 => call.WaitCall? case _ => call.CompleteCall?
    ensures InTurn(calls + [call]) && (call.ok ==> AllOk(calls + [call]))
  {
    var all := calls + [call];
    assert forall k :: 0 <= k < |calls| ==> all[k] == calls[k];
  }

  /** The session while it pumps, with every state it went through. */
  class Pump {
    const max: nat
    var state: State
    ghost var run: seq<State>
    /** Every call, in order, with its answer. */
    ghost var calls: seq<Call>

    ghost predicate Valid()
      reads this
    {
      Run(max, run) && run[|run| - 1] == state && Traced(state, calls, max)
    }

    constructor (max: nat)
      ensures Valid() && this.max == max && state == START && calls == []
    {
      this.max, state, run, calls := max, START, [START], [];
    }

    method Step(t: State, ghost asked: seq<Call>)
      requires Valid() && Next(max, state, t) && Traced(t, calls + asked, max)
      modifies this
      ensures Valid() && state == t && run == old(run) + [t] && calls == old(calls) + asked
    {
      state, run, calls := t, run + [t], calls + asked;
      assert Run(max, run) by {
        forall k | 0 <= k < |run| - 1 ensures Next(max, run[k], run[k + 1]) {
          if k < |run| - 2 {
            assert run[k] == old(run)[k] && run[k + 1] == old(run)[k + 1];
          }
        }
      }
    }

    /** The driver may deliver here. */
    method Meanwhile()
      requires Valid()
      modifies this
      ensures Valid() && old(run) <= run && state.phase == old(state.phase) && state.received == old(state.received)
      ensures calls == old(calls)
      ensures state.log == old(state.log) || state.log == old(state.log) + [Delivered]
    {
      var delivers: bool := *;
      if delivers && state.armed {
        var t := state.(armed := false, signalled := true, log := state.log + [Delivered]);
        assert Delivers(state, t) && calls + [] == calls;
        Step(t, []);
      }
    }

    method ArmNotification() returns (ok: bool)
      requires Valid() && state.phase == Arming
      modifies this
      ensures Valid() && old(run) <= run
      ensures state.phase == (if ok then Testing else Stopped(ArmFailed)) && state.received == old(state.received)
      ensures Follows(old(state.log), if ok then [Armed] else [], state.log)
      ensures calls == old(calls) + [ArmCall(ok)]
    {
      ok := *;
      NextCall(calls, ArmCall(ok));
      var t := if ok then state.(phase := Testing, armed := true, log := state.log + [Armed])
               else state.(phase := Stopped(ArmFailed));
      assert Arms(state, ok, t);
      Step(t, [ArmCall(ok)]);
      Meanwhile();
    }

    method Emit()
      requires Valid() && state.phase == Emitting
      modifies this
      ensures Valid() && old(run) <= run && calls == old(calls)
      ensures state.phase == Completing && state.received == old(state.received) + 1 && state.log == old(state.log) + [Emitted]
    {
      var t := state.(phase := Completing, received := state.received + 1, log := state.log + [Emitted]);
      assert Emits(state, t) && calls + [] == calls;
      Step(t, []);
    }

    /** Completes, and goes on below the maximum. */
    method Complete() returns (going: bool)
      requires Valid() && state.phase == Completing
      modifies this
      ensures Valid() && old(run) <= run && old(calls) < calls && state.received == old(state.received)
      ensures state.log == old(state.log) + if state.phase == Stopped(CompleteFailed) then [] else [Completed]
      ensures if going then state.phase == Arming && state.received < max
              else state.phase in [Stopped(CompleteFailed), Stopped(MaxReached)]
    {
      var completed: bool := *;
      var over := state.received >= max;
      var t := if completed then state.(phase := if over then Stopped(MaxReached) else Arming, log := state.log + [Completed])
               else state.(phase := Stopped(CompleteFailed));
      assert Completes(state, max, completed, t);
      RunKeepsInv(max, run, |run| - 1);
      NextCall(calls, CompleteCall(completed));
      Step(t, [CompleteCall(completed)]);
      going := completed && !over;
    }

    method EmitCompleteAndRearm() returns (ok: bool)
      requires Valid() && state.phase == Emitting
      modifies this
      ensures old(calls) < calls
      ensures Valid() && old(run) <= run && state.received == old(state.received) + 1
      ensures Follows(old(state.log), Handled(state.phase), state.log)
      ensures if ok then state.phase == Testing && state.received < max
              else state.phase in [Stopped(CompleteFailed), Stopped(MaxReached), Stopped(ArmFailed)]
    {
      Emit();
      var going := Complete();
      if !going {
        return false;
      }
      ok := ArmNotification();
    }

    /** `waited` is the log when the wait ends: with a delivery, unless it is the deadline. */
    method ConsumeNotification() returns (ok: bool, ghost waited: seq<Event>)
      requires Valid() && state.phase == Waiting
      modifies this
      ensures Valid() && old(run) <= run && old(state.received) <= state.received
      ensures old(calls) < calls
      ensures Follows(old(state.log), [], waited) && Follows(waited, Handled(state.phase), state.log)
      ensures state.phase != Stopped(TimedOut) ==> waited != [] && waited[|waited| - 1] == Delivered
      ensures if ok then state.phase == Testing && state.received == old(state.received) + 1 && state.received < max
              else state.phase.Stopped?
    {
      Meanwhile();
      waited := state.log;
      ok := Wait();
      if ok {
        ok := EmitCompleteAndRearm();
      }
    }

    /** The wait ends with a delivery, which it takes, or with the deadline. */
    method Wait() returns (woken: bool)
      requires Valid() && state.phase == Waiting
      modifies this
      ensures Valid() && old(run) <= run && calls == old(calls) + [WaitCall(woken)]
      ensures state.log == old(state.log) && state.received == old(state.received)
      ensures state.phase == if woken then Emitting else Stopped(TimedOut)
      ensures woken ==> state.log != [] && state.log[|state.log| - 1] == Delivered
    {
      var inTime: bool := *;
      woken := inTime && state.signalled;
      RunKeepsInv(max, run, |run| - 1);
      SignalledByDelivery(state, max);
      var t := if woken then state.(phase := Emitting, signalled := false) else state.(phase := Stopped(TimedOut));
      assert Wakes(state, woken, t);
      NextCall(calls, WaitCall(woken));
      Step(t, [WaitCall(woken)]);
    }

    /** The loop's test. */
    method TestMaximum() returns (going: bool)
      requires Valid() && state.phase == Testing
      modifies this
      ensures Valid() && old(run) <= run && calls == old(calls)
      ensures going == (state.received < max) && state == old(state).(phase := if going then Waiting else Stopped(MaxReached))
    {
      going := state.received < max;
      var t := state.(phase := if going then Waiting else Stopped(MaxReached));
      assert Tests(state, max, t) && calls + [] == calls;
      RunKeepsInv(max, run, |run| - 1);
      Step(t, []);
    }

    /** Both pump loops, behind their connection to the queue. They always stop; what was received
        then is at most the maximum, and the whole way there is a run of the step system. They stop at
        the first call that fails, for its reason, or by the maximum with every call successful. */
    method PumpNotifications()
      requires Valid() && state == START && calls == []
      modifies this
      ensures state.phase == Stopped(MaxReached) <==> AllOk(calls)
      ensures calls != [] && (state.phase == Stopped(ArmFailed) <==> calls[|calls| - 1] == ArmCall(false))
      ensures state.phase == Stopped(TimedOut) <==> calls[|calls| - 1] == WaitCall(false)
      ensures state.phase == Stopped(CompleteFailed) <==> calls[|calls| - 1] == CompleteCall(false)
      ensures Valid() && old(run) <= run && state.phase.Stopped? && state.received <= max
      ensures state.phase == Stopped(MaxReached) && max >= 1 ==>
        state.received == max && !state.armed && !state.signalled && |state.log| == 4 * max
    {
      var armed := ArmNotification();
      var going := armed;
      while going
        invariant Valid() && old(run) <= run
        invariant if going then state.phase == Testing else state.phase.Stopped?
        decreases going, max - state.received
      {
        going := TestMaximum();
        if going {
          ghost var waited;
          going, waited := ConsumeNotification();
        }
      }
      RunKeepsInv(max, run, |run| - 1);
      StopsByItsCalls(state, calls, max);
      if state.phase == Stopped(MaxReached) && max >= 1 {
        StoppedByMaximum(max, run, |run| - 1);
      }
    }
  }
}
