/** Object references on paper (esptool/src/esp/EspRefs.cpp): what every operation on them does to
    the session's list and to the log of the driver, and why no run closes one twice. */
module EspRefs {
  import opened Wrappers
  import opened StrHelpers
  import opened EspRuleAbi
  import opened EspRuleInstall
  import opened EspHandles
  import opened HandleLog

  // ---------------------------------------------------------------- operations

  datatype RefState = RefState(listed: seq<Handle>, log: seq<HandleEvent>)

  datatype RefOp = Create | Duplicate(ref: Handle) | Close(ref: Handle) | Query | Disconnect

  ghost predicate IsOpen(s: RefState, h: Handle) {
    Replay(s.log).Some? && h in Replay(s.log).value
  }

  /** A created reference was not open before, and is listed. */
  ghost predicate CanCreate(s: RefState, h: Handle) {
    h != NULL && !IsOpen(s, h)
  }

  function AfterCreate(s: RefState, h: Handle): RefState {
    RefState(s.listed + [h], s.log + [Opened(h)])
  }

  /** A closed reference is closed once and leaves an empty slot. */
  function AfterClose(s: RefState, h: Handle): RefState {
    if h == NULL then s else RefState(Cleared(s.listed, h), s.log + [Closed(h)])
  }

  /** A query creates nothing, or one reference and closes it, or two and closes them in reverse. */
  ghost predicate Queries(s: RefState, t: RefState) {
    || t == s
    || (exists natural :: CanCreate(s, natural) && t == AfterNatural(s, natural))
    || (exists natural, byId :: CanCreate(s, natural) && CanCreate(AfterCreate(s, natural), byId) && t == AfterById(s, natural, byId))
  }

  function AfterNatural(s: RefState, natural: Handle): RefState {
    AfterClose(AfterCreate(s, natural), natural)
  }

  function AfterById(s: RefState, natural: Handle, byId: Handle): RefState {
    AfterClose(AfterNatural(AfterCreate(s, natural), byId), natural)
  }

  /** What is left of a query once its natural reference exists, with the reference by identifier, if
      one was made. */
  function AfterThrough(s: RefState, natural: Handle, byId: Handle): RefState {
    AfterClose(if byId == NULL then s else AfterNatural(s, byId), natural)
  }

  function AfterQuery(s: RefState, natural: Handle, byId: Handle): RefState {
    AfterThrough(AfterCreate(s, natural), natural, byId)
  }

  lemma NaturalThenRest(s: RefState, natural: Handle, byId: Handle, t: RefState)
    requires CanCreate(s, natural) && t == AfterQuery(s, natural, byId)
    requires byId != NULL ==> CanCreate(AfterCreate(s, natural), byId)
    ensures Queries(s, t) && |t.log| > |s.log|
  {
    if byId != NULL {
      assert t == AfterById(s, natural, byId);
    } else {
      assert t == AfterNatural(s, natural);
    }
  }

  /** One operation of the session. Closing is asked of an open reference or of NULL. */
  ghost predicate RefStep(s: RefState, op: RefOp, t: RefState) {
    match op
    case Create => t == s || exists h :: CanCreate(s, h) && t == AfterCreate(s, h)
    case Duplicate(ref) => t == s || (ref != NULL && exists h :: CanCreate(s, h) && t == AfterCreate(s, h))
    case Close(ref) => (ref == NULL || IsOpen(s, ref)) && t == AfterClose(s, ref)
    case Query => Queries(s, t)
    case Disconnect => t == RefState([], s.log + Closures(s.listed))
  }

  /** The log replays, and its open references are exactly the listed ones. */
  ghost predicate Safe(s: RefState) {
    Replay(s.log).Some? && Owned(Replay(s.log).value, s.listed, {})
  }

  // ---------------------------------------------------------------- runs

  lemma CreateIsSafe(s: RefState, h: Handle)
    requires Safe(s) && CanCreate(s, h)
    ensures var t := AfterCreate(s, h); Safe(t) && Replay(t.log).value == Replay(s.log).value + {h}
  {
    ReplayOne(s.log, Opened(h));
    var open := Replay(s.log).value + {h};
    assert Owned(open, s.listed, {} + {h});
    OwnedPush(open, s.listed, {}, h);
  }

  lemma CloseIsSafe(s: RefState, h: Handle)
    requires Safe(s) && (h == NULL || IsOpen(s, h))
    ensures var t := AfterClose(s, h); Safe(t) && Replay(t.log).value == Replay(s.log).value - {h}
  {
    ReplayOne(s.log, Closed(h));
    if h != NULL {
      OwnedClear(Replay(s.log).value, s.listed, h);
    }
  }

  lemma NaturalIsSafe(s: RefState, natural: Handle)
    requires Safe(s) && CanCreate(s, natural)
    ensures var t := AfterNatural(s, natural); Safe(t) && Replay(t.log) == Replay(s.log)
  {
    CreateIsSafe(s, natural);
    CloseIsSafe(AfterCreate(s, natural), natural);
  }

  lemma ByIdIsSafe(s: RefState, natural: Handle, byId: Handle)
    requires Safe(s) && CanCreate(s, natural) && CanCreate(AfterCreate(s, natural), byId)
    ensures var t := AfterById(s, natural, byId); Safe(t) && Replay(t.log) == Replay(s.log)
  {
    CreateIsSafe(s, natural);
    NaturalIsSafe(AfterCreate(s, natural), byId);
    CloseIsSafe(AfterNatural(AfterCreate(s, natural), byId), natural);
  }

  /** A query leaves the set of open references unchanged. */
  lemma QueryIsSafe(s: RefState, t: RefState)
    requires Safe(s) && Queries(s, t)
    ensures Safe(t) && Replay(t.log) == Replay(s.log)
  {
    if natural :| CanCreate(s, natural) && t == AfterNatural(s, natural) {
      NaturalIsSafe(s, natural);
    } else if natural, byId :| CanCreate(s, natural) && CanCreate(AfterCreate(s, natural), byId) && t == AfterById(s, natural, byId) {
      ByIdIsSafe(s, natural, byId);
    }
  }

  /** Disconnecting closes every open reference, each once. */
  lemma DisconnectClosesAll(s: RefState)
    requires Safe(s)
    ensures var log := s.log + Closures(s.listed); Replay(log) == Some({}) && Safe(RefState([], log))
  {
    ClosingAll(s.log, Replay(s.log).value, s.listed);
  }

  lemma StepIsSafe(s: RefState, op: RefOp, t: RefState)
    requires Safe(s) && RefStep(s, op, t)
    ensures Safe(t)
    ensures op == Query ==> Replay(t.log) == Replay(s.log)
    ensures op == Disconnect ==> Replay(t.log) == Some({})
  {
    match op
    case Close(ref) => CloseIsSafe(s, ref);
    case Query => QueryIsSafe(s, t);
    case Disconnect => DisconnectClosesAll(s);
    case _ =>
      if t != s {
        var h :| CanCreate(s, h) && t == AfterCreate(s, h);
        CreateIsSafe(s, h);
      }
  }

  ghost predicate RefRun(states: seq<RefState>, ops: seq<RefOp>) {
    |states| == |ops| + 1 && states[0] == RefState([], [])
    && forall k :: 0 <= k < |ops| ==> RefStep(states[k], ops[k], states[k + 1])
  }

  /** Over every run, the listed references are the open ones. */
  lemma {:induction false} RunIsSafe(states: seq<RefState>, ops: seq<RefOp>, n: nat)
    requires RefRun(states, ops) && n <= |ops|
    ensures Safe(states[n])
  {
    if n > 0 {
      RunIsSafe(states, ops, n - 1);
      StepIsSafe(states[n - 1], ops[n - 1], states[n]);
    }
  }

  /** Over every run of creations, duplications, closings, queries and disconnects, no reference
      is closed twice, and a run that ends with a disconnect closed every one it opened. */
  lemma ReferencesClosedExactlyOnce(states: seq<RefState>, ops: seq<RefOp>)
    requires RefRun(states, ops)
    ensures NothingClosedTwice(states[|ops|].log)
    ensures ops != [] && ops[|ops| - 1] == Disconnect ==> NothingLeftOpen(states[|ops|].log)
  {
    RunIsSafe(states, ops, |ops|);
    ReplayedLogs(states[|ops|].log);
    if ops != [] && ops[|ops| - 1] == Disconnect {
      RunIsSafe(states, ops, |ops| - 1);
      StepIsSafe(states[|ops| - 1], Disconnect, states[|ops|]);
    }
  }
}
