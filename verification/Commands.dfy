/** The commands that decide which client identities outlive a run (esptool/src/cli/Commands.cpp). */
module Commands {
  import opened Wrappers
  import opened EspRuleInstall
  import opened EspRegistration

  // ---------------------------------------------------------------- orphan cleaning

  /** The listed clients that a verdict releases, in order. */
  function Released(ids: seq<Guid>, verdicts: seq<bool>): (r: seq<Guid>)
    requires |ids| == |verdicts|
    ensures forall id :: id in r <==> exists k :: 0 <= k < |ids| && verdicts[k] && ids[k] == id
  {
    if ids == [] then []
    else
      var n := |ids| - 1;
      var front := Released(ids[..n], verdicts[..n]);
      if verdicts[n] then front + [ids[n]] else front
  }

  lemma ReleasedOneMore(ids: seq<Guid>, n: nat, verdicts: seq<bool>, verdict: bool)
    requires |verdicts| == n < |ids|
    ensures Released(ids[..n + 1], verdicts + [verdict])
            == Released(ids[..n], verdicts) + (if verdict then [ids[n]] else [])
  {
    assert ids[..n + 1][..n] == ids[..n] && (verdicts + [verdict])[..n] == verdicts;
  }

  /** What became of the probe of one client. */
  datatype Probe = Probe(reached: bool, listed: bool)

  /** The calls a probe makes: a connection, and a listing if that succeeds. */
  function CallsOf(id: Guid, p: Probe): seq<Call> {
    if id == NULL_GUID then []
    else [Connected(id, p.reached)] + (if p.reached then [Listed(id, p.listed)] else [])
  }

  function AllCalls(ids: seq<Guid>, probes: seq<Probe>): seq<Call>
    requires |ids| == |probes|
  {
    if ids == [] then []
    else
      var n := |ids| - 1;
      AllCalls(ids[..n], probes[..n]) + CallsOf(ids[n], probes[n])
  }

  lemma CallsOneMore(ids: seq<Guid>, n: nat, probes: seq<Probe>, p: Probe)
    requires |probes| == n < |ids|
    ensures AllCalls(ids[..n + 1], probes + [p]) == AllCalls(ids[..n], probes) + CallsOf(ids[n], p)
  {
    assert ids[..n + 1][..n] == ids[..n] && (probes + [p])[..n] == probes;
  }

  /** Looks at one client without registering: it may go only if it could be reached, its rules
      could be listed, and none is persistent. */
  method ProbeClient(registry: Registry, id: Guid) returns (mayGo: bool, ghost p: Probe)
    modifies registry`removals, registry`removed, registry`registered, registry`calls
    ensures registry.removals == old(registry.removals) && registry.registered == old(registry.registered)
    ensures registry.removed == old(registry.removed)
    ensures registry.calls == old(registry.calls) + CallsOf(id, p) && (p.listed ==> p.reached && id != NULL_GUID)
    ensures mayGo <==> p.listed && registry.PersistentRules(id) == 0
  {
    var checker := new ClientSession(registry);
    var connected := checker.ConnectExisting(id);
    if !connected {
      return false, Probe(false, false);
    }
    var listed, count := registry.EnumeratePersistent(id);
    checker.Disconnect();
    return listed && count == 0, Probe(true, listed);
  }

  /** The verdict on one client. */
  predicate MayGo(releasePersistent: bool, p: Probe, persistentRules: nat) {
    releasePersistent || (p.listed && persistentRules == 0)
  }

  /** One client: probed, unless persistent rules are released too, and asked to go if it may. */
  method CleanOne(registry: Registry, releasePersistent: bool, id: Guid) returns (gone: bool, ghost p: Probe, ghost verdict: bool)
    modifies registry`removals, registry`removed, registry`registered, registry`calls
    ensures verdict == MayGo(releasePersistent, p, registry.PersistentRules(id))
    ensures registry.calls == old(registry.calls) + (if releasePersistent then [] else CallsOf(id, p))
    ensures registry.removals == old(registry.removals) + (if verdict then [id] else [])
    ensures registry.removed == old(registry.removed) + (if gone then 1 else 0) && (gone ==> verdict)
    ensures registry.registered == if gone then old(registry.registered) - {id} else old(registry.registered)
  {
    p, verdict := Probe(false, false), true;
    if !releasePersistent {
      var mayGo;
      mayGo, p := ProbeClient(registry, id);
      verdict := mayGo;
      if !mayGo {
        return false, p, verdict;
      }
    }
    gone := registry.Unregister(id);
  }

  /** What cleaning does to the clients it looked at: only those with a verdict may be gone. */
  ghost predicate Cleaned(
    ids: seq<Guid>, releasePersistent: bool, persistent: map<Guid, nat>, probes: seq<Probe>, verdicts: seq<bool>,
    before: set<Guid>, now: set<Guid>)
  {
    && |verdicts| == |probes| == |ids|
    && (forall k :: 0 <= k < |ids| ==> verdicts[k] == MayGo(releasePersistent, probes[k], RulesIn(persistent, ids[k])))
    && now <= before
    && (forall id :: id in before && id !in Released(ids, verdicts) ==> id in now)
  }

  lemma CleanedOneMore(
    ids: seq<Guid>, n: nat, releasePersistent: bool, persistent: map<Guid, nat>, probes: seq<Probe>, verdicts: seq<bool>,
    before: set<Guid>, now: set<Guid>, p: Probe, verdict: bool, gone: bool)
    requires n < |ids| && Cleaned(ids[..n], releasePersistent, persistent, probes, verdicts, before, now)
    requires verdict == MayGo(releasePersistent, p, RulesIn(persistent, ids[n])) && (gone ==> verdict)
    ensures Cleaned(ids[..n + 1], releasePersistent, persistent, probes + [p], verdicts + [verdict], before,
                    if gone then now - {ids[n]} else now)
  {
    ReleasedOneMore(ids, n, verdicts, verdict);
    assert forall k :: 0 <= k < n ==> ids[..n + 1][k] == ids[..n][k];
  }

  /** And what it asked of the library for them. */
  ghost predicate Requested(
    ids: seq<Guid>, releasePersistent: bool, probes: seq<Probe>, verdicts: seq<bool>,
    callsBefore: seq<Call>, calls: seq<Call>, removalsBefore: seq<Guid>, removals: seq<Guid>)
  {
    && |verdicts| == |probes| == |ids|
    && calls == callsBefore + (if releasePersistent then [] else AllCalls(ids, probes))
    && removals == removalsBefore + Released(ids, verdicts)
  }

  lemma RequestedOneMore(
    ids: seq<Guid>, n: nat, releasePersistent: bool, probes: seq<Probe>, verdicts: seq<bool>,
    callsBefore: seq<Call>, calls: seq<Call>, removalsBefore: seq<Guid>, removals: seq<Guid>, p: Probe, verdict: bool)
    requires n < |ids| && Requested(ids[..n], releasePersistent, probes, verdicts, callsBefore, calls, removalsBefore, removals)
    ensures Requested(ids[..n + 1], releasePersistent, probes + [p], verdicts + [verdict],
                      callsBefore, calls + (if releasePersistent then [] else CallsOf(ids[n], p)),
                      removalsBefore, removals + (if verdict then [ids[n]] else []))
  {
    ReleasedOneMore(ids, n, verdicts, verdict);
    CallsOneMore(ids, n, probes, p);
  }

  /** Which clients are asked to go: all, if persistent rules are released too, and otherwise those that
      were listed without a persistent rule. */
  lemma ReleasedExactlyWhen(
    ids: seq<Guid>, releasePersistent: bool, persistent: map<Guid, nat>, probes: seq<Probe>, verdicts: seq<bool>,
    before: set<Guid>, now: set<Guid>, id: Guid)
    requires Cleaned(ids, releasePersistent, persistent, probes, verdicts, before, now)
    ensures id in Released(ids, verdicts) <==>
      exists k :: 0 <= k < |ids| && ids[k] == id
        && (releasePersistent || (probes[k].listed && (id in persistent ==> persistent[id] == 0)))
  {}

  /** A probe connects, and lists if it could; the null identity is not probed. */
  lemma ProbeSays(id: Guid, p: Probe)
    ensures CallsOf(id, p) ==
      if id == 0 then [] else if p.reached then [Connected(id, true), Listed(id, p.listed)] else [Connected(id, false)]
  {}

  /** Without the release of persistent rules, every client that has one stays registered. */
  lemma CleaningPreserves(
    ids: seq<Guid>, persistent: map<Guid, nat>, probes: seq<Probe>, verdicts: seq<bool>, before: set<Guid>, now: set<Guid>, id: Guid)
    requires Cleaned(ids, false, persistent, probes, verdicts, before, now)
    requires id in before
    requires RulesIn(persistent, id) > 0 || forall k :: 0 <= k < |ids| && ids[k] == id ==> !probes[k].listed
    ensures id in now
  {}

  /** Every call of the cleaning to the library apart from the removals. */
  function CleaningCalls(releasePersistent: bool, ids: seq<Guid>, probes: seq<Probe>): seq<Call>
    requires |ids| == |probes|
  {
    [Enumerated(ids)] + if releasePersistent then [] else AllCalls(ids, probes)
  }

  /** Cleaning probes every client there is, unless persistent rules are released too, and asks for
      the removal of exactly those that may go: all of them in that case, otherwise those whose
      rules could be listed and that have no persistent one. Every other client stays registered. */
  method CleanOrphanClients(registry: Registry, releasePersistent: bool)
    returns (cleared: nat, ghost ids: seq<Guid>, ghost probes: seq<Probe>, ghost verdicts: seq<bool>)
    modifies registry`removals, registry`removed, registry`registered, registry`calls
    ensures Cleaned(ids, releasePersistent, registry.persistent, probes, verdicts, old(registry.registered), registry.registered)
    ensures |probes| == |ids| && registry.calls == old(registry.calls) + CleaningCalls(releasePersistent, ids, probes)
    ensures registry.removals == old(registry.removals) + Released(ids, verdicts)
    ensures cleared == registry.removed - old(registry.removed)
  {
    cleared, probes, verdicts := 0, [], [];
    var ok, listed := registry.EnumerateClients();
    ids := listed;
    if !ok || listed == [] {
      return;
    }
    ghost var before, calls, removals := registry.registered, registry.calls, registry.removals;
    for i := 0 to |listed|
      invariant Cleaned(ids[..i], releasePersistent, registry.persistent, probes, verdicts, before, registry.registered)
      invariant Requested(ids[..i], releasePersistent, probes, verdicts, calls, registry.calls, removals, registry.removals)
      invariant registry.removed == old(registry.removed) + cleared
    {
      var gone;
      gone, probes, verdicts := CleanNext(registry, releasePersistent, listed, i, probes, verdicts, before, calls, removals);
      if gone {
        cleared := cleared + 1;
      }
    }
    assert ids[..|ids|] == ids;
  }

  /** One turn of the loop over the clients. */
  method CleanNext(
    registry: Registry, releasePersistent: bool, ids: seq<Guid>, i: nat, ghost probes: seq<Probe>, ghost verdicts: seq<bool>,
    ghost before: set<Guid>, ghost calls: seq<Call>, ghost removals: seq<Guid>)
    returns (gone: bool, ghost probes': seq<Probe>, ghost verdicts': seq<bool>)
    requires i < |ids| && Cleaned(ids[..i], releasePersistent, registry.persistent, probes, verdicts, before, registry.registered)
    requires Requested(ids[..i], releasePersistent, probes, verdicts, calls, registry.calls, removals, registry.removals)
    modifies registry`removals, registry`removed, registry`registered, registry`calls
    ensures Cleaned(ids[..i + 1], releasePersistent, registry.persistent, probes', verdicts', before, registry.registered)
    ensures Requested(ids[..i + 1], releasePersistent, probes', verdicts', calls, registry.calls, removals, registry.removals)
    ensures registry.removed == old(registry.removed) + (if gone then 1 else 0)
  {
    ghost var now, callsNow, removalsNow := registry.registered, registry.calls, registry.removals;
    ghost var p, verdict;
    gone, p, verdict := CleanOne(registry, releasePersistent, ids[i]);
    CleanedOneMore(ids, i, releasePersistent, registry.persistent, probes, verdicts, before, now, p, verdict, gone);
    RequestedOneMore(ids, i, releasePersistent, probes, verdicts, calls, callsNow, removals, removalsNow, p, verdict);
    probes', verdicts' := probes + [p], verdicts + [verdict];
  }

  // ---------------------------------------------------------------- rule sessions

  /** The registrations tried for a client: none if it has no identity. */
  predicate Tried(spec: ClientSpec, generated: Option<Guid>, tries: seq<Attempt>) {
    var id := IdentityOf(spec, generated);
    if id.Some? then Climbs(AltitudeBase(spec.altitude), id.value, tries) else tries == []
  }

  datatype RulesPrep = FailedConnect | FailedQueue | FailedRemoveRules | FailedInstall | Partial | Ok

  /** How a preparation went: the registrations tried, and the answers to the calls after them. */
  datatype Preparation = Preparation(
    tries: seq<Attempt>, connected: bool, bypassed: bool, queued: bool, emptied: bool, status: InstallStatus)

  /** The connection of a preparation: made only once the client is registered. */
  predicate HasClient(p: Preparation) {
    AnswerOf(p.tries) == Accepted && p.connected
  }

  /** The outcome of a preparation: that of the first step that fails. */
  function PrepOf(bypass: bool, needsQueue: bool, p: Preparation): RulesPrep {
    if !HasClient(p) then FailedConnect
    else if bypass && !p.bypassed then FailedInstall
    else if needsQueue && !p.queued then FailedQueue
    else if !p.emptied then FailedRemoveRules
    else if p.status == Failed then FailedInstall
    else if p.status == InstallStatus.Partial then RulesPrep.Partial
    else Ok
  }

  /** Which outcome belongs to which answers: every step that is wanted must succeed, in this order. */
  lemma PrepSays(bypass: bool, needsQueue: bool, p: Preparation)
    ensures var prep, n := PrepOf(bypass, needsQueue, p), |p.tries|;
      var reached := n > 0 && p.tries[n - 1].answer == Accepted && p.connected;
      var passed := reached && (bypass ==> p.bypassed);
      var emptied := passed && (needsQueue ==> p.queued) && p.emptied;
      && (prep == FailedConnect <==> !reached)
      && (prep == FailedQueue <==> passed && needsQueue && !p.queued)
      && (prep == FailedRemoveRules <==> passed && (needsQueue ==> p.queued) && !p.emptied)
      && (prep == FailedInstall <==> (reached && bypass && !p.bypassed) || (emptied && p.status == Failed))
      && (prep == RulesPrep.Partial <==> emptied && p.status == InstallStatus.Partial)
      && (prep == Ok <==> emptied && p.status == Complete)
  {}

  /** The calls of a preparation, up to the first that fails. */
  function StepsOf(bypass: bool, needsQueue: bool, id: Guid, p: Preparation): seq<Call> {
    if AnswerOf(p.tries) != Accepted then []
    else [Connected(id, p.connected)] + if p.connected then LoadingSteps(bypass, needsQueue, id, p) else []
  }

  /** Those after the connection. */
  function LoadingSteps(bypass: bool, needsQueue: bool, id: Guid, p: Preparation): seq<Call> {
    if bypass && !p.bypassed then [Bypassed(false)]
    else (if bypass then [Bypassed(true)] else []) + InstallingSteps(needsQueue, id, p)
  }

  function InstallingSteps(needsQueue: bool, id: Guid, p: Preparation): seq<Call> {
    if needsQueue && !p.queued then [QueueCreated(false)]
    else
      (if needsQueue then [QueueCreated(true)] else [])
      + if !p.emptied then [RulesRemoved(id, false)] else [RulesRemoved(id, true), RulesInstalled(id, p.status)]
  }

  /** Which calls are made, with which answers: each exactly if the ones before it succeeded. */
  lemma StepsSay(bypass: bool, needsQueue: bool, id: Guid, p: Preparation, c: Call)
    ensures var n := |p.tries|;
      var registered := n > 0 && p.tries[n - 1].answer == Accepted;
      var passed := registered && p.connected && (bypass ==> p.bypassed);
      var queued := passed && (needsQueue ==> p.queued);
      c in StepsOf(bypass, needsQueue, id, p) <==>
        match c
        case Connected(i, ok) => registered && i == id && ok == p.connected
        case Bypassed(ok) => registered && p.connected && bypass && ok == p.bypassed
        case QueueCreated(ok) => passed && needsQueue && ok == p.queued
        case RulesRemoved(i, ok) => queued && i == id && ok == p.emptied
        case RulesInstalled(i, status) => queued && p.emptied && i == id && status == p.status
        case _ => false
  {}

  function Rank(c: Call): nat {
    match c
    case Connected(_, _) => 0
    case Bypassed(_) => 1
    case QueueCreated(_) => 2
    case RulesRemoved(_, _) => 3
    case RulesInstalled(_, _) => 4
    case _ => 5
  }

  predicate Ranked(calls: seq<Call>, from: nat) {
    && (calls != [] ==> Rank(calls[0]) >= from)
    && forall k :: 0 < k < |calls| ==> Rank(calls[k - 1]) < Rank(calls[k])
  }

  lemma RankedAfter(call: Call, calls: seq<Call>, from: nat)
    requires Rank(call) >= from && Ranked(calls, Rank(call) + 1)
    ensures Ranked([call] + calls, from)
  {}

  lemma RankedOrNot(wanted: bool, call: Call, calls: seq<Call>, from: nat)
    requires Rank(call) >= from && Ranked(calls, Rank(call) + 1)
    ensures Ranked((if wanted then [call] else []) + calls, from)
  {
    RankedAfter(call, calls, from);
    assert [] + calls == calls;
  }

  lemma InstallingIsRanked(needsQueue: bool, id: Guid, p: Preparation)
    ensures Ranked(InstallingSteps(needsQueue, id, p), 2)
  {
    var rest := if !p.emptied then [RulesRemoved(id, false)] else [RulesRemoved(id, true), RulesInstalled(id, p.status)];
    RankedOrNot(needsQueue, QueueCreated(true), rest, 2);
  }

  lemma LoadingIsRanked(bypass: bool, needsQueue: bool, id: Guid, p: Preparation)
    ensures Ranked(LoadingSteps(bypass, needsQueue, id, p), 1)
  {
    InstallingIsRanked(needsQueue, id, p);
    RankedOrNot(bypass, Bypassed(true), InstallingSteps(needsQueue, id, p), 1);
  }

  /** And in which order, each once. */
  lemma StepsAreInOrder(bypass: bool, needsQueue: bool, id: Guid, p: Preparation)
    ensures var asked := StepsOf(bypass, needsQueue, id, p);
      forall k :: 0 < k < |asked| ==> Rank(asked[k - 1]) < Rank(asked[k])
  {
    LoadingIsRanked(bypass, needsQueue, id, p);
    RankedAfter(Connected(id, p.connected), LoadingSteps(bypass, needsQueue, id, p), 0);
  }

  /** The connection as a step of the session. */
  function ConnectOf(spec: ClientSpec, generated: Option<Guid>, p: Preparation): Operation {
    Operation.Connect(IdentityOf(spec, generated), AnswerOf(p.tries), p.connected)
  }

  /** Connects and loads the rules, step by step until one fails. The session keeps exactly what its
      connection left. */
  method PrepareRulesSession(session: ClientSession, spec: ClientSpec, generated: Option<Guid>, bypass: bool, needsQueue: bool)
    returns (prep: RulesPrep, ghost p: Preparation)
    modifies session`clientId, session`registered, session`client, session`mine
    modifies session.registry`attempts, session.registry`registered, session.registry`removals, session.registry`removed
    modifies session.registry`persistent, session.registry`calls
    ensures Tried(spec, generated, p.tries) && session.registry.attempts == old(session.registry.attempts) + p.tries
    ensures prep == PrepOf(bypass, needsQueue, p)
    ensures session.registry.calls == old(session.registry.calls) + StepsOf(bypass, needsQueue, session.clientId, p)
    ensures session.State() == After(old(session.State()), session.unregisterOnDisconnect, ConnectOf(spec, generated, p))
    ensures session.registry.removals == old(session.registry.removals)
            + Asked(Removes(old(session.State()), session.unregisterOnDisconnect, ConnectOf(spec, generated, p)))
    ensures HasClient(p) ==>
      session.client != NULL && session.registry.registered == old(session.registry.registered) + {session.clientId}
  {
    var connected;
    ghost var tries, reached;
    connected, tries, reached := session.Connect(spec, generated);
    p := Preparation(tries, reached, false, false, false, Failed);
    if !connected {
      return FailedConnect, p;
    }
    prep, p := LoadRules(session.registry, session.clientId, bypass, needsQueue, p);
    JoinTwo(old(session.registry.calls), [Connected(session.clientId, true)], LoadingSteps(bypass, needsQueue, session.clientId, p));
  }

  lemma JoinTwo<T>(a: seq<T>, b: seq<T>, c: seq<T>)
    ensures a + b + c == a + (b + c)
  {}

  /** The steps after the connection. */
  method LoadRules(registry: Registry, id: Guid, bypass: bool, needsQueue: bool, ghost begun: Preparation)
    returns (prep: RulesPrep, ghost p: Preparation)
    requires HasClient(begun)
    modifies registry`persistent, registry`calls
    ensures p == begun.(bypassed := p.bypassed, queued := p.queued, emptied := p.emptied, status := p.status)
    ensures prep == PrepOf(bypass, needsQueue, p)
    ensures registry.calls == old(registry.calls) + LoadingSteps(bypass, needsQueue, id, p)
  {
    p := begun.(bypassed := false, queued := false, emptied := false, status := Failed);
    if bypass {
      var bypassed := registry.Bypass();
      p := p.(bypassed := bypassed);
      if !bypassed {
        return FailedInstall, p;
      }
    }
    if needsQueue {
      var queued := registry.CreateQueue();
      p := p.(queued := queued);
      if !queued {
        return FailedQueue, p;
      }
    }
    var emptied := registry.RemoveAllRules(id);
    p := p.(emptied := emptied);
    if !emptied {
      return FailedRemoveRules, p;
    }
    var status := registry.InstallRules(id);
    p := p.(status := status);
    prep := if status == Failed then FailedInstall else if status == InstallStatus.Partial then RulesPrep.Partial else Ok;
  }

  /** What a run of `persist-rules` did: how the cleaning went, how the preparation went, and whether
      the rules could be listed. */
  datatype Persisting = Persisting(
    ids: seq<Guid>, probes: seq<Probe>, verdicts: seq<bool>, prepared: Preparation, listed: bool)

  /** The calls after the cleaning: those of the preparation, and the listing after one without a failure. */
  function PersistingCalls(bypass: bool, needsQueue: bool, id: Guid, p: Preparation, listed: bool): seq<Call> {
    StepsOf(bypass, needsQueue, id, p) + if PrepOf(bypass, needsQueue, p) == Ok then [Listed(id, listed)] else []
  }

  /** The rules are loaded and listed, and some are persistent. */
  predicate Persisted(bypass: bool, needsQueue: bool, p: Preparation, listed: bool, persistentRules: nat) {
    PrepOf(bypass, needsQueue, p) == Ok && listed && persistentRules >= 1
  }

  /** The run exits with 0 exactly if the client was registered and connected, every step that is
      wanted succeeded, all rules were installed, and the listing shows a persistent one. */
  lemma PersistedExactlyWhen(bypass: bool, needsQueue: bool, p: Preparation, listed: bool, persistentRules: nat)
    ensures Persisted(bypass, needsQueue, p, listed, persistentRules) <==>
      && p.tries != [] && p.tries[|p.tries| - 1].answer == Accepted && p.connected
      && (bypass ==> p.bypassed) && (needsQueue ==> p.queued) && p.emptied && p.status == Complete
      && listed && persistentRules > 0
  {
    PrepSays(bypass, needsQueue, p);
  }

  /** The removal of the run's own identity: asked for exactly if it registered it and then fails. */
  function OwnRemoval(exit: nat, id: Guid, p: Preparation): seq<Guid> {
    if AnswerOf(p.tries) == Accepted && exit != 0 then [id] else []
  }

  /** What a session that persists its rules is after its preparation: it has the client's identity,
      registered exactly if an attempt was accepted, and has asked for no removal. */
  lemma PreparationRegisters(spec: ClientSpec, generated: Option<Guid>, p: Preparation)
    requires Tried(spec, generated, p.tries)
    ensures var s, op := Registration(NULL_GUID, false, {}), ConnectOf(spec, generated, p);
      && After(s, false, op).clientId == Identity(IdentityOf(spec, generated))
      && After(s, false, op).registered == (AnswerOf(p.tries) == Accepted)
      && Removes(s, false, op) == None
  {}

  /** `persist-rules` after its document was parsed. It exits with 0 exactly if every step succeeded
      and a persistent rule is listed. Then, and only then, an identity that the run registered is
      not asked to be removed again; it is registered at the end. The removals it asks for are those
      of the cleaning and, if it fails after registering, that of its own identity. */
  method RunPersistRules(registry: Registry, releaseAll: bool, spec: ClientSpec, generated: Option<Guid>, bypass: bool, needsQueue: bool)
    returns (exit: nat, ghost r: Persisting)
    modifies registry
    ensures |r.ids| == |r.probes| == |r.verdicts|
    ensures forall k :: 0 <= k < |r.ids| ==>
      r.verdicts[k] == MayGo(releaseAll, r.probes[k], old(registry.PersistentRules(r.ids[k])))
    ensures Tried(spec, generated, r.prepared.tries) && registry.attempts == old(registry.attempts) + r.prepared.tries
    ensures var id := Identity(IdentityOf(spec, generated));
      && registry.calls == old(registry.calls)
         + (CleaningCalls(releaseAll, r.ids, r.probes) + PersistingCalls(bypass, needsQueue, id, r.prepared, r.listed))
      && exit == (if Persisted(bypass, needsQueue, r.prepared, r.listed, registry.PersistentRules(id)) then 0 else 1)
      && registry.removals == old(registry.removals) + (Released(r.ids, r.verdicts) + OwnRemoval(exit, id, r.prepared))
      && (exit == 0 ==> AnswerOf(r.prepared.tries) == Accepted && id in registry.registered)
  {
    var cleared;
    ghost var ids, probes, verdicts;
    cleared, ids, probes, verdicts := CleanOrphanClients(registry, releaseAll);
    ghost var p, listed;
    exit, p, listed := PersistThroughSession(registry, spec, generated, bypass, needsQueue);
    var id := Identity(IdentityOf(spec, generated));
    JoinTwo(old(registry.calls), CleaningCalls(releaseAll, ids, probes), PersistingCalls(bypass, needsQueue, id, p, listed));
    JoinTwo(old(registry.removals), Released(ids, verdicts), OwnRemoval(exit, id, p));
    r := Persisting(ids, probes, verdicts, p, listed);
  }

  /** The run after the cleaning, through one session that keeps its identity registered. */
  method PersistThroughSession(registry: Registry, spec: ClientSpec, generated: Option<Guid>, bypass: bool, needsQueue: bool)
    returns (exit: nat, ghost p: Preparation, ghost listed: bool)
    modifies registry
    ensures Tried(spec, generated, p.tries) && registry.attempts == old(registry.attempts) + p.tries
    ensures var id := Identity(IdentityOf(spec, generated));
      && registry.calls == old(registry.calls) + PersistingCalls(bypass, needsQueue, id, p, listed)
      && exit == (if Persisted(bypass, needsQueue, p, listed, registry.PersistentRules(id)) then 0 else 1)
      && registry.removals == old(registry.removals) + OwnRemoval(exit, id, p)
      && (exit == 0 ==> AnswerOf(p.tries) == Accepted && id in registry.registered)
  {
    var session := new ClientSession(registry);
    session.unregisterOnDisconnect := false;
    var prep;
    prep, p := PrepareRulesSession(session, spec, generated, bypass, needsQueue);
    PreparationRegisters(spec, generated, p);
    exit, listed := FinishPersisting(session, prep);
  }

  /** What follows the preparation: the listing, the policy for the disconnect, and both disconnects,
      the second of which is the destructor's. */
  method FinishPersisting(session: ClientSession, prep: RulesPrep) returns (exit: nat, ghost wasListed: bool)
    requires !session.unregisterOnDisconnect && (prep == Ok ==> session.registered)
    modifies session`registered, session`client, session`mine, session`unregisterOnDisconnect
    modifies session.registry`registered, session.registry`removals, session.registry`removed, session.registry`calls
    ensures session.clientId == old(session.clientId)
    ensures session.registry.calls == old(session.registry.calls) + (if prep == Ok then [Listed(session.clientId, wasListed)] else [])
    ensures exit == if prep == Ok && wasListed && session.registry.PersistentRules(session.clientId) >= 1 then 0 else 1
    ensures session.registry.removals == old(session.registry.removals)
            + (if old(session.registered) && exit != 0 then [session.clientId] else [])
    ensures exit == 0 ==> session.registry.registered == old(session.registry.registered)
  {
    var listed, count := false, 0;
    wasListed := false;
    if prep == Ok {
      listed, count := session.registry.EnumeratePersistent(session.clientId);
      wasListed := listed;
    }
    if !listed || count < 1 {
      session.unregisterOnDisconnect := true;
    }
    session.Disconnect();
    session.Disconnect();
    exit := if listed && count >= 1 then 0 else 1;
  }
}
