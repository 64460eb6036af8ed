/** Client identities (esptool/src/esp/EspSession.cpp, esptool/src/cli/Commands.cpp): registering one
    at a free altitude, connecting to it, and who may take it away again. */
module EspRegistration {
  import opened Wrappers
  import opened StrHelpers
  import opened EspRuleInstall

  type Guid = nat
  const NULL_GUID: Guid := 0

  const DEFAULT_ALTITUDE: uint32 := 385000
  const COLLISION_TRIES: nat := 32
  const COLLISION_STEP: nat := 10

  // ---------------------------------------------------------------- altitudes

  /** The altitude a client asks for: a positive 32-bit numeral, or the default. */
  function AltitudeBase(text: string): uint32 {
    var asked := Bounded(Numeral(Trim(text)), MAX_U32);
    if text != "" && asked.Some? && asked.value != 0 then asked.value as uint32 else DEFAULT_ALTITUDE
  }

  /** The altitude of one attempt, in 32-bit arithmetic. */
  function Rung(base: uint32, attempt: nat): uint32 {
    ((base as int + attempt * COLLISION_STEP) % 0x1_0000_0000) as uint32
  }

  /** No altitude is tried twice. */
  lemma RungsAreDistinct(base: uint32, j: nat, k: nat)
    requires j < k < COLLISION_TRIES
    ensures Rung(base, j) != Rung(base, k)
  {
    var low, step := base as int + j * COLLISION_STEP, (k - j) * COLLISION_STEP;
    assert base as int + k * COLLISION_STEP == low + step;
    assert 0 < step < 0x1_0000_0000;
  }

  datatype Answer = Accepted | AlreadyExists | Refused

  datatype Attempt = Attempt(id: Guid, altitude: uint32, answer: Answer)

  /** A call to the library apart from registering and removing, with its answer: a connection, a
      listing of a client's persistent rules, an enumeration of the clients (which gives none if it
      fails), and the steps that load a client's rules. */
  datatype Call =
    | Connected(id: Guid, ok: bool)
    | Listed(id: Guid, ok: bool)
    | Enumerated(ids: seq<Guid>)
    | Bypassed(ok: bool)
    | QueueCreated(ok: bool)
    | RulesRemoved(id: Guid, ok: bool)
    | RulesInstalled(id: Guid, status: InstallStatus)

  /** The attempts of one `Connect`: rung after rung while they collide, at most 32. */
  predicate Climbs(base: uint32, id: Guid, tries: seq<Attempt>) {
    && 1 <= |tries| <= COLLISION_TRIES
    && (forall k :: 0 <= k < |tries| ==> tries[k].id == id && tries[k].altitude == Rung(base, k))
    && (forall k :: 0 <= k < |tries| - 1 ==> tries[k].answer == AlreadyExists)
    && (tries[|tries| - 1].answer == AlreadyExists ==> |tries| == COLLISION_TRIES)
  }

  /** A client is registered at its first altitude that does not collide, if at all. */
  lemma RegistersAtFirstFreeAltitude(base: uint32, id: Guid, tries: seq<Attempt>, k: nat)
    requires Climbs(base, id, tries) && k < |tries| && tries[k].answer == Accepted
    ensures k == |tries| - 1 && tries[k].altitude == Rung(base, k)
    ensures forall j :: 0 <= j < k ==> tries[j].answer == AlreadyExists && tries[j].altitude != tries[k].altitude
  {
    forall j | 0 <= j < k ensures tries[j].altitude != tries[k].altitude {
      RungsAreDistinct(base, j, k);
    }
  }

  /** The altitude asked for: any numeral from 1 to 2^32 - 1, or else 385000. */
  lemma AltitudeSays(text: string)
    ensures var n := Numeral(Trim(text));
      AltitudeBase(text) as int == if n.Some? && 1 <= n.value < 0x1_0000_0000 then n.value else 385000
  {
    assert Trim("") == "";
  }

  /** The attempts of one registration: at most 32, under one identity, each 10 above the one before,
      in 32 bits, and only ever after a collision. */
  lemma ClimbSays(base: uint32, id: Guid, tries: seq<Attempt>, k: nat)
    requires Climbs(base, id, tries) && k < |tries|
    ensures |tries| <= 32 && tries[k].id == id && tries[k].altitude as int == (base as int + 10 * k) % 0x1_0000_0000
    ensures k + 1 < |tries| <==> tries[k].answer == AlreadyExists && k + 1 < 32
  {}

  // ---------------------------------------------------------------- ownership on paper

  /** What a session knows of its identity, and which identities it registered and never asked to
      have removed. */
  datatype Registration = Registration(clientId: Guid, registered: bool, mine: set<Guid>)

  datatype Operation =
    | Connect(id: Option<Guid>, answer: Answer, connected: bool)
    | ConnectExisting(existing: Guid)
    | Disconnect

  /** The identity that a removal by this session would name. */
  function Removal(s: Registration, unregister: bool): Option<Guid> {
    if s.registered && unregister then Some(s.clientId) else None
  }

  function AfterRemoval(s: Registration, unregister: bool): Registration {
    if s.registered && unregister then Registration(s.clientId, false, s.mine - {s.clientId}) else s
  }

  /** The state in which `Connect` leaves its loop; an identity that could not be generated is
      the null one. */
  function AfterRegister(s: Registration, id: Option<Guid>, answer: Answer): Registration {
    if id.None? then s.(clientId := NULL_GUID)
    else if answer == Accepted then Registration(id.value, true, s.mine + {id.value})
    else s.(clientId := id.value)
  }

  function After(s: Registration, unregister: bool, op: Operation): Registration {
    match op
    case Connect(id, answer, connected) =>
      var t := AfterRegister(s, id, answer);
      if id.Some? && answer == Accepted && !connected then AfterRemoval(t, unregister) else t
    case ConnectExisting(id) => if id == NULL_GUID then s else Registration(id, false, s.mine)
    case Disconnect => AfterRemoval(s, unregister)
  }

  /** The identity an operation asks the library to remove. */
  function Removes(s: Registration, unregister: bool, op: Operation): Option<Guid> {
    match op
    case Connect(id, answer, connected) =>
      if id.Some? && answer == Accepted && !connected then Removal(AfterRegister(s, id, answer), unregister) else None
    case ConnectExisting(_) => None
    case Disconnect => Removal(s, unregister)
  }

  /** When a removal is asked for, and of what: on disconnecting a registered session, and on a
      registration whose connection fails, if the policy says so; always of the session's identity. */
  lemma RemovesSays(s: Registration, unregister: bool, op: Operation)
    ensures Removes(s, unregister, op) ==
      match op
      case Disconnect => if s.registered && unregister then Some(s.clientId) else None
      case ConnectExisting(_) => None
      case Connect(id, answer, connected) =>
        if id.Some? && answer == Accepted && !connected && unregister then id else None
  {}

  /** What a session knows afterwards: a removal clears the flag and the book, a registration sets both,
      and taking over an identity clears the flag alone. */
  lemma AfterSays(s: Registration, unregister: bool, op: Operation)
    ensures var t, gone := After(s, unregister, op), Removes(s, unregister, op);
      match op
      case Disconnect =>
        t.clientId == s.clientId && t.registered == (s.registered && gone.None?)
        && t.mine == if gone.Some? then s.mine - {gone.value} else s.mine
      case ConnectExisting(id) =>
        t == if id == 0 then s else Registration(id, false, s.mine)
      case Connect(id, answer, connected) =>
        t.clientId == Identity(id)
        && if id.Some? && answer == Accepted then
             t.registered == gone.None? && t.mine == if gone.Some? then s.mine - {id.value} else s.mine + {id.value}
           else t.registered == s.registered && t.mine == s.mine
  {}

  /** The session would only remove what it registered. */
  predicate Owns(s: Registration) {
    s.registered ==> s.clientId in s.mine
  }

  /** And it would remove all of it. */
  predicate Settled(s: Registration) {
    s.mine == if s.registered then {s.clientId} else {}
  }

  function Identity(id: Option<Guid>): Guid {
    if id.None? then NULL_GUID else id.value
  }

  /** `Connect` keeps a session the owner of what it would remove exactly if the session has not
      registered yet, or connects again under an identity of its own: otherwise a refused
      registration leaves the flag of the old identity on the new one. */
  lemma ConnectKeepsOwnershipExactlyWhen(s: Registration, unregister: bool, id: Option<Guid>)
    requires Owns(s)
    ensures (forall answer, connected :: Owns(After(s, unregister, Connect(id, answer, connected))))
      <==> !s.registered || Identity(id) in s.mine
  {
    if s.registered && Identity(id) !in s.mine {
      assert !Owns(After(s, unregister, Connect(id, Refused, false)));
    }
  }

  /** `Connect` forgets nothing it registered exactly if the session has not registered yet, or
      connects again under the same identity. */
  lemma ConnectStaysSettledExactlyWhen(s: Registration, unregister: bool, id: Option<Guid>)
    requires Settled(s)
    ensures (forall answer, connected :: Settled(After(s, unregister, Connect(id, answer, connected))))
      <==> !s.registered || Identity(id) == s.clientId
  {
    if s.registered && Identity(id) != s.clientId {
      assert !Settled(After(s, unregister, Connect(id, Refused, false)));
    }
  }

  /** `ConnectExisting` drops the claim to a registered identity: it stays registered for good. */
  lemma ConnectExistingStaysSettledExactlyWhen(s: Registration, unregister: bool, id: Guid)
    requires Settled(s)
    ensures Owns(After(s, unregister, ConnectExisting(id)))
    ensures Settled(After(s, unregister, ConnectExisting(id))) <==> !s.registered || id == NULL_GUID
  {}

  /** A session that registered one identity and was then refused another asks, when it disconnects,
      for the removal of the other. */
  lemma ForeignIdentityIsRemoved()
    ensures
      var s := Registration(NULL_GUID, false, {});
      var t := After(s, true, Connect(Some(1), Accepted, true));
      var u := After(t, true, Connect(Some(2), AlreadyExists, false));
      Settled(s) && Settled(t) && u.mine == {1} && Removes(u, true, Disconnect) == Some(2)
  {}

  // ---------------------------------------------------------------- runs

  /** A step that leaves a settled session settled whatever the library answers: it does not change
      the identity while one is registered. */
  predicate Orderly(s: Registration, op: Operation) {
    match op
    case Connect(id, _, _) => !s.registered || Identity(id) == s.clientId
    case ConnectExisting(existing) => !s.registered || existing == NULL_GUID
    case Disconnect => true
  }

  /** A run of operations, each under the removal policy of its moment. */
  ghost predicate Run(states: seq<Registration>, policies: seq<bool>, ops: seq<Operation>) {
    |states| == |ops| + 1 && |policies| == |ops| && states[0] == Registration(NULL_GUID, false, {})
    && forall k :: 0 <= k < |ops| ==> Orderly(states[k], ops[k]) && states[k + 1] == After(states[k], policies[k], ops[k])
  }

  lemma {:induction false} RunIsSettled(states: seq<Registration>, policies: seq<bool>, ops: seq<Operation>, n: nat)
    requires Run(states, policies, ops) && n <= |ops|
    ensures Settled(states[n])
  {
    if n > 0 {
      RunIsSettled(states, policies, ops, n - 1);
      var s, policy := states[n - 1], policies[n - 1];
      assert Orderly(s, ops[n - 1]) && states[n] == After(s, policy, ops[n - 1]);
      match ops[n - 1]
      case Connect(id, answer, connected) => ConnectStaysSettledExactlyWhen(s, policy, id);
      case ConnectExisting(existing) => ConnectExistingStaysSettledExactlyWhen(s, policy, existing);
      case Disconnect =>
    }
  }

  /** Over every orderly run, whatever policy holds at each step, a session asks only for the
      removal of what it registered itself, and a disconnect that removes leaves nothing of its own
      registered. */
  lemma RunsRemoveOnlyTheirOwn(states: seq<Registration>, policies: seq<bool>, ops: seq<Operation>, k: nat)
    requires Run(states, policies, ops) && k < |ops|
    ensures var gone := Removes(states[k], policies[k], ops[k]);
            gone.Some? ==> gone.value in states[k].mine || (ops[k].Connect? && ops[k].answer == Accepted && ops[k].id == gone)
    ensures ops[k].Disconnect? && policies[k] ==> states[k + 1].mine == {}
  {
    RunIsSettled(states, policies, ops, k);
    assert Orderly(states[k], ops[k]) && states[k + 1] == After(states[k], policies[k], ops[k]);
  }

  // ---------------------------------------------------------------- the library

  function RulesIn(persistent: map<Guid, nat>, id: Guid): nat {
    if id in persistent then persistent[id] else 0
  }

  /** The library's register of clients. Every call may be refused. A listing of persistent rules
      that succeeds is true. */
  class Registry {
    var attempts: seq<Attempt>
    var registered: set<Guid>
    var removals: seq<Guid>
    /** How many of the removals succeeded. */
    var removed: nat
    var persistent: map<Guid, nat>
    /** Every connection, listing and enumeration, in order. */
    var calls: seq<Call>

    function PersistentRules(id: Guid): nat
      reads this`persistent
    {
      RulesIn(persistent, id)
    }

    constructor ()
      ensures attempts == [] && removals == [] && registered == {}
    {
      attempts, registered, removals, removed, persistent, calls := [], {}, [], 0, map[], [];
    }

    method Register(id: Guid, altitude: uint32) returns (answer: Answer)
      modifies this`attempts, this`registered
      ensures attempts == old(attempts) + [Attempt(id, altitude, answer)]
      ensures registered == if answer == Accepted then old(registered) + {id} else old(registered)
    {
      answer := *;
      attempts := attempts + [Attempt(id, altitude, answer)];
      if answer == Accepted {
        registered := registered + {id};
      }
    }

    method Connect(id: Guid) returns (client: Handle)
      modifies this`calls
      ensures calls == old(calls) + [Connected(id, client != NULL)]
    {
      client := *;
      calls := calls + [Connected(id, client != NULL)];
    }

    method Unregister(id: Guid) returns (ok: bool)
      modifies this`removals, this`removed, this`registered
      ensures removals == old(removals) + [id] && removed == old(removed) + (if ok then 1 else 0)
      ensures registered == if ok then old(registered) - {id} else old(registered)
    {
      ok := *;
      removals := removals + [id];
      if ok {
        registered, removed := registered - {id}, removed + 1;
      }
    }

    method EnumeratePersistent(id: Guid) returns (ok: bool, count: nat)
      modifies this`calls
      ensures if ok then count == PersistentRules(id) else count == 0
      ensures calls == old(calls) + [Listed(id, ok)]
    {
      ok := *;
      calls := calls + [Listed(id, ok)];
      count := if ok then PersistentRules(id) else 0;
    }

    method EnumerateClients() returns (ok: bool, ids: seq<Guid>)
      modifies this`calls
      ensures calls == old(calls) + [Enumerated(ids)] && (!ok ==> ids == [])
    {
      ok, ids := *, *;
      ids := if ok then ids else [];
      calls := calls + [Enumerated(ids)];
    }

    method Bypass() returns (ok: bool)
      modifies this`calls
      ensures calls == old(calls) + [Bypassed(ok)]
    {
      ok := *;
      calls := calls + [Bypassed(ok)];
    }

    method CreateQueue() returns (ok: bool)
      modifies this`calls
      ensures calls == old(calls) + [QueueCreated(ok)]
    {
      ok := *;
      calls := calls + [QueueCreated(ok)];
    }

    method RemoveAllRules(id: Guid) returns (ok: bool)
      modifies this`persistent, this`calls
      ensures calls == old(calls) + [RulesRemoved(id, ok)]
      ensures forall other :: other != id ==> PersistentRules(other) == old(PersistentRules(other))
    {
      var count: nat := *;
      ok := *;
      persistent, calls := persistent[id := count], calls + [RulesRemoved(id, ok)];
    }

    method InstallRules(id: Guid) returns (status: InstallStatus)
      modifies this`persistent, this`calls
      ensures calls == old(calls) + [RulesInstalled(id, status)]
      ensures forall other :: other != id ==> PersistentRules(other) == old(PersistentRules(other))
    {
      var count: nat := *;
      status := *;
      persistent, calls := persistent[id := count], calls + [RulesInstalled(id, status)];
    }
  }

  // ---------------------------------------------------------------- sessions

  datatype ClientSpec = ClientSpec(guid: Guid, altitude: string)

  /** A session's part in registering and connecting. */
  class ClientSession {
    const registry: Registry
    var clientId: Guid
    var registered: bool
    var unregisterOnDisconnect: bool
    var client: Handle
    ghost var mine: set<Guid>

    ghost function State(): Registration
      reads this
    {
      Registration(clientId, registered, mine)
    }

    constructor (registry: Registry)
      ensures this.registry == registry && unregisterOnDisconnect && client == NULL
      ensures State() == Registration(NULL_GUID, false, {})
    {
      this.registry := registry;
      clientId, registered, unregisterOnDisconnect, client := NULL_GUID, false, true, NULL;
      mine := {};
    }

    /** Registers at the first free rung. */
    method Register(altitude: string) returns (answer: Answer, ghost tries: seq<Attempt>)
      modifies registry`attempts, registry`registered
      ensures Climbs(AltitudeBase(altitude), clientId, tries) && registry.attempts == old(registry.attempts) + tries
      ensures answer == tries[|tries| - 1].answer
      ensures registry.registered == if answer == Accepted then old(registry.registered) + {clientId} else old(registry.registered)
    {
      var base := DEFAULT_ALTITUDE;
      if altitude != "" {
        var parsedOk, parsed := ParseUnsigned(altitude, 0);
        if parsedOk && parsed != 0 && parsed as int <= MAX_U32 {
          base := parsed as uint32;
        }
      }
      tries, answer := [], Refused;
      for attempt := 0 to COLLISION_TRIES
        invariant |tries| == attempt && registry.attempts == old(registry.attempts) + tries
        invariant registry.registered == old(registry.registered)
        invariant forall k :: 0 <= k < attempt ==> tries[k] == Attempt(clientId, Rung(base, k), AlreadyExists)
        invariant attempt > 0 ==> answer == AlreadyExists
      {
        answer := registry.Register(clientId, Rung(base, attempt));
        tries := tries + [Attempt(clientId, Rung(base, attempt), answer)];
        if answer != AlreadyExists {
          break;
        }
      }
    }

    /** Asks for the removal of the session's identity if it registered it. */
    method UnregisterIfOwned()
      modifies this`registered, this`mine, registry`removals, registry`removed, registry`registered
      ensures State() == AfterRemoval(old(State()), unregisterOnDisconnect)
      ensures registry.removals == old(registry.removals) + Asked(Removal(old(State()), unregisterOnDisconnect))
      ensures Removal(old(State()), unregisterOnDisconnect) == None ==> registry.removed == old(registry.removed)
      ensures registry.registered == old(registry.registered)
              || (Removal(old(State()), unregisterOnDisconnect) == Some(clientId)
                  && registry.registered == old(registry.registered) - {clientId})
    {
      if !registered || !unregisterOnDisconnect {
        return;
      }
      var ok := registry.Unregister(clientId);
      registered := false;
      mine := mine - {clientId};
    }

    /** Registers and connects. `generated` is the identity made up for a client that names none,
        or None if that failed. */
    method Connect(spec: ClientSpec, generated: Option<Guid>) returns (ok: bool, ghost tries: seq<Attempt>, ghost connected: bool)
      modifies this`clientId, this`registered, this`client, this`mine
      modifies registry`attempts, registry`registered, registry`removals, registry`removed, registry`calls
      ensures var id := IdentityOf(spec, generated);
        && var op := Operation.Connect(id, AnswerOf(tries), connected);
        && State() == After(old(State()), unregisterOnDisconnect, op)
        && registry.removals == old(registry.removals) + Asked(Removes(old(State()), unregisterOnDisconnect, op))
        && registry.attempts == old(registry.attempts) + tries
        && (if id.Some? then Climbs(AltitudeBase(spec.altitude), id.value, tries) else tries == [])
        && registry.calls == old(registry.calls) + (if AnswerOf(tries) == Accepted then [Connected(clientId, connected)] else [])
        && ok == (id.Some? && AnswerOf(tries) == Accepted && connected)
        && (ok ==> client != NULL && registry.registered == old(registry.registered) + {clientId})
    {
      tries, connected := [], false;
      clientId := spec.guid;
      if clientId == NULL_GUID {
        if generated == None {
          return false, tries, connected;
        }
        clientId := generated.value;
      }
      var answer;
      answer, tries := Register(spec.altitude);
      if answer != Accepted {
        return false, tries, connected;
      }
      registered := true;
      mine := mine + {clientId};
      client := registry.Connect(clientId);
      if client == NULL {
        UnregisterIfOwned();
        return false, tries, connected;
      }
      return true, tries, true;
    }

    method ConnectExisting(id: Guid) returns (ok: bool)
      modifies this`clientId, this`registered, this`client, registry`calls
      ensures State() == After(old(State()), unregisterOnDisconnect, Operation.ConnectExisting(id))
      ensures ok ==> id != NULL_GUID && clientId == id && client != NULL
      ensures registry.calls == old(registry.calls) + (if id == NULL_GUID then [] else [Connected(id, ok)])
    {
      if id == NULL_GUID {
        return false;
      }
      clientId, registered := id, false;
      client := registry.Connect(clientId);
      ok := client != NULL;
    }

    method Disconnect()
      modifies this`registered, this`client, this`mine, registry`removals, registry`removed, registry`registered
      ensures State() == After(old(State()), unregisterOnDisconnect, Operation.Disconnect) && client == NULL
      ensures registry.removals == old(registry.removals) + Asked(Removes(old(State()), unregisterOnDisconnect, Operation.Disconnect))
      ensures Removal(old(State()), unregisterOnDisconnect) == None ==> registry.removed == old(registry.removed)
      ensures registry.registered == old(registry.registered)
              || (Removal(old(State()), unregisterOnDisconnect) == Some(clientId)
                  && registry.registered == old(registry.registered) - {clientId})
    {
      client := NULL;
      UnregisterIfOwned();
    }
  }

  /** The identity a client is registered under, or None if it names none and none could be made. */
  function IdentityOf(spec: ClientSpec, generated: Option<Guid>): Option<Guid> {
    if spec.guid != NULL_GUID then Some(spec.guid) else generated
  }

  /** A client that names no identity gets a generated one, or none. */
  lemma IdentitySays(spec: ClientSpec, generated: Option<Guid>)
    ensures IdentityOf(spec, generated) == if spec.guid == 0 then generated else Some(spec.guid)
  {}

  /** What the last attempt was answered. */
  function AnswerOf(tries: seq<Attempt>): Answer {
    if tries == [] then Refused else tries[|tries| - 1].answer
  }

  function Asked(gone: Option<Guid>): seq<Guid> {
    if gone.Some? then [gone.value] else []
  }
}
