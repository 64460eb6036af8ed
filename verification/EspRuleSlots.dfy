/** The lists that `InstallRules` carries through its loops (esptool/src/esp/EspRuleInstall.cpp),
    one lemma for each step of a loop. */
module EspRuleSlots {
  import opened Wrappers
  import opened StrHelpers
  import opened RuleDocument
  import opened EspRuleAbi
  import opened EspFilterBuild
  import opened EspRuleInstall
  import opened EspHandles
  import opened HandleLog
  import opened Sequences

  // ---------------------------------------------------------------- rule slots

  /** The slots of submitted rules: a refused rule leaves an empty one. */
  function Slots(handles: seq<Handle>, accepted: seq<bool>): (r: seq<Handle>)
    requires |handles| == |accepted|
    ensures |r| == |handles|
  {
    seq(|handles|, i requires 0 <= i < |handles| => if accepted[i] then handles[i] else NULL)
  }

  /** Compacting the slots keeps the accepted handles in order. */
  lemma {:induction false} CompactedSlots(handles: seq<Handle>, accepted: seq<bool>)
    requires |handles| == |accepted| && NULL !in handles
    ensures NonNull(Slots(handles, accepted)) == Kept(handles, accepted)
  {
    if handles != [] {
      var n := |handles| - 1;
      CompactedSlots(handles[..n], accepted[..n]);
      assert Slots(handles, accepted)[..n] == Slots(handles[..n], accepted[..n]);
    }
  }

  lemma {:induction false} NonNullOfDense(s: seq<Handle>)
    requires NULL !in s
    ensures NonNull(s) == s
  {
    if s != [] {
      NonNullOfDense(s[..|s| - 1]);
    }
  }

  lemma {:induction false} KeptIsDistinct(handles: seq<Handle>, accepted: seq<bool>)
    requires |handles| == |accepted| && Distinct(handles)
    ensures Distinct(Kept(handles, accepted)) && Elements(Kept(handles, accepted)) <= Elements(handles)
  {
    if handles != [] {
      var n := |handles| - 1;
      assert handles == handles[..n] + [handles[n]];
      DistinctParts(handles[..n], [handles[n]]);
      KeptIsDistinct(handles[..n], accepted[..n]);
      DistinctParts(Kept(handles[..n], accepted[..n]), [handles[n]]);
    }
  }

  lemma OneMoreBirth(births: seq<Birth>, b: Birth)
    ensures Handles(births + [b]) == EntriesAfter(Handles(births), b)
    ensures Created(births + [b]) == if b.handle == NULL then Created(births) else Created(births) + [b]
    ensures AnchorsOf(births + [b]) == AnchorsAfter(AnchorsOf(births), Handles(births), b)
  {
    assert (births + [b])[..|births|] == births;
  }

  /** The driver remembers each created rule's descriptor. */
  ghost predicate AskedAs(asked: map<Handle, Descriptor>, births: seq<Birth>) {
    forall k :: 0 <= k < |Created(births)| ==>
      Created(births)[k].asked.Some?
      && Handles(births)[k] in asked && asked[Handles(births)[k]] == Created(births)[k].asked.value
  }

  lemma AskedAsExtends(asked: map<Handle, Descriptor>, births: seq<Birth>, b: Birth)
    requires AskedAs(asked, births) && b.asked.Some? && b.handle != NULL && b.handle !in Handles(births)
    requires Handles(births + [b]) == Handles(births) + [b.handle] && Created(births + [b]) == Created(births) + [b]
    ensures AskedAs(asked[b.handle := b.asked.value], births + [b])
  {}

  /** The entry a new selector-7 entry is built over, if this install created one before it. */
  function AnchorFor(d: Descriptor, entries: seq<Handle>): Handle {
    if d.selector == ACTION_MATCH_SUBRULES && entries != [] then entries[|entries| - 1] else NULL
  }

  lemma AnchoredExtends(births: seq<Birth>, entries: seq<Handle>, anchors: seq<Handle>, b: Birth)
    requires Anchored(births, entries, anchors) && b.asked.Some? && b.handle != NULL
    requires Handles(births + [b]) == Handles(births) + [b.handle] && Created(births + [b]) == Created(births) + [b]
    ensures Anchored(births + [b], entries + [b.handle], anchors + [AnchorFor(b.asked.value, entries)])
  {
    var created := Created(births + [b]);
    var entries', anchors' := entries + [b.handle], anchors + [AnchorFor(b.asked.value, entries)];
    forall k | 0 <= k < |entries'| ensures anchors'[k] == if Chained(created, k) then entries'[k - 1] else NULL {
      if k < |entries| {
        assert created[k] == Created(births)[k];
        assert Chained(created, k) <==> Chained(Created(births), k);
      } else {
        assert created[k] == b;
      }
    }
  }

  lemma SlotsExtend(entries: seq<Handle>, accepted: seq<bool>, n: nat, ok: bool)
    requires |accepted| == n < |entries|
    ensures Slots(entries[..n + 1], accepted + [ok]) == Slots(entries[..n], accepted) + [if ok then entries[n] else NULL]
    ensures Kept(entries[..n + 1], accepted + [ok]) == Kept(entries[..n], accepted) + (if ok then [entries[n]] else [])
  {
    assert entries[..n + 1] == entries[..n] + [entries[n]];
    OneMoreSlot(entries[..n], accepted, entries[n], ok);
  }

  lemma OneMoreSlot(entries: seq<Handle>, accepted: seq<bool>, e: Handle, ok: bool)
    requires |accepted| == |entries|
    ensures Slots(entries + [e], accepted + [ok]) == Slots(entries, accepted) + [if ok then e else NULL]
    ensures Kept(entries + [e], accepted + [ok]) == Kept(entries, accepted) + (if ok then [e] else [])
  {
    assert (entries + [e])[..|entries|] == entries && (accepted + [ok])[..|accepted|] == accepted;
  }

  /** The open and armed rules while `n` of the entries have been submitted. */
  ghost predicate SubmittedSoFar(
    open: set<Handle>, armed: set<Handle>, before: seq<Handle>, entries: seq<Handle>, accepted: seq<bool>, n: nat)
    requires |accepted| == n <= |entries|
  {
    armed == Elements(before) + Elements(Kept(entries[..n], accepted)) && open == armed + Elements(entries[n..])
  }

  /** Submitting one entry keeps that account, whether it is armed or closed. */
  lemma SubmittedStep(
    open: set<Handle>, armed: set<Handle>, before: seq<Handle>, entries: seq<Handle>, accepted: seq<bool>, n: nat, ok: bool)
    requires |accepted| == n < |entries| && SubmittedSoFar(open, armed, before, entries, accepted, n)
    requires Distinct(before + entries)
    ensures entries[n] in open && entries[n] !in armed
    ensures ok ==> SubmittedSoFar(open, armed + {entries[n]}, before, entries, accepted + [ok], n + 1)
    ensures !ok ==> SubmittedSoFar(open - {entries[n]}, armed, before, entries, accepted + [ok], n + 1)
  {
    SlotsExtend(entries, accepted, n, ok);
    EntryStandsAlone(before, entries, accepted, n);
    var e, kept := entries[n], Kept(entries[..n], accepted);
    ElementsJoin(kept, [e]);
    ElementsOne(e);
    assert kept + [] == kept;
  }

  lemma EntryStandsAlone(before: seq<Handle>, entries: seq<Handle>, accepted: seq<bool>, n: nat)
    requires |accepted| == n < |entries| && Distinct(before + entries)
    ensures Elements(entries[n..]) == {entries[n]} + Elements(entries[n + 1..])
    ensures entries[n] !in Elements(before) && entries[n] !in Elements(entries[n + 1..])
    ensures entries[n] !in Elements(Kept(entries[..n], accepted))
  {
    var all, e, front, rest := before + entries, entries[n], entries[..n], entries[n + 1..];
    DistinctPairs(all);
    assert all[|before| + n] == e;
    forall i | 0 <= i < |before| ensures before[i] != e {
      assert all[i] == before[i];
    }
    forall i | 0 <= i < n ensures front[i] != e {
      assert all[|before| + i] == front[i];
    }
    forall i | 0 <= i < |rest| ensures rest[i] != e {
      assert all[|before| + n + 1 + i] == rest[i];
    }
    assert entries[n..] == [e] + rest;
    ElementsJoin([e], rest);
    ElementsOne(e);
  }

  /** What the driver recorded that concerns rules. */
  datatype Ledger = Ledger(creations: seq<Creation>, refusals: nat, updates: seq<Update>, log: seq<HandleEvent>)

  /** What the driver and the session remember of created rules and filters. */
  datatype Memory = Memory(
    asked: map<Handle, Descriptor>, filters: seq<Handle>, built: map<Handle, DriverFilter>, ledger: Ledger)

  /** The lists and the driver's memory after one birth; a rule that was not created adds nothing. */
  function EntriesAfter(entries: seq<Handle>, b: Birth): seq<Handle> {
    if b.handle == NULL then entries else entries + [b.handle]
  }

  lemma JoinEntry(before: seq<Handle>, entries: seq<Handle>, b: Birth)
    ensures EntriesAfter(before + entries, b) == before + EntriesAfter(entries, b)
  {}

  function AnchorsAfter(anchors: seq<Handle>, entries: seq<Handle>, b: Birth): seq<Handle> {
    if b.handle == NULL || b.asked.None? then anchors else anchors + [AnchorFor(b.asked.value, entries)]
  }

  function AskedAfter(asked: map<Handle, Descriptor>, b: Birth): map<Handle, Descriptor>
    requires b.handle != NULL ==> b.asked.Some?
  {
    if b.handle == NULL then asked else asked[b.handle := b.asked.value]
  }

  function LedgerBorn(l: Ledger, b: Birth): Ledger {
    l.(creations := l.creations + CreationOf(b), refusals := l.refusals + b.refused, log := l.log + OpeningOf(b.handle))
  }

  /** The objects of the listed filters, which are open, stay what they are. */
  ghost predicate Stable(listed: seq<Handle>, built: map<Handle, DriverFilter>, built': map<Handle, DriverFilter>) {
    forall h :: h in listed && h != NULL && h in built ==> h in built' && built'[h] == built[h]
  }

  /** One turn of the build loop, as the driver and the session see it. */
  ghost predicate Turn(
    spec: RuleSpec, compat: bool, works: bool, queue: Handle, predecessor: Handle, m: Memory, b: Birth, m': Memory)
  {
    && BirthFollows(spec, compat, works, queue, predecessor, b)
    && m'.asked == AskedAfter(m.asked, b) && m'.ledger == LedgerBorn(m.ledger, b)
    && m.filters <= m'.filters && Stable(m.filters, m.built, m'.built) && Meant(spec, b, m'.filters, m'.built)
  }

  /** What was prepared for a rule, as the driver and the session see it. */
  ghost predicate PreparedRule(
    spec: RuleSpec, compat: bool, works: bool, queue: Handle, predecessor: Handle, m: Memory, b: Birth, m': Memory)
  {
    && b.handle == NULL && BirthFollows(spec, compat, works, queue, predecessor, b)
    && m'.asked == m.asked && m'.ledger == m.ledger.(refusals := m.ledger.refusals + b.refused)
    && m.filters <= m'.filters && Stable(m.filters, m.built, m'.built) && Meant(spec, b, m'.filters, m'.built)
  }

  /** The memory after the create call, if there is one. */
  function Answered(m: Memory, b: Birth): Memory
    requires b.handle != NULL ==> b.asked.Some?
  {
    m.(asked := AskedAfter(m.asked, b),
       ledger := m.ledger.(creations := m.ledger.creations + CreationOf(b), log := m.ledger.log + OpeningOf(b.handle)))
  }

  /** A turn is what was prepared for a rule and the answer to the create call. */
  lemma TurnOf(
    spec: RuleSpec, compat: bool, works: bool, queue: Handle, predecessor: Handle, m: Memory, b: Birth, raw: Handle, m1: Memory)
    requires PreparedRule(spec, compat, works, queue, predecessor, m, b, m1) && (raw != NULL ==> b.asked.Some?)
    ensures Turn(spec, compat, works, queue, predecessor, m, b.(handle := raw), Answered(m1, b.(handle := raw)))
  {
    assert FiltersFollow(spec, b.(handle := raw));
  }

  /** The k-th turn of the build loop, between two of the memories it went through. */
  ghost predicate TurnAt(
    specs: seq<RuleSpec>, compat: bool, works: bool, queue: Handle, before: seq<Handle>,
    history: seq<Memory>, births: seq<Birth>, k: nat)
    requires k < |specs| && k < |births| && k + 1 < |history|
  {
    var entries := before + Handles(births[..k]);
    Turn(specs[k], compat, works, queue, LastOf(entries), history[k], births[k], history[k + 1]) && births[k].handle !in entries
  }

  /** The build loop after its first rules: one turn for each. */
  ghost predicate Turns(
    specs: seq<RuleSpec>, compat: bool, works: bool, queue: Handle, before: seq<Handle>,
    history: seq<Memory>, births: seq<Birth>)
  {
    && |births| <= |specs| && |history| == |births| + 1
    && forall k :: 0 <= k < |births| ==> TurnAt(specs, compat, works, queue, before, history, births, k)
  }

  lemma OneMoreTurn(
    specs: seq<RuleSpec>, compat: bool, works: bool, queue: Handle, before: seq<Handle>,
    history: seq<Memory>, births: seq<Birth>, b: Birth, m: Memory)
    requires Turns(specs, compat, works, queue, before, history, births) && |births| < |specs|
    requires var entries := before + Handles(births);
      Turn(specs[|births|], compat, works, queue, LastOf(entries), history[|births|], b, m) && b.handle !in entries
    ensures Turns(specs, compat, works, queue, before, history + [m], births + [b])
    ensures Handles(births + [b]) == EntriesAfter(Handles(births), b)
    ensures AnchorsOf(births + [b]) == AnchorsAfter(AnchorsOf(births), Handles(births), b)
  {
    var history', births' := history + [m], births + [b];
    OneMoreBirth(births, b);
    NewTurn(specs, compat, works, queue, before, history, births, b, m);
    forall k | 0 <= k < |births'| ensures TurnAt(specs, compat, works, queue, before, history', births', k) {
      if k < |births| {
        TurnStays(specs, compat, works, queue, before, history, births, b, m, k);
      }
    }
  }

  lemma TurnStays(
    specs: seq<RuleSpec>, compat: bool, works: bool, queue: Handle, before: seq<Handle>,
    history: seq<Memory>, births: seq<Birth>, b: Birth, m: Memory, k: nat)
    requires k < |specs| && k < |births| && k + 1 < |history| && TurnAt(specs, compat, works, queue, before, history, births, k)
    ensures TurnAt(specs, compat, works, queue, before, history + [m], births + [b], k)
  {
    assert (births + [b])[..k] == births[..k];
  }

  lemma NewTurn(
    specs: seq<RuleSpec>, compat: bool, works: bool, queue: Handle, before: seq<Handle>,
    history: seq<Memory>, births: seq<Birth>, b: Birth, m: Memory)
    requires |births| < |specs| && |history| == |births| + 1
    requires var entries := before + Handles(births);
      Turn(specs[|births|], compat, works, queue, LastOf(entries), history[|births|], b, m) && b.handle !in entries
    ensures TurnAt(specs, compat, works, queue, before, history + [m], births + [b], |births|)
  {
    assert (births + [b])[..|births|] == births;
  }

  /** The anchors of the created rules. */
  function AnchorsOf(births: seq<Birth>): seq<Handle> {
    if births == [] then []
    else
      var front := births[..|births| - 1];
      AnchorsAfter(AnchorsOf(front), Handles(front), births[|births| - 1])
  }

  /** What the driver was asked while these births happened, on top of what was asked before: one
      creation for each descriptor, and a refused call for each that the births tell of. */
  ghost predicate Asked(births: seq<Birth>, now: Ledger, start: Ledger) {
    && now.creations == start.creations + Creations(births) && now.refusals == start.refusals + Refused(births)
    && now.updates == start.updates && now.log == start.log + Openings(Handles(births))
  }

  lemma AskedExtends(births: seq<Birth>, now: Ledger, start: Ledger, b: Birth)
    requires Asked(births, now, start)
    ensures Asked(births + [b], LedgerBorn(now, b), start)
  {
    assert (births + [b])[..|births|] == births;
  }

  lemma MeantExtends(
    specs: seq<RuleSpec>, n: nat, births: seq<Birth>, m: Memory, b: Birth, m': Memory)
    requires n < |specs| && AllMeant(specs[..n], births, m.filters, m.built)
    requires m.filters <= m'.filters && Stable(m.filters, m.built, m'.built) && Meant(specs[n], b, m'.filters, m'.built)
    ensures AllMeant(specs[..n + 1], births + [b], m'.filters, m'.built)
  {
    forall k | 0 <= k < n + 1 ensures Meant(specs[..n + 1][k], (births + [b])[k], m'.filters, m'.built) {
      if k < n {
        assert Meant(specs[..n][k], births[k], m.filters, m.built);
      }
    }
  }

  lemma AnchoredStep(births: seq<Birth>, b: Birth)
    requires Anchored(births, Handles(births), AnchorsOf(births)) && (b.handle != NULL ==> b.asked.Some?)
    ensures Anchored(births + [b], Handles(births + [b]), AnchorsOf(births + [b]))
  {
    OneMoreBirth(births, b);
    if b.handle != NULL {
      AnchoredExtends(births, Handles(births), AnchorsOf(births), b);
    }
  }

  lemma AskedAsStep(asked: map<Handle, Descriptor>, births: seq<Birth>, b: Birth)
    requires AskedAs(asked, births) && (b.handle != NULL ==> b.asked.Some?) && b.handle !in Handles(births)
    ensures AskedAs(AskedAfter(asked, b), births + [b])
  {
    OneMoreBirth(births, b);
    if b.handle != NULL {
      AskedAsExtends(asked, births, b);
    }
  }

  // What all turns together have recorded: one lemma for each kind of record.

  lemma TurnsBirths(
    specs: seq<RuleSpec>, compat: bool, works: bool, queue: Handle, before: seq<Handle>,
    history: seq<Memory>, births: seq<Birth>)
    requires Turns(specs, compat, works, queue, before, history, births) && |births| == |specs|
    ensures BirthsFollow(specs, compat, works, queue, before, births)
  {
    forall k | 0 <= k < |specs|
      ensures BirthFollows(specs[k], compat, works, queue, LastOf(before + Handles(births[..k])), births[k])
    {
      assert TurnAt(specs, compat, works, queue, before, history, births, k);
    }
  }

  /** The n-th turn, apart from the parameters of the run. */
  lemma TurnRecords(
    specs: seq<RuleSpec>, compat: bool, works: bool, queue: Handle, before: seq<Handle>,
    history: seq<Memory>, births: seq<Birth>, n: nat)
    requires Turns(specs, compat, works, queue, before, history, births) && n < |births|
    ensures births[..n + 1] == births[..n] + [births[n]]
    ensures var b, m, m' := births[n], history[n], history[n + 1];
      && (b.handle != NULL ==> b.asked.Some?) && b.handle !in Handles(births[..n])
      && m'.asked == AskedAfter(m.asked, b) && m'.ledger == LedgerBorn(m.ledger, b)
      && m.filters <= m'.filters && Stable(m.filters, m.built, m'.built) && Meant(specs[n], b, m'.filters, m'.built)
  {
    assert TurnAt(specs, compat, works, queue, before, history, births, n);
  }

  lemma {:induction false} TurnsAnchored(
    specs: seq<RuleSpec>, compat: bool, works: bool, queue: Handle, before: seq<Handle>,
    history: seq<Memory>, births: seq<Birth>, n: nat)
    requires Turns(specs, compat, works, queue, before, history, births) && n <= |births|
    ensures Anchored(births[..n], Handles(births[..n]), AnchorsOf(births[..n]))
  {
    if n > 0 {
      TurnsAnchored(specs, compat, works, queue, before, history, births, n - 1);
      TurnRecords(specs, compat, works, queue, before, history, births, n - 1);
      AnchoredStep(births[..n - 1], births[n - 1]);
    }
  }

  lemma {:induction false} TurnsAskedAs(
    specs: seq<RuleSpec>, compat: bool, works: bool, queue: Handle, before: seq<Handle>,
    history: seq<Memory>, births: seq<Birth>, n: nat)
    requires Turns(specs, compat, works, queue, before, history, births) && n <= |births|
    ensures AskedAs(history[n].asked, births[..n])
  {
    if n > 0 {
      TurnsAskedAs(specs, compat, works, queue, before, history, births, n - 1);
      TurnRecords(specs, compat, works, queue, before, history, births, n - 1);
      AskedAsStep(history[n - 1].asked, births[..n - 1], births[n - 1]);
    }
  }

  lemma {:induction false} TurnsAsked(
    specs: seq<RuleSpec>, compat: bool, works: bool, queue: Handle, before: seq<Handle>,
    history: seq<Memory>, births: seq<Birth>, n: nat)
    requires Turns(specs, compat, works, queue, before, history, births) && n <= |births|
    ensures Asked(births[..n], history[n].ledger, history[0].ledger)
  {
    if n == 0 {
      assert history[0].ledger.log + Openings([]) == history[0].ledger.log;
    } else {
      TurnsAsked(specs, compat, works, queue, before, history, births, n - 1);
      TurnRecords(specs, compat, works, queue, before, history, births, n - 1);
      AskedExtends(births[..n - 1], history[n - 1].ledger, history[0].ledger, births[n - 1]);
    }
  }

  lemma {:induction false} TurnsMeant(
    specs: seq<RuleSpec>, compat: bool, works: bool, queue: Handle, before: seq<Handle>,
    history: seq<Memory>, births: seq<Birth>, n: nat)
    requires Turns(specs, compat, works, queue, before, history, births) && n <= |births|
    ensures AllMeant(specs[..n], births[..n], history[n].filters, history[n].built)
  {
    if n > 0 {
      TurnsMeant(specs, compat, works, queue, before, history, births, n - 1);
      TurnRecords(specs, compat, works, queue, before, history, births, n - 1);
      MeantExtends(specs, n - 1, births[..n - 1], history[n - 1], births[n - 1], history[n]);
    }
  }

  lemma AllTurnsRecord(
    specs: seq<RuleSpec>, compat: bool, works: bool, queue: Handle, before: seq<Handle>,
    history: seq<Memory>, births: seq<Birth>)
    requires Turns(specs, compat, works, queue, before, history, births) && |births| == |specs|
    ensures var m := history[|specs|];
      && BirthsFollow(specs, compat, works, queue, before, births) && AllMeant(specs, births, m.filters, m.built)
      && Anchored(births, Handles(births), AnchorsOf(births)) && AskedAs(m.asked, births)
      && Asked(births, m.ledger, history[0].ledger)
  {
    var n := |specs|;
    assert specs[..n] == specs && births[..n] == births;
    TurnsBirths(specs, compat, works, queue, before, history, births);
    TurnsAnchored(specs, compat, works, queue, before, history, births, n);
    TurnsAskedAs(specs, compat, works, queue, before, history, births, n);
    TurnsAsked(specs, compat, works, queue, before, history, births, n);
    TurnsMeant(specs, compat, works, queue, before, history, births, n);
  }

  /** The accepted rules after the rules of the session are again a dense list. */
  lemma ArmedIsDense(before: seq<Handle>, entries: seq<Handle>, accepted: seq<bool>)
    requires |accepted| == |entries|
    requires Dense(Elements(before + entries), before + entries)
    ensures var kept := Kept(entries, accepted);
            Dense(Elements(before) + Elements(kept), before + kept)
  {
    var kept := Kept(entries, accepted);
    DistinctParts(before, entries);
    KeptIsDistinct(entries, accepted);
    DistinctParts(before, kept);
    ElementsJoin(before, kept);
    assert forall h :: h in kept ==> h in before + entries;
    assert forall h :: h in before ==> h in before + entries;
  }

  /** How many submissions were accepted. */
  function Accepted(accepted: seq<bool>): (n: nat)
    ensures n <= |accepted|
  {
    if accepted == [] then 0
    else Accepted(accepted[..|accepted| - 1]) + (if accepted[|accepted| - 1] then 1 else 0)
  }

  lemma AcceptedOneMore(accepted: seq<bool>, ok: bool)
    ensures Accepted(accepted + [ok]) == Accepted(accepted) + (if ok then 1 else 0)
  {
    assert (accepted + [ok])[..|accepted|] == accepted;
  }

  lemma {:induction false} AcceptedNoneOrAll(accepted: seq<bool>)
    ensures Accepted(accepted) == 0 <==> forall k :: 0 <= k < |accepted| ==> !accepted[k]
    ensures Accepted(accepted) == |accepted| <==> forall k :: 0 <= k < |accepted| ==> accepted[k]
  {
    if accepted != [] {
      var n := |accepted| - 1;
      AcceptedNoneOrAll(accepted[..n]);
      assert forall k :: 0 <= k < n ==> accepted[..n][k] == accepted[k];
    }
  }

  lemma {:induction false} NothingRefused(handles: seq<Handle>, accepted: seq<bool>)
    requires |handles| == |accepted| && forall k :: 0 <= k < |accepted| ==> accepted[k]
    ensures Slots(handles, accepted) == Kept(handles, accepted)
  {
    if handles != [] {
      var n := |handles| - 1;
      NothingRefused(handles[..n], accepted[..n]);
      assert Slots(handles, accepted) == Slots(handles[..n], accepted[..n]) + [handles[n]];
    }
  }

  /** What the whole submit loop leaves, before and after compaction. */
  lemma SubmittedAll(open: set<Handle>, armed: set<Handle>, before: seq<Handle>, entries: seq<Handle>, accepted: seq<bool>)
    requires |accepted| == |entries| && SubmittedSoFar(open, armed, before, entries, accepted, |entries|)
    requires Dense(Elements(before + entries), before + entries)
    ensures open == armed && Dense(open, before + Kept(entries, accepted))
    ensures NonNull(Slots(entries, accepted)) == Kept(entries, accepted)
    ensures Accepted(accepted) == |accepted| ==> Slots(entries, accepted) == Kept(entries, accepted)
  {
    assert entries[|entries|..] == [] && entries[..|entries|] == entries;
    assert forall i :: 0 <= i < |entries| ==> (before + entries)[|before| + i] == entries[i];
    CompactedSlots(entries, accepted);
    ArmedIsDense(before, entries, accepted);
    AcceptedNoneOrAll(accepted);
    if Accepted(accepted) == |accepted| {
      NothingRefused(entries, accepted);
    }
  }

  lemma DroppedExtend(entries: seq<Handle>, n: nat, accepted: seq<bool>, ok: bool)
    requires |accepted| == n < |entries|
    ensures Closings(Dropped(entries[..n + 1], accepted + [ok]))
            == Closings(Dropped(entries[..n], accepted)) + (if ok then [] else [Closed(entries[n])])
  {
    assert entries[..n + 1][..n] == entries[..n];
    assert (accepted + [ok])[..n] == accepted;
  }

  lemma UpdatesExtend(entries: seq<Handle>, n: nat, submitted: seq<bool>, accepted: seq<bool>, tried: bool, ok: bool)
    requires |submitted| == |accepted| == n < |entries|
    ensures Updates(entries[..n + 1], submitted + [tried], accepted + [ok])
            == Updates(entries[..n], submitted, accepted) + UpdateOf(entries[n], tried, ok)
  {
    assert entries[..n + 1][..n] == entries[..n];
    assert (submitted + [tried])[..n] == submitted && (accepted + [ok])[..n] == accepted;
  }

  ghost predicate RejectedSoFar(entries: seq<Handle>, accepted: seq<bool>, n: nat, rejected: seq<Handle>)
    requires |accepted| == n <= |entries|
  {
    forall h :: h in rejected <==> exists k :: 0 <= k < n && !accepted[k] && entries[k] == h
  }

  lemma RejectedExtends(entries: seq<Handle>, accepted: seq<bool>, n: nat, rejected: seq<Handle>, ok: bool)
    requires |accepted| == n < |entries| && RejectedSoFar(entries, accepted, n, rejected)
    ensures RejectedSoFar(entries, accepted + [ok], n + 1, if ok then rejected else rejected + [entries[n]])
  {
    var oks := accepted + [ok];
    var now := if ok then rejected else rejected + [entries[n]];
    forall h ensures h in now <==> exists k :: 0 <= k < n + 1 && !oks[k] && entries[k] == h {
      if h in rejected {
        var k :| 0 <= k < n && !accepted[k] && entries[k] == h;
        assert !oks[k];
      } else if h in now {
        assert !oks[n] && entries[n] == h;
      }
    }
  }

  /** The anchor of an entry was rejected exactly when the entry continues a refused chain. */
  lemma AnchorRejected(births: seq<Birth>, entries: seq<Handle>, anchors: seq<Handle>, accepted: seq<bool>, n: nat, rejected: seq<Handle>)
    requires Anchored(births, entries, anchors) && |accepted| == n < |entries|
    requires RejectedSoFar(entries, accepted, n, rejected)
    requires Distinct(entries)
    ensures anchors[n] != NULL && anchors[n] in rejected <==> Chained(Created(births), n) && !accepted[n - 1]
  {
    DistinctPairs(entries);
    if Chained(Created(births), n) {
      assert anchors[n] == entries[n - 1] == Created(births)[n - 1].handle;
    }
  }

  lemma SlotsShift(before: seq<Handle>, entries: seq<Handle>, accepted: seq<bool>, n: nat, ok: bool)
    requires |accepted| == n < |entries|
    ensures var rules := before + Slots(entries[..n], accepted) + entries[n..];
            rules[|before| + n] == entries[n] &&
            before + Slots(entries[..n + 1], accepted + [ok]) + entries[n + 1..]
            == if ok then rules else rules[|before| + n := NULL]
  {
    SlotsExtend(entries, accepted, n, ok);
    assert entries[n..] == [entries[n]] + entries[n + 1..];
  }

  lemma SubmissionExtends(created: seq<Birth>, submitted: seq<bool>, accepted: seq<bool>, n: nat, tried: bool, ok: bool)
    requires n < |created| && SubmissionsFollow(created[..n], submitted, accepted)
    requires (tried <==> !(Chained(created, n) && !accepted[n - 1])) && (ok ==> tried)
    ensures SubmissionsFollow(created[..n + 1], submitted + [tried], accepted + [ok])
  {
    var now, tries, oks := created[..n + 1], submitted + [tried], accepted + [ok];
    forall k | 0 <= k < n + 1 ensures SubmissionFollows(now, tries, oks, k) {
      assert Chained(now, k) <==> Chained(created, k);
      if k < n {
        assert SubmissionFollows(created[..n], submitted, accepted, k);
        assert Chained(created[..n], k) <==> Chained(created, k);
      }
    }
  }

  /** The state of the submit loop after `n` entries: the list of rules, the open and armed ones,
      and what was recorded. */
  ghost predicate Submitting(
    rules: seq<Handle>, open: set<Handle>, armed: set<Handle>, now: Ledger, before: seq<Handle>, entries: seq<Handle>,
    births: seq<Birth>, start: Ledger, n: nat, rejected: seq<Handle>, submitted: seq<bool>, accepted: seq<bool>)
  {
    && |submitted| == |accepted| == n <= |entries| == |Created(births)|
    && SubmissionsFollow(Created(births)[..n], submitted, accepted)
    && RejectedSoFar(entries, accepted, n, rejected)
    && rules == before + Slots(entries[..n], accepted) + entries[n..]
    && SubmittedSoFar(open, armed, before, entries, accepted, n)
    && SentSoFar(entries, n, submitted, accepted, now, start)
  }

  /** What the submit loop has asked of the driver: every submission, and a closing for every rule
      that was not accepted. */
  ghost predicate SentSoFar(entries: seq<Handle>, n: nat, submitted: seq<bool>, accepted: seq<bool>, now: Ledger, start: Ledger)
    requires |submitted| == |accepted| == n <= |entries|
  {
    && now.updates == start.updates + Updates(entries[..n], submitted, accepted)
    && now.log == start.log + Closings(Dropped(entries[..n], accepted))
  }

  lemma SentExtends(
    entries: seq<Handle>, n: nat, submitted: seq<bool>, accepted: seq<bool>, now: Ledger, start: Ledger, tried: bool, ok: bool)
    requires |submitted| == |accepted| == n < |entries| && SentSoFar(entries, n, submitted, accepted, now, start)
    ensures SentSoFar(entries, n + 1, submitted + [tried], accepted + [ok], LedgerAfter(now, entries[n], tried, ok), start)
  {
    UpdatesExtend(entries, n, submitted, accepted, tried, ok);
    DroppedExtend(entries, n, accepted, ok);
  }

  /** One submission is recorded if it was made, and a refused rule is closed. */
  function LedgerAfter(now: Ledger, e: Handle, tried: bool, ok: bool): Ledger {
    now.(updates := now.updates + UpdateOf(e, tried, ok), log := now.log + (if ok then [] else [Closed(e)]))
  }

  lemma SubmittingBegins(before: seq<Handle>, entries: seq<Handle>, births: seq<Birth>, start: Ledger)
    requires |entries| == |Created(births)|
    ensures Submitting(before + entries, Elements(before + entries), Elements(before), start, before, entries, births, start, 0,
                       [], [], [])
  {
    ElementsJoin(before, entries);
    assert entries[0..] == entries && entries[..0] == [];
    assert before + Slots([], []) + entries == before + entries;
  }

  /** One turn: the entry stays and is armed, or its slot is emptied and its rule is closed. */
  lemma SubmittingStep(
    rules: seq<Handle>, open: set<Handle>, armed: set<Handle>, now: Ledger, before: seq<Handle>, entries: seq<Handle>,
    births: seq<Birth>, start: Ledger, n: nat, rejected: seq<Handle>, submitted: seq<bool>, accepted: seq<bool>, tried: bool, ok: bool)
    requires n < |entries| && Submitting(rules, open, armed, now, before, entries, births, start, n, rejected, submitted, accepted)
    requires Distinct(before + entries)
    requires (tried <==> !(Chained(Created(births), n) && !accepted[n - 1])) && (ok ==> tried)
    ensures ok ==> Submitting(rules, open, armed + {entries[n]}, LedgerAfter(now, entries[n], tried, ok), before, entries, births, start, n + 1,
                              rejected, submitted + [tried], accepted + [ok])
    ensures !ok ==> Submitting(rules[|before| + n := NULL], open - {entries[n]}, armed, LedgerAfter(now, entries[n], tried, ok),
                               before, entries, births, start, n + 1,
                               rejected + [entries[n]], submitted + [tried], accepted + [ok])
  {
    SlotsShift(before, entries, accepted, n, ok);
    SubmittedStep(open, armed, before, entries, accepted, n, ok);
    RejectedExtends(entries, accepted, n, rejected, ok);
    SubmissionExtends(Created(births), submitted, accepted, n, tried, ok);
    SentExtends(entries, n, submitted, accepted, now, start, tried, ok);
  }

  /** Before a turn: the entry is in its slot, open and not armed; the recorded anchor tells a
      refused chain; and otherwise the predecessor that the rule names is armed. */
  lemma SubmittingEntry(
    rules: seq<Handle>, open: set<Handle>, armed: set<Handle>, now: Ledger, before: seq<Handle>, entries: seq<Handle>,
    births: seq<Birth>, start: Ledger, n: nat, rejected: seq<Handle>, submitted: seq<bool>, accepted: seq<bool>,
    anchors: seq<Handle>, asked: map<Handle, Descriptor>)
    requires n < |entries| && Submitting(rules, open, armed, now, before, entries, births, start, n, rejected, submitted, accepted)
    requires Prepared(before, births, entries, anchors, asked)
    ensures |before| + n < |rules| && rules[|before| + n] == entries[n] && entries[n] in open && entries[n] !in armed
    ensures anchors[n] != NULL && anchors[n] in rejected <==> Chained(Created(births), n) && !accepted[n - 1]
    ensures entries[n] in asked
    ensures !(anchors[n] != NULL && anchors[n] in rejected) ==>
      (asked[entries[n]].subrules.Predecessor? ==> asked[entries[n]].subrules.handle in armed)
  {
    assert SubruleNamesPredecessor(births, before, n);
    SlotsShift(before, entries, accepted, n, true);
    SubmittedStep(open, armed, before, entries, accepted, n, true);
    DistinctParts(before, entries);
    AnchorRejected(births, entries, anchors, accepted, n, rejected);
    if n > 0 && accepted[n - 1] {
      assert entries[..n][n - 1] == entries[n - 1];
    }
  }

  lemma SubmittingEnds(
    rules: seq<Handle>, open: set<Handle>, armed: set<Handle>, now: Ledger, before: seq<Handle>, entries: seq<Handle>,
    births: seq<Birth>, start: Ledger, rejected: seq<Handle>, submitted: seq<bool>, accepted: seq<bool>)
    requires Submitting(rules, open, armed, now, before, entries, births, start, |entries|, rejected, submitted, accepted)
    ensures SubmissionsFollow(Created(births), submitted, accepted)
    ensures rules == before + Slots(entries, accepted)
    ensures SubmittedSoFar(open, armed, before, entries, accepted, |entries|)
    ensures now.updates == start.updates + Updates(entries, submitted, accepted)
    ensures now.log == start.log + Closings(Dropped(entries, accepted))
  {
    assert Created(births)[..|entries|] == Created(births) && entries[..|entries|] == entries;
  }

  /** The subrule array of an entry names nothing, or the rule just before it. */
  ghost predicate SubruleNamesPredecessor(births: seq<Birth>, before: seq<Handle>, n: nat)
    requires n < |Created(births)|
  {
    var d := Created(births)[n].asked;
    d.Some? && (d.value.subrules.Predecessor? ==>
      if n == 0 then d.value.subrules.handle in before
      else Chained(Created(births), n) && d.value.subrules.handle == Handles(births)[n - 1])
  }

  /** What the submit loop knows of the rules that were built. */
  ghost predicate Prepared(
    before: seq<Handle>, births: seq<Birth>, entries: seq<Handle>, anchors: seq<Handle>, asked: map<Handle, Descriptor>)
  {
    && Distinct(before + entries) && Anchored(births, entries, anchors) && AskedAs(asked, births)
    && forall n :: 0 <= n < |Created(births)| ==> SubruleNamesPredecessor(births, before, n)
  }

  lemma PreparedByTurns(
    specs: seq<RuleSpec>, compat: bool, works: bool, queue: Handle, before: seq<Handle>,
    history: seq<Memory>, births: seq<Birth>)
    requires Turns(specs, compat, works, queue, before, history, births) && |births| == |specs|
    requires Distinct(before + Handles(births))
    ensures Prepared(before, births, Handles(births), AnchorsOf(births), history[|specs|].asked)
  {
    var n := |specs|;
    assert births[..n] == births;
    TurnsBirths(specs, compat, works, queue, before, history, births);
    TurnsAnchored(specs, compat, works, queue, before, history, births, n);
    TurnsAskedAs(specs, compat, works, queue, before, history, births, n);
    forall k | 0 <= k < |Created(births)| ensures SubruleNamesPredecessor(births, before, k) {
      SubrulesOfCreated(specs, compat, works, queue, before, births, k);
    }
  }

  /** What an install comes to, over what the driver and the session remember before and after. */
  ghost predicate Installed(
    specs: seq<RuleSpec>, compat: bool, works: bool, queue: Handle, before: seq<Handle>, m: Memory,
    births: seq<Birth>, submitted: seq<bool>, accepted: seq<bool>, rules: seq<Handle>, m': Memory, status: InstallStatus)
  {
    && BirthsFollow(specs, compat, works, queue, before, births)
    && SubmissionsFollow(Created(births), submitted, accepted)
    && Distinct(before + Handles(births))
    && rules == before + Kept(Handles(births), accepted)
    && status == StatusOf(|specs|, accepted)
    && AskedAs(m'.asked, births) && AllMeant(specs, births, m'.filters, m'.built)
    && m'.ledger == LedgerAfterInstall(m.ledger, births, submitted, accepted)
  }

  /** The driver was asked for one creation for each descriptor, it refused the calls that the
      births tell of, it was sent the submissions, and the log of rules grew by an opening for each
      created rule and then a closing for each that was not accepted. */
  function LedgerAfterInstall(l: Ledger, births: seq<Birth>, submitted: seq<bool>, accepted: seq<bool>): Ledger
    requires |submitted| == |accepted| == |Handles(births)|
  {
    Ledger(l.creations + Creations(births), l.refusals + Refused(births),
           l.updates + Updates(Handles(births), submitted, accepted),
           l.log + Openings(Handles(births)) + Closings(Dropped(Handles(births), accepted)))
  }

  /** The memory after the submissions: each that was made, and a closing for each refused rule. */
  function Armed(m: Memory, entries: seq<Handle>, submitted: seq<bool>, accepted: seq<bool>): Memory
    requires |submitted| == |accepted| == |entries|
  {
    m.(ledger := m.ledger.(updates := m.ledger.updates + Updates(entries, submitted, accepted),
                           log := m.ledger.log + Closings(Dropped(entries, accepted))))
  }

  lemma InstalledByTurns(
    specs: seq<RuleSpec>, compat: bool, works: bool, queue: Handle, before: seq<Handle>,
    history: seq<Memory>, births: seq<Birth>, submitted: seq<bool>, accepted: seq<bool>,
    rules: seq<Handle>, m': Memory, status: InstallStatus)
    requires Turns(specs, compat, works, queue, before, history, births) && |births| == |specs|
    requires Distinct(before + Handles(births)) && SubmissionsFollow(Created(births), submitted, accepted)
    requires rules == before + Kept(Handles(births), accepted) && status == StatusOf(|specs|, accepted)
    requires m' == Armed(history[|specs|], Handles(births), submitted, accepted)
    ensures Installed(specs, compat, works, queue, before, history[0], births, submitted, accepted, rules, m', status)
  {
    AllTurnsRecord(specs, compat, works, queue, before, history, births);
  }

  /** The anchors recorded beside the entries. */
  predicate Anchored(births: seq<Birth>, entries: seq<Handle>, anchors: seq<Handle>) {
    entries == Handles(births) && |anchors| == |entries| &&
    forall k :: 0 <= k < |entries| ==> anchors[k] == if Chained(Created(births), k) then entries[k - 1] else NULL
  }

  /** What is kept after `k` slots, a gap of stale slots, and the unread slots. */
  function Layout(before: seq<Handle>, gap: seq<Handle>, slots: seq<Handle>, k: nat): seq<Handle>
    requires k <= |slots|
  {
    before + NonNull(slots[..k]) + gap + slots[k..]
  }

  /** The state of the compaction after `k` slots. */
  ghost predicate Compacting(rules: seq<Handle>, before: seq<Handle>, gap: seq<Handle>, slots: seq<Handle>, k: nat) {
    k <= |slots| && |NonNull(slots[..k])| + |gap| == k && rules == Layout(before, gap, slots, k)
  }

  lemma CompactingStep(rules: seq<Handle>, before: seq<Handle>, gap: seq<Handle>, slots: seq<Handle>, k: nat)
    requires k < |slots| && Compacting(rules, before, gap, slots, k)
    ensures var read, write := |before| + k, |before| + |NonNull(slots[..k])|;
      read < |rules| && write <= read && rules[read] == slots[k] &&
      |before| + |NonNull(slots[..k + 1])| == (if slots[k] == NULL then write else write + 1) &&
      Compacting(
        if slots[k] == NULL || write == read then rules else rules[write := slots[k]],
        before,
        if slots[k] == NULL then gap + [NULL] else if gap == [] then [] else gap[1..] + [slots[k]],
        slots, k + 1)
  {
    var kept := NonNull(slots[..k]);
    assert slots[k..] == [slots[k]] + slots[k + 1..];
    assert slots[..k + 1][..k] == slots[..k];
    if slots[k] != NULL && gap != [] {
      assert rules[|before| + |kept| := slots[k]] == before + (kept + [slots[k]]) + (gap[1..] + [slots[k]]) + slots[k + 1..];
    } else if slots[k] != NULL {
      assert rules == before + (kept + [slots[k]]) + [] + slots[k + 1..];
    } else {
      assert rules == before + kept + (gap + [NULL]) + slots[k + 1..];
    }
  }

  lemma NothingCreated(births: seq<Birth>, rules: nat)
    requires Handles(births) == []
    ensures SubmissionsFollow(Created(births), [], []) && Kept(Handles(births), []) == [] && StatusOf(rules, []) == Failed
  {}

  lemma StatusFromCounts(rules: nat, entries: seq<Handle>, accepted: seq<bool>)
    requires |entries| == |accepted| && entries != []
    ensures StatusOf(rules, accepted) == if Accepted(accepted) == 0 then Failed
                                         else if |entries| == rules && Accepted(accepted) == |accepted| then Complete
                                         else Partial
  {
    AcceptedNoneOrAll(accepted);
  }

  lemma {:induction false} DroppedIsDistinct(handles: seq<Handle>, accepted: seq<bool>)
    requires |handles| == |accepted| && Distinct(handles)
    ensures Distinct(Dropped(handles, accepted))
    ensures Elements(Dropped(handles, accepted)) == Elements(handles) - Elements(Kept(handles, accepted))
  {
    if handles != [] {
      var n := |handles| - 1;
      var h, front, oks := handles[n], handles[..n], accepted[..n];
      assert handles == front + [h];
      DistinctParts(front, [h]);
      ElementsJoin(front, [h]);
      ElementsOne(h);
      DroppedIsDistinct(front, oks);
      KeptIsDistinct(front, oks);
      DistinctParts(Dropped(front, oks), [h]);
      ElementsJoin(Dropped(front, oks), [h]);
      ElementsJoin(Kept(front, oks), [h]);
    }
  }

  /** What an install adds to the log: afterwards the rules of before and the accepted ones are
      open, and every other created rule was opened and closed once. */
  lemma InstallReplays(log: seq<HandleEvent>, before: seq<Handle>, handles: seq<Handle>, accepted: seq<bool>)
    requires |handles| == |accepted| && NULL !in handles && Distinct(before + handles)
    requires Replay(log) == Some(Elements(before))
    ensures Replay(log + Openings(handles) + Closings(Dropped(handles, accepted)))
            == Some(Elements(before + Kept(handles, accepted)))
  {
    var kept, dropped := Kept(handles, accepted), Dropped(handles, accepted);
    DistinctParts(before, handles);
    ElementsJoin(before, handles);
    ElementsJoin(before, kept);
    ReplayOpenings(log, before, handles);
    DroppedIsDistinct(handles, accepted);
    KeptIsDistinct(handles, accepted);
    ReplayClosings(log + Openings(handles), Elements(before + handles), dropped);
    assert Elements(before + handles) - Elements(dropped) == Elements(before + kept);
  }
}
