/** The rule install engine on paper (esptool/src/esp/EspRuleInstall.cpp): what `InstallRules` asks
    the driver, which rules are built on which predecessor, and what the driver's answers lead to.

    A run is described by its births (one per rule of the document: was its filter built, what was
    the driver asked, which handle came back) and by the submissions (one per created rule: was it
    submitted, was it accepted). `BirthsFollow` and `SubmissionsFollow` are the installer's part;
    everything they leave open is the driver's. */
module EspRuleInstall {
  import opened Wrappers
  import opened StrHelpers
  import opened RuleDocument
  import opened EspRuleAbi
  import opened EspFilterBuild
  import opened EspFilterAttach

  type Handle = int
  const NULL: Handle := 0

  // ---------------------------------------------------------------- descriptors

  /** The low word at +1112: a queue handle, or the disposition of an enforcing rule. */
  datatype QueueSlot = NoQueue | QueueHandle(handle: Handle) | Disposition(code: uint32)

  /** The subrule array of selector 7; the other selectors have none. */
  datatype Subrules = NoArray | EmptyArray | Predecessor(handle: Handle)

  datatype Descriptor = Descriptor(
    eventType: uint32, lifetime: uint32, flags: uint32, selector: uint32,
    modifyKind: uint32, modifySize: uint32, queue: QueueSlot, subrules: Subrules, filters: map<Place, Handle>)

  datatype InstallStatus = Failed | Partial | Complete

  /** Why a rule is refused before the driver is asked. */
  datatype Refusal = SelectorConflict | NeedsCompat | PatchUnavailable | NoModifyKind | NotEnforceable

  function NamedOf(spec: RuleSpec): uint32 {
    NamedSelector(spec.action, spec.actionName)
  }

  function SelectorOf(spec: RuleSpec): uint32 {
    ResolvedSelector(spec.action, spec.actionName, spec.selectorOverride)
  }

  predicate NeedsQueue(rules: seq<RuleSpec>) {
    exists k :: 0 <= k < |rules| && ResolvedActionNeedsQueue(rules[k].action, rules[k].actionName, rules[k].selectorOverride)
  }

  /** The selector of a rule: overridden, or named, or its number cut to 32 bits, with 0 for 1. */
  lemma SelectorSays(spec: RuleSpec)
    ensures SelectorOf(spec) as int ==
      if spec.selectorOverride.Some? then spec.selectorOverride.value as int
      else if spec.actionName == "deny" then 5
      else if spec.actionName == "suppress" then 4
      else if spec.action == 0 then 1
      else spec.action as int % 0x1_0000_0000
  {}

  /** A queue is needed exactly if some rule has selector 1. */
  lemma QueueNeededExactlyWhen(rules: seq<RuleSpec>)
    ensures NeedsQueue(rules) <==> exists k :: 0 <= k < |rules| && SelectorOf(rules[k]) == 1
  {
    assert forall k :: 0 <= k < |rules| ==>
      (SelectorOf(rules[k]) == 1 <==>
       ResolvedActionNeedsQueue(rules[k].action, rules[k].actionName, rules[k].selectorOverride));
  }

  predicate NeedsPatch(spec: RuleSpec) {
    SelectorOf(spec) == ACTION_REWRITE && IsEnforceCompatEvent(spec.eventType)
  }

  predicate RequiresCompat(rules: seq<RuleSpec>) {
    exists k :: 0 <= k < |rules| && NeedsPatch(rules[k])
  }

  /** The patch is required exactly if some rule has selector 5 and an event type whose enforcement
      the client does not build by itself. */
  lemma PatchRequiredExactlyWhen(rules: seq<RuleSpec>)
    ensures RequiresCompat(rules) <==>
      exists k :: 0 <= k < |rules| && SelectorOf(rules[k]) == 5 && IsEnforceCompatEvent(rules[k].eventType)
  {
    assert forall k :: 0 <= k < |rules| ==>
      (NeedsPatch(rules[k]) <==> SelectorOf(rules[k]) == 5 && IsEnforceCompatEvent(rules[k].eventType));
  }

  method DocumentRequiresEnforceCompat(rules: seq<RuleSpec>) returns (r: bool)
    ensures r <==> RequiresCompat(rules)
  {
    for i := 0 to |rules|
      invariant forall k :: 0 <= k < i ==> !NeedsPatch(rules[k])
    {
      if SelectorOf(rules[i]) == ACTION_REWRITE && IsEnforceCompatEvent(rules[i].eventType) {
        assert NeedsPatch(rules[i]);
        return true;
      }
    }
    return false;
  }

  /** The modify kind of an enforcing rule, or why it cannot be installed. */
  function EnforceKind(eventType: uint32, compat: bool, patchWorks: bool): Result<uint32, Refusal> {
    if IsEnforceCompatEvent(eventType) then
      if !compat then Failure(NeedsCompat)
      else if !patchWorks then Failure(PatchUnavailable)
      else Success(MODIFY_KIND_FO_CREATE)
    else if EventModifyKind(eventType) == 0 then Failure(NoModifyKind)
    else if !SupportsEnforcePayload(eventType) then Failure(NotEnforceable)
    else Success(EventModifyKind(eventType))
  }

  /** A descriptor before its action is filled in. */
  function BaseOf(spec: RuleSpec): Descriptor {
    var lifetime := if spec.modifierOverride.Some? then spec.modifierOverride.value
                    else if spec.persistent then LIFETIME_PERSIST else LIFETIME_TRANSIENT;
    Descriptor(spec.eventType, lifetime, spec.flags, SelectorOf(spec), 0, 0, NoQueue, NoArray, map[])
  }

  /** The enforcing selector: its modify kind, and a disposition in the place of a queue. */
  function Enforcing(base: Descriptor, spec: RuleSpec, kind: uint32): Descriptor {
    var code := if spec.modifyKindOverride.Some? then spec.modifyKindOverride.value else kind;
    base.(modifyKind := kind, modifySize := MODIFY_ACCESS_MASK_BYTES, queue := Disposition(code))
  }

  /** The selectors without a payload of their own. */
  function Routed(base: Descriptor, queue: Handle, predecessor: Handle): Descriptor {
    if base.selector == ACTION_MATCH_SUBRULES then
      base.(subrules := if predecessor == NULL then EmptyArray else Predecessor(predecessor))
    else if base.selector == ACTION_QUEUE_BACKED then base.(queue := QueueHandle(queue))
    else base
  }

  /** The descriptor of one rule, given the queue and the last rule before it (or NULL). */
  function Describe(spec: RuleSpec, compat: bool, patchWorks: bool, queue: Handle, predecessor: Handle)
    : Result<Descriptor, Refusal>
  {
    if spec.actionName != "" && spec.selectorOverride.Some? && spec.selectorOverride.value != NamedOf(spec) then
      Failure(SelectorConflict)
    else if SelectorOf(spec) == ACTION_REWRITE then
      var kind := EnforceKind(spec.eventType, compat, patchWorks);
      if kind.Failure? then Failure(kind.error) else Success(Enforcing(BaseOf(spec), spec, kind.value))
    else Success(Routed(BaseOf(spec), queue, predecessor))
  }

  // ---------------------------------------------------------------- births

  /** What happened to one rule of the document before any submission. A rule that was not
      created has the NULL handle. */
  datatype Birth = Birth(
    filterBuilt: bool, filter: Handle, image: Handle, refused: nat, asked: Option<Descriptor>, handle: Handle)

  function Handles(births: seq<Birth>): seq<Handle> {
    if births == [] then []
    else
      var front := Handles(births[..|births| - 1]);
      var last := births[|births| - 1];
      if last.handle == NULL then front else front + [last.handle]
  }

  function Created(births: seq<Birth>): (r: seq<Birth>)
    ensures |r| == |Handles(births)| && |r| <= |births|
    ensures forall k :: 0 <= k < |r| ==> r[k].handle == Handles(births)[k] != NULL && r[k] in births
  {
    if births == [] then []
    else
      var front := Created(births[..|births| - 1]);
      var last := births[|births| - 1];
      if last.handle == NULL then front else front + [last]
  }

  /** The rule a new rule follows in the session, or NULL for the first. */
  function LastOf(rules: seq<Handle>): Handle {
    if rules == [] then NULL else rules[|rules| - 1]
  }

  /** A rule whose filter the session gets built unless the driver refuses a call. */
  predicate Filterable(spec: RuleSpec) {
    spec.eventType != 0 && (IsEmptyFilter(spec.filter) || Buildable(spec.filter))
  }

  /** A descriptor with a filter in one of its slots; a rule without a filter leaves it empty. */
  function WithFilter(d: Descriptor, place: Place, filter: Handle): Descriptor {
    if filter == NULL then d else d.(filters := d.filters[place := filter])
  }

  /** The filters a descriptor carries: the rule's own, and the image-file filter if it got one. */
  function Attached(spec: RuleSpec, filter: Handle, image: Handle): map<Place, Handle> {
    (if filter == NULL then map[] else map p | p in OwnPlaces(spec) :: filter)
    + (if image == NULL then map[] else map[ImageFileFilter := image])
  }

  /** A rule for which an image-file filter is asked for. */
  predicate AsksForImage(spec: RuleSpec) {
    WantsImageFilter(spec) && LeafCallable(ImageFields(spec.filter.fields))
  }

  /** That is every process-create rule over one process leaf; the filter it asks for can always be
      called. And a rule has no filter of its own exactly if its tree is a leaf without a type. */
  lemma FiltersAskedExactlyWhen(spec: RuleSpec)
    ensures AsksForImage(spec) <==> spec.eventType == 1000 && spec.filter.Leaf? && spec.filter.fields.ctor == 10
    ensures IsEmptyFilter(spec.filter) <==> spec.filter.Leaf? && spec.filter.fields.ctor == 0
  {}

  /** How the filters of a birth came about: each was built unless the driver refused one call. */
  predicate FiltersFollow(spec: RuleSpec, b: Birth) {
    && (b.filterBuilt ==> Filterable(spec))
    && (b.filter != NULL <==> b.filterBuilt && !IsEmptyFilter(spec.filter))
    && (b.image != NULL ==> b.asked.Some? && AsksForImage(spec))
    && b.refused <= 1 && (spec.eventType == 0 ==> b.refused == 0)
    && (Filterable(spec) && !b.filterBuilt ==> b.refused == 1)
    && (b.filterBuilt ==> (b.refused == 1 <==> b.asked.Some? && AsksForImage(spec) && b.image == NULL))
  }

  /** The installer's part in one birth. */
  predicate BirthFollows(spec: RuleSpec, compat: bool, patchWorks: bool, queue: Handle, predecessor: Handle, b: Birth) {
    var described := Describe(spec, compat, patchWorks, queue, predecessor);
    && FiltersFollow(spec, b)
    && b.asked == (if spec.eventType == 0 || !b.filterBuilt || described.Failure? then None
                   else Some(described.value.(filters := Attached(spec, b.filter, b.image))))
    && (b.handle != NULL ==> b.asked.Some?)
  }

  predicate BirthsFollow(rules: seq<RuleSpec>, compat: bool, patchWorks: bool, queue: Handle, before: seq<Handle>, births: seq<Birth>) {
    |births| == |rules| &&
    forall k :: 0 <= k < |rules| ==>
      BirthFollows(rules[k], compat, patchWorks, queue, LastOf(before + Handles(births[..k])), births[k])
  }

  /** A rule that the driver was asked to create, and its answer. */
  datatype Creation = Creation(asked: Descriptor, handle: Handle)

  /** What a run asks the driver to create. */
  function Creations(births: seq<Birth>): seq<Creation> {
    if births == [] then []
    else
      var last := births[|births| - 1];
      Creations(births[..|births| - 1]) + CreationOf(last)
  }

  function CreationOf(b: Birth): seq<Creation> {
    if b.asked.Some? then [Creation(b.asked.value, b.handle)] else []
  }

  /** Every rule that could be given a filter was. */
  predicate AllFiltered(rules: seq<RuleSpec>, births: seq<Birth>) {
    |births| == |rules| && forall k :: 0 <= k < |rules| ==> births[k].filterBuilt == Filterable(rules[k])
  }

  /** How many calls the driver refused while the filters of these births were built. */
  function Refused(births: seq<Birth>): nat {
    if births == [] then 0 else Refused(births[..|births| - 1]) + births[|births| - 1].refused
  }

  /** A rule goes without a filter that it could have only at the cost of a refused call of its own:
      there are at most as many such rules as refused calls, and none if no call was refused. */
  lemma MissingFiltersWereRefused(
    rules: seq<RuleSpec>, compat: bool, patchWorks: bool, queue: Handle, before: seq<Handle>, births: seq<Birth>)
    requires BirthsFollow(rules, compat, patchWorks, queue, before, births)
    ensures Missed(rules, births) <= Refused(births)
    ensures Refused(births) == 0 ==> AllFiltered(rules, births)
  {
    forall k | 0 <= k < |rules| ensures FiltersFollow(rules[k], births[k]) {
      assert BirthFollows(rules[k], compat, patchWorks, queue, LastOf(before + Handles(births[..k])), births[k]);
    }
    MissedAtMostRefused(rules, births);
  }

  lemma {:induction false} MissedAtMostRefused(rules: seq<RuleSpec>, births: seq<Birth>)
    requires |births| == |rules| && forall k :: 0 <= k < |rules| ==> FiltersFollow(rules[k], births[k])
    ensures Missed(rules, births) <= Refused(births)
    ensures Refused(births) == 0 ==> AllFiltered(rules, births)
  {
    if rules != [] {
      var n := |rules| - 1;
      MissedAtMostRefused(rules[..n], births[..n]);
      assert FiltersFollow(rules[n], births[n]);
      if Refused(births) == 0 {
        forall k | 0 <= k < |rules| ensures births[k].filterBuilt == Filterable(rules[k]) {
          assert k < n ==> births[..n][k].filterBuilt == Filterable(rules[..n][k]);
        }
      }
    }
  }

  function Missed(rules: seq<RuleSpec>, births: seq<Birth>): nat
    requires |births| == |rules|
  {
    if rules == [] then 0
    else
      var n := |rules| - 1;
      Missed(rules[..n], births[..n]) + (if Filterable(rules[n]) && !births[n].filterBuilt then 1 else 0)
  }

  /** What the filters of a birth stand for. */
  predicate Meant(spec: RuleSpec, b: Birth, listed: seq<Handle>, built: map<Handle, DriverFilter>) {
    && (b.filter != NULL ==>
          Buildable(spec.filter) && b.filter in listed && b.filter in built && built[b.filter] == Compiled(spec.filter))
    && (b.image != NULL ==>
          AsksForImage(spec) && b.image in listed && b.image in built
          && built[b.image] == Typed(CallOf(ImageFields(spec.filter.fields))))
  }

  predicate AllMeant(rules: seq<RuleSpec>, births: seq<Birth>, listed: seq<Handle>, built: map<Handle, DriverFilter>) {
    |births| == |rules| && forall k :: 0 <= k < |rules| ==> Meant(rules[k], births[k], listed, built)
  }

  /** A created rule carries its filter in every slot that its event type has for it, and the
      object there matches exactly when the tree, cut to the children that are sent, holds. A
      rule without such a slot carries at most the image-file filter. */
  lemma RuleCarriesItsFilter(
    rules: seq<RuleSpec>, compat: bool, patchWorks: bool, queue: Handle, before: seq<Handle>, births: seq<Birth>,
    listed: seq<Handle>, built: map<Handle, DriverFilter>, k: nat)
    requires BirthsFollow(rules, compat, patchWorks, queue, before, births) && AllMeant(rules, births, listed, built)
    requires k < |births| && births[k].asked.Some? && !IsEmptyFilter(rules[k].filter)
    ensures var filters := births[k].asked.value.filters;
      && Buildable(rules[k].filter)
      && (forall p :: p in OwnPlaces(rules[k]) ==>
            p in filters && filters[p] in built
            && forall v: Valuation :: Matches(built[filters[p]], v) == Holds(Cut(rules[k].filter), v))
      && (forall p :: p in filters ==> p in OwnPlaces(rules[k]) || (p == ImageFileFilter && AsksForImage(rules[k])))
  {
    var spec, b := rules[k], births[k];
    assert BirthFollows(spec, compat, patchWorks, queue, LastOf(before + Handles(births[..k])), b);
    assert Meant(spec, b, listed, built);
    forall v: Valuation ensures Matches(Compiled(spec.filter), v) == Holds(Cut(spec.filter), v) {
      CompiledMeansCut(spec.filter, v);
    }
    if b.image != NULL {
      ProcessCreateCarriesNone(spec);
    }
  }

  // ---------------------------------------------------------------- submissions

  /** A rule that was submitted to the driver, and its answer. */
  datatype Update = Update(handle: Handle, accepted: bool)

  /** What a run submits: one rule at a time, in order. */
  function Updates(handles: seq<Handle>, submitted: seq<bool>, accepted: seq<bool>): seq<Update>
    requires |handles| == |submitted| == |accepted|
  {
    if handles == [] then []
    else
      var n := |handles| - 1;
      Updates(handles[..n], submitted[..n], accepted[..n])
      + UpdateOf(handles[n], submitted[n], accepted[n])
  }

  function UpdateOf(h: Handle, submitted: bool, accepted: bool): seq<Update> {
    if submitted then [Update(h, accepted)] else []
  }

  /** A created rule whose subrule array was built over the rule created just before it. */
  predicate Chained(created: seq<Birth>, k: nat)
    requires k < |created|
  {
    k > 0 && created[k].asked.Some? && created[k].asked.value.selector == ACTION_MATCH_SUBRULES
  }

  /** A rule is submitted unless its predecessor in the chain was refused; only a submitted rule
      can be accepted. */
  predicate SubmissionsFollow(created: seq<Birth>, submitted: seq<bool>, accepted: seq<bool>) {
    |submitted| == |created| && |accepted| == |created| &&
    forall k :: 0 <= k < |created| ==> SubmissionFollows(created, submitted, accepted, k)
  }

  predicate SubmissionFollows(created: seq<Birth>, submitted: seq<bool>, accepted: seq<bool>, k: nat)
    requires k < |created| == |submitted| == |accepted|
  {
    (submitted[k] <==> !(Chained(created, k) && !accepted[k - 1])) && (accepted[k] ==> submitted[k])
  }

  /** The handles of the accepted rules, in document order. */
  function Kept(handles: seq<Handle>, accepted: seq<bool>): (r: seq<Handle>)
    requires |handles| == |accepted|
    ensures |r| <= |handles|
    ensures forall h :: h in r <==> exists k :: 0 <= k < |handles| && accepted[k] && handles[k] == h
  {
    if handles == [] then []
    else
      var n := |handles| - 1;
      var front := Kept(handles[..n], accepted[..n]);
      if accepted[n] then front + [handles[n]] else front
  }

  /** The handles of the rules that were not accepted, in document order. */
  function Dropped(handles: seq<Handle>, accepted: seq<bool>): seq<Handle>
    requires |handles| == |accepted|
  {
    if handles == [] then []
    else
      var n := |handles| - 1;
      var front := Dropped(handles[..n], accepted[..n]);
      if accepted[n] then front else front + [handles[n]]
  }

  /** Every created rule is kept or dropped, once. */
  lemma {:induction false} KeptOrDropped(handles: seq<Handle>, accepted: seq<bool>)
    requires |handles| == |accepted|
    ensures multiset(Kept(handles, accepted)) + multiset(Dropped(handles, accepted)) == multiset(handles)
  {
    if handles != [] {
      var n := |handles| - 1;
      KeptOrDropped(handles[..n], accepted[..n]);
      assert handles == handles[..n] + [handles[n]];
    }
  }

  function StatusOf(rules: nat, accepted: seq<bool>): InstallStatus {
    if forall k :: 0 <= k < |accepted| ==> !accepted[k] then Failed
    else if |accepted| == rules && forall k :: 0 <= k < |accepted| ==> accepted[k] then Complete
    else Partial
  }

  // ---------------------------------------------------------------- what follows

  /** The birth of the k-th created rule: the handles created before it are the first k. */
  lemma {:induction false} BirthOfCreated(births: seq<Birth>, k: nat) returns (i: nat)
    requires k < |Created(births)|
    ensures i < |births| && births[i] == Created(births)[k] && Handles(births[..i]) == Handles(births)[..k]
  {
    var n := |births| - 1;
    if births[n].handle != NULL && k == |Created(births)| - 1 {
      i := n;
    } else {
      i := BirthOfCreated(births[..n], k);
      assert births[..n][..i] == births[..i];
    }
  }

  lemma ArrayNamesPredecessor(spec: RuleSpec, compat: bool, patchWorks: bool, queue: Handle, predecessor: Handle)
    ensures var d := Describe(spec, compat, patchWorks, queue, predecessor);
            d.Success? && d.value.subrules.Predecessor? ==>
              d.value.selector == ACTION_MATCH_SUBRULES && d.value.subrules.handle == predecessor != NULL
  {}

  lemma LastCreated(before: seq<Handle>, handles: seq<Handle>, k: nat)
    requires k <= |handles|
    ensures k > 0 ==> LastOf(before + handles[..k]) == handles[k - 1]
    ensures k == 0 ==> LastOf(before + handles[..k]) == LastOf(before)
  {
    assert k == 0 ==> before + handles[..k] == before;
  }

  /** The subrule array of a created rule is empty, or names the rule created just before it, or
      for the first created rule the last rule of the session. */
  lemma SubrulesOfCreated(
    rules: seq<RuleSpec>, compat: bool, patchWorks: bool, queue: Handle, before: seq<Handle>, births: seq<Birth>, k: nat)
    requires BirthsFollow(rules, compat, patchWorks, queue, before, births) && k < |Created(births)|
    ensures var d := Created(births)[k].asked;
            d.Some? && (d.value.subrules.Predecessor? ==>
              if k == 0 then d.value.subrules.handle in before
              else Chained(Created(births), k) && d.value.subrules.handle == Handles(births)[k - 1])
  {
    var i := BirthOfCreated(births, k);
    var predecessor := LastOf(before + Handles(births)[..k]);
    assert BirthFollows(rules[i], compat, patchWorks, queue, predecessor, births[i]);
    ArrayNamesPredecessor(rules[i], compat, patchWorks, queue, predecessor);
    LastCreated(before, Handles(births), k);
  }

  /** No rule is armed over a dead predecessor: a submitted selector-7 rule has an empty array, or
      names a rule that was in the session before, or the rule created just before it, which
      the driver has already accepted. */
  lemma NoRuleOverDeadPredecessor(
    rules: seq<RuleSpec>, compat: bool, patchWorks: bool, queue: Handle, before: seq<Handle>,
    births: seq<Birth>, submitted: seq<bool>, accepted: seq<bool>, k: nat)
    requires BirthsFollow(rules, compat, patchWorks, queue, before, births)
    requires SubmissionsFollow(Created(births), submitted, accepted)
    requires k < |Created(births)| && submitted[k]
    ensures var d := Created(births)[k].asked;
            d.Some? && (d.value.subrules.Predecessor? ==>
              if k == 0 then d.value.subrules.handle in before
              else d.value.subrules.handle == Handles(births)[k - 1] && accepted[k - 1])
  {
    SubrulesOfCreated(rules, compat, patchWorks, queue, before, births, k);
    assert SubmissionFollows(Created(births), submitted, accepted, k);
  }

  /** And nothing else is held back: a created rule is submitted unless it is chained to the one
      created just before it and that one was not accepted. */
  lemma SubmittedExactlyWhen(created: seq<Birth>, submitted: seq<bool>, accepted: seq<bool>, k: nat)
    requires SubmissionsFollow(created, submitted, accepted) && k < |created| && created[k].asked.Some?
    ensures submitted[k] <==> k == 0 || created[k].asked.value.selector != 7 || accepted[k - 1]
    ensures accepted[k] ==> submitted[k]
  {
    assert SubmissionFollows(created, submitted, accepted, k);
  }

  /** One refusal refuses the whole chain of selector-7 rules built on it. */
  lemma {:induction false} RefusalRefusesChain(created: seq<Birth>, submitted: seq<bool>, accepted: seq<bool>, i: nat, j: nat)
    requires SubmissionsFollow(created, submitted, accepted)
    requires i < j < |created| && !accepted[i]
    requires forall k :: i < k <= j ==> Chained(created, k)
    ensures !submitted[j] && !accepted[j]
  {
    if i + 1 < j {
      RefusalRefusesChain(created, submitted, accepted, i, j - 1);
    }
    assert Chained(created, j) && SubmissionFollows(created, submitted, accepted, j);
  }

  /** Every enforcing rule that reaches the driver carries kind 3, size 16 and a disposition
      instead of a queue; every queue-backed one carries the session's queue. */
  lemma DescriptorsAreComplete(
    rules: seq<RuleSpec>, compat: bool, patchWorks: bool, queue: Handle, before: seq<Handle>, births: seq<Birth>, k: nat)
    requires BirthsFollow(rules, compat, patchWorks, queue, before, births) && k < |births| && births[k].asked.Some?
    requires NeedsQueue(rules) ==> queue != NULL
    ensures var d := births[k].asked.value;
            (d.selector == ACTION_REWRITE ==>
               d.modifyKind == MODIFY_KIND_FO_CREATE && d.modifySize == MODIFY_ACCESS_MASK_BYTES && d.queue.Disposition?)
            && (d.selector == ACTION_QUEUE_BACKED ==> d.queue.QueueHandle? && d.queue.handle != NULL)
            && (d.selector != ACTION_REWRITE ==> d.modifyKind == 0 && d.modifySize == 0 && !d.queue.Disposition?)
  {
    assert BirthFollows(rules[k], compat, patchWorks, queue, LastOf(before + Handles(births[..k])), births[k]);
    EnforceCompatSet(rules[k].eventType);
    if SelectorOf(rules[k]) == ACTION_QUEUE_BACKED {
      assert ResolvedActionNeedsQueue(rules[k].action, rules[k].actionName, rules[k].selectorOverride);
    }
  }

  /** The fields that do not depend on the selector: the lifetime is 3 for a persistent and 1 for a
      transient rule, unless overridden. */
  lemma BaseSays(s: RuleSpec, d: Descriptor)
    requires d == BaseOf(s)
    ensures d.eventType == s.eventType && d.flags == s.flags && d.selector == SelectorOf(s)
    ensures d.lifetime == if s.modifierOverride.Some? then s.modifierOverride.value else if s.persistent then 3 else 1
    ensures d.modifyKind == 0 && d.modifySize == 0 && d.queue == NoQueue && d.subrules == NoArray
  {}

  lemma EnforcingSays(s: RuleSpec, compat: bool, patchWorks: bool, queue: Handle, predecessor: Handle)
    requires SelectorOf(s) == 5 && Describe(s, compat, patchWorks, queue, predecessor).Success?
    ensures var code := if s.modifyKindOverride.Some? then s.modifyKindOverride.value else 3;
      Describe(s, compat, patchWorks, queue, predecessor).value
      == BaseOf(s).(modifyKind := 3, modifySize := 16, queue := Disposition(code))
  {
    EnforceCompatSet(s.eventType);
  }

  lemma RoutedSays(s: RuleSpec, compat: bool, patchWorks: bool, queue: Handle, predecessor: Handle)
    requires SelectorOf(s) != 5 && Describe(s, compat, patchWorks, queue, predecessor).Success?
    ensures var subrules := if predecessor == NULL then EmptyArray else Predecessor(predecessor);
      Describe(s, compat, patchWorks, queue, predecessor).value
      == if SelectorOf(s) == 7 then BaseOf(s).(subrules := subrules)
         else if SelectorOf(s) == 1 then BaseOf(s).(queue := QueueHandle(queue))
         else BaseOf(s)
  {}

  /** What the driver is asked for, read off the rule: its event type and flags; the lifetime; the
      selector that is overridden, named or numbered; for selector 5 the disposition 3 unless
      overridden, for selector 1 the queue, and for selector 7 the rule before it. */
  lemma DescriptorsSayWhatRulesSay(
    rules: seq<RuleSpec>, compat: bool, patchWorks: bool, queue: Handle, before: seq<Handle>, births: seq<Birth>, k: nat)
    requires BirthsFollow(rules, compat, patchWorks, queue, before, births) && k < |births| && births[k].asked.Some?
    requires NULL !in before
    ensures var d, s, earlier := births[k].asked.value, rules[k], before + Handles(births[..k]);
      && d.eventType == s.eventType && d.flags == s.flags
      && d.lifetime == (if s.modifierOverride.Some? then s.modifierOverride.value else if s.persistent then 3 else 1)
      && d.selector as int == (if s.selectorOverride.Some? then s.selectorOverride.value as int
                               else if s.actionName == "deny" then 5
                               else if s.actionName == "suppress" then 4
                               else if s.action == 0 then 1
                               else s.action as int % 0x1_0000_0000)
      && d.modifyKind == (if d.selector == 5 then 3 else 0) && d.modifySize == (if d.selector == 5 then 16 else 0)
      && d.queue == (if d.selector == 5 then Disposition(if s.modifyKindOverride.Some? then s.modifyKindOverride.value else 3)
                     else if d.selector == 1 then QueueHandle(queue)
                     else NoQueue)
      && d.subrules == (if d.selector != 7 then NoArray
                        else if earlier == [] then EmptyArray
                        else Predecessor(earlier[|earlier| - 1]))
  {
    var earlier := before + Handles(births[..k]);
    assert BirthFollows(rules[k], compat, patchWorks, queue, LastOf(earlier), births[k]);
    HandlesAreNotNull(births[..k]);
    assert earlier != [] ==> earlier[|earlier| - 1] in before || earlier[|earlier| - 1] in Handles(births[..k]);
    BaseSays(rules[k], BaseOf(rules[k]));
    SelectorSays(rules[k]);
    if SelectorOf(rules[k]) == 5 {
      EnforcingSays(rules[k], compat, patchWorks, queue, LastOf(earlier));
    } else {
      RoutedSays(rules[k], compat, patchWorks, queue, LastOf(earlier));
    }
  }

  lemma {:induction false} HandlesAreNotNull(births: seq<Birth>)
    ensures NULL !in Handles(births)
  {
    if births != [] {
      HandlesAreNotNull(births[..|births| - 1]);
    }
  }

  /** Which rules the driver is asked for: those with an event type and their filter, whose override
      does not contradict their name, and, if they deny, whose event type can be enforced: file
      creation as it is, and the types that write a disposition over a client that took the patch. */
  lemma AskedExactlyWhen(
    rules: seq<RuleSpec>, compat: bool, patchWorks: bool, queue: Handle, before: seq<Handle>, births: seq<Birth>, k: nat)
    requires BirthsFollow(rules, compat, patchWorks, queue, before, births) && k < |births|
    ensures var s := rules[k];
      var t, numbered := s.eventType, if s.action == 0 then 1 else s.action as int % 0x1_0000_0000;
      var named := if s.actionName == "deny" then 5 else if s.actionName == "suppress" then 4 else numbered;
      births[k].asked.Some? <==>
        && t != 0 && births[k].filterBuilt
        && (s.actionName != "" && s.selectorOverride.Some? ==> s.selectorOverride.value as int == named)
        && ((if s.selectorOverride.Some? then s.selectorOverride.value as int else named) == 5 ==>
              t == 2000
              || (compat && patchWorks
                  && (t == 1000 || 2001 <= t <= 2003 || 3000 <= t <= 3006 || t == 3008 || t == 4000 || t == 4002)))
  {
    assert BirthFollows(rules[k], compat, patchWorks, queue, LastOf(before + Handles(births[..k])), births[k]);
    EnforceCompatSet(rules[k].eventType);
  }

  /** A named deny never becomes anything but the enforcing selector. */
  lemma DenyIsEnforcing(spec: RuleSpec, compat: bool, patchWorks: bool, queue: Handle, predecessor: Handle)
    requires spec.actionName == "deny"
    ensures var d := Describe(spec, compat, patchWorks, queue, predecessor);
            d.Success? ==> d.value.selector == ACTION_REWRITE && SupportsEnforcePayload(spec.eventType)
  {}

  /** If the document does not require the patch, neither the compat flag nor the patch can change
      what a run looks like. */
  lemma CompatFlagIsIrrelevant(
    rules: seq<RuleSpec>, flag1: bool, works1: bool, flag2: bool, works2: bool, queue: Handle, before: seq<Handle>, births: seq<Birth>)
    requires !RequiresCompat(rules)
    ensures BirthsFollow(rules, flag1, works1, queue, before, births) <==> BirthsFollow(rules, flag2, works2, queue, before, births)
  {
    if |births| == |rules| {
      forall k | 0 <= k < |rules|
        ensures var p := LastOf(before + Handles(births[..k]));
                BirthFollows(rules[k], flag1, works1, queue, p, births[k]) <==> BirthFollows(rules[k], flag2, works2, queue, p, births[k])
      {
        assert !NeedsPatch(rules[k]);
      }
    }
  }

  lemma {:induction false} NotCreatedIsMissing(births: seq<Birth>, k: nat)
    requires k < |births| && births[k].handle == NULL
    ensures |Created(births)| < |births|
  {
    var n := |births| - 1;
    if k < n {
      NotCreatedIsMissing(births[..n], k);
    }
  }

  /** If the document requires the patch and the flag is off, the install is never complete. */
  lemma WithoutFlagNeverComplete(
    rules: seq<RuleSpec>, patchWorks: bool, queue: Handle, before: seq<Handle>,
    births: seq<Birth>, submitted: seq<bool>, accepted: seq<bool>)
    requires RequiresCompat(rules)
    requires BirthsFollow(rules, false, patchWorks, queue, before, births)
    requires SubmissionsFollow(Created(births), submitted, accepted)
    ensures StatusOf(|rules|, accepted) != Complete
  {
    var k :| 0 <= k < |rules| && NeedsPatch(rules[k]);
    var predecessor := LastOf(before + Handles(births[..k]));
    assert BirthFollows(rules[k], false, patchWorks, queue, predecessor, births[k]);
    PatchNeedsFlag(rules[k], patchWorks, queue, predecessor);
    NotCreatedIsMissing(births, k);
  }

  lemma PatchNeedsFlag(spec: RuleSpec, patchWorks: bool, queue: Handle, predecessor: Handle)
    requires NeedsPatch(spec)
    ensures Describe(spec, false, patchWorks, queue, predecessor).Failure?
  {}

  /** `Failed` means that nothing was kept. */
  lemma FailedMeansNothingKept(rules: nat, handles: seq<Handle>, accepted: seq<bool>)
    requires |handles| == |accepted|
    ensures StatusOf(rules, accepted) == Failed <==> Kept(handles, accepted) == []
  {
    var kept := Kept(handles, accepted);
    if k :| 0 <= k < |accepted| && accepted[k] {
      assert handles[k] in kept;
    } else {
      assert forall h :: h !in kept;
    }
  }

  /** `Complete` means that every rule of the document was created and accepted. */
  lemma CompleteMeansAll(rules: nat, births: seq<Birth>, accepted: seq<bool>)
    requires rules > 0 && |births| == rules && |accepted| == |Created(births)|
    ensures StatusOf(rules, accepted) == Complete
      <==> (forall k :: 0 <= k < |births| ==> births[k].handle != NULL) && (forall k :: 0 <= k < |accepted| ==> accepted[k])
  {
    if k :| 0 <= k < |births| && births[k].handle == NULL {
      NotCreatedIsMissing(births, k);
    } else {
      AllCreated(births);
      assert accepted[0] || !accepted[0];
    }
  }

  lemma {:induction false} AllCreated(births: seq<Birth>)
    requires forall k :: 0 <= k < |births| ==> births[k].handle != NULL
    ensures |Created(births)| == |births|
  {
    if births != [] {
      AllCreated(births[..|births| - 1]);
    }
  }
}
