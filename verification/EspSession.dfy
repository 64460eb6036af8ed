/** The session's handle ownership (esptool/src/esp/EspSession.h, EspSession.cpp, EspFilterBuild.cpp,
    EspRuleInstall.cpp and EspRefs.cpp under esptool/src/esp): three lists of handles, and the
    methods that create, move and close what is in them. */
module EspSession {
  import opened Wrappers
  import opened StrHelpers
  import opened RuleDocument
  import opened EspRuleAbi
  import opened EspFilterBuild
  import opened EspFilterAttach
  import opened EspRuleInstall
  import opened EspDriver
  import opened EspHandles
  import opened Sequences
  import opened EspRuleSlots
  import opened HandleLog
  import opened EspRefs
  import opened EspRequests

  class EspSession {
    const driver: Driver
    /** What the one attempt to patch the client would give. */
    const patchWorks: bool
    var client: Handle
    var queue: Handle
    var filters: seq<Handle>
    var rules: seq<Handle>
    var objectRefs: seq<Handle>
    var enforceCompat: bool
    var patchAttempted: bool
    var patchOk: bool
    var notifyQueries: seq<NotifyQuery>
    var fallbackPath: string
    var fallbackPid: uint32

    ghost predicate FiltersOwned(floating: set<Handle>)
      reads this`filters, driver
    {
      driver.Valid() && Owned(driver.filters, filters, floating) && driver.FiltersLogged()
    }

    /** The rules are exactly the open ones, and all are armed; the patch was tried at most once. */
    ghost predicate RulesArmed()
      reads this, driver
    {
      && driver.Valid() && Dense(driver.rules, rules) && driver.armed == driver.rules
      && (patchAttempted ==> patchOk == patchWorks)
    }

    function Refs(): RefState
      reads this`objectRefs, driver`refLog
    {
      RefState(objectRefs, driver.refLog)
    }

    /** The log accounts for the open references, and the open ones are the listed ones. */
    ghost predicate RulesLogged()
      reads driver
    {
      Replay(driver.ruleLog) == Some(driver.rules)
    }

    ghost predicate RefsOwned()
      reads this`objectRefs, driver
    {
      driver.Valid() && Replay(driver.refLog) == Some(driver.refs) && Safe(Refs())
    }

    ghost predicate Valid()
      reads this, driver
    {
      && FiltersOwned({})
      && RulesArmed() && RulesLogged()
      && RefsOwned()
    }

    constructor (driver: Driver, patchWorks: bool)
      requires driver.Valid() && driver.filters == {} && driver.rules == {} && driver.refs == {}
      requires driver.filterLog == [] && driver.ruleLog == [] && driver.refLog == []
      ensures Valid() && this.driver == driver && filters == [] && rules == [] && objectRefs == []
    {
      this.driver, this.patchWorks := driver, patchWorks;
      client, queue := NULL, NULL;
      filters, rules, objectRefs := [], [], [];
      enforceCompat, patchAttempted, patchOk := false, false, false;
      notifyQueries, fallbackPath, fallbackPid := [], "", 0;
    }

    // -------------------------------------------------------------- filters

    /** A typed constructor call, after the checks on the leaf itself. The comparand payload may
        still be refused; which one is left open here. */
    method CreateLeafFilter(fields: LeafFields, ghost floating: set<Handle>) returns (ok: bool, h: Handle)
      requires FiltersOwned(floating)
      modifies driver`filters, driver`filterLog, driver`built, driver`refusals
      ensures old(driver.refusals) <= driver.refusals <= old(driver.refusals) + 1
      ensures ok <==> LeafCallable(fields) && driver.refusals == old(driver.refusals)
      ensures !LeafCallable(fields) ==> driver.refusals == old(driver.refusals)
      ensures ok ==> h !in floating && FiltersOwned(floating + {h}) && h != NULL
      ensures ok ==> driver.built == old(driver.built)[h := Typed(CallOf(fields))]
      ensures !ok ==> h == NULL && FiltersOwned(floating) && driver.built == old(driver.built)
    {
      if !(0 < fields.ctor as int < TYPED_EXPORTS) {
        return false, NULL;
      }
      if LeafProperty(fields) == 0 {
        return false, NULL;
      }
      var payload := driver.TakesPayload(fields);
      if !payload {
        return false, NULL;
      }
      ok, h := driver.CreateTypedFilter(CallOf(fields));
    }

    /** The operands move into the session's list whatever the constructor answers. */
    method CreateBinaryFilter(kind: FilterKind, left: Handle, right: Handle, ghost floating: set<Handle>)
      returns (ok: bool, h: Handle)
      requires FiltersOwned(floating + {left} + {right}) && left !in floating && right !in floating + {left}
      modifies this`filters, driver`filters, driver`filterLog, driver`built, driver`refusals
      ensures filters == old(filters) + [left, right] && driver.refusals == old(driver.refusals) + (if ok then 0 else 1)
      ensures ok ==> h !in floating && FiltersOwned(floating + {h}) && h != NULL
      ensures ok ==> driver.built == old(driver.built)[h := Both(kind, old(driver.built)[left], old(driver.built)[right])]
      ensures !ok ==> h == NULL && FiltersOwned(floating) && driver.built == old(driver.built)
    {
      ok, h := driver.CreateBinaryFilter(kind, left, right);
      ghost var out := if ok then {h} else {};
      assert Owned(driver.filters, filters, floating + out + {left} + {right});
      assert floating + out + {left} + {right} == floating + out + {right} + {left};
      OwnedPush(driver.filters, filters, floating + out + {right}, left);
      filters := filters + [left];
      OwnedPush(driver.filters, filters, floating + out, right);
      filters := filters + [right];
      assert floating + {} == floating;
    }

    method CreateNotFilter(child: Handle, ghost floating: set<Handle>) returns (ok: bool, h: Handle)
      requires FiltersOwned(floating + {child}) && child !in floating
      modifies this`filters, driver`filters, driver`filterLog, driver`built, driver`refusals
      ensures filters == old(filters) + [child] && driver.refusals == old(driver.refusals) + (if ok then 0 else 1)
      ensures ok ==> h !in floating && FiltersOwned(floating + {h}) && h != NULL
      ensures ok ==> driver.built == old(driver.built)[h := Negated(old(driver.built)[child])]
      ensures !ok ==> h == NULL && FiltersOwned(floating) && driver.built == old(driver.built)
    {
      ok, h := driver.CreateNotFilter(child);
      ghost var out := if ok then {h} else {};
      assert Owned(driver.filters, filters, floating + out + {child});
      OwnedPush(driver.filters, filters, floating + out, child);
      filters := filters + [child];
      assert floating + {} == floating;
    }

    /** Builds a tree bottom up. On success the root is handed to the caller and stands for the
        compiled tree; on failure nothing is handed out. Every other handle made on the way is
        in the session's list or already closed. It succeeds exactly if the tree is buildable and
        the driver refuses no call. */
    method CreateFilterTree(node: FilterNode, ghost floating: set<Handle>) returns (ok: bool, h: Handle)
      requires FiltersOwned(floating)
      modifies this`filters, driver`filters, driver`filterLog, driver`built, driver`refusals
      ensures old(filters) <= filters && old(driver.refusals) <= driver.refusals <= old(driver.refusals) + 1
      ensures ok <==> Buildable(node) && driver.refusals == old(driver.refusals)
      ensures ok ==> h != NULL && h !in floating && FiltersOwned(floating + {h})
      ensures ok ==> driver.built[h] == Compiled(node)
      ensures !ok ==> h == NULL && FiltersOwned(floating)
      ensures forall x :: x in old(driver.filters) ==> x in driver.built && driver.built[x] == old(driver.built)[x]
      decreases node
    {
      match node
      case Leaf(fields) =>
        ok, h := CreateLeafFilter(fields, floating);
      case Combine(kind, children) =>
        if kind == Not {
          if |children| != 1 {
            return false, NULL;
          }
          var child;
          ok, child := CreateFilterTree(children[0], floating);
          if !ok {
            return false, NULL;
          }
          ok, h := CreateNotFilter(child, floating);
        } else {
          if |children| < 2 {
            return false, NULL;
          }
          ok, h := CreatePair(kind, children, floating);
        }
    }

    /** The first two children, the first closed again if there is no second, and their combination. */
    method CreatePair(kind: FilterKind, children: seq<FilterNode>, ghost floating: set<Handle>)
      returns (ok: bool, h: Handle)
      requires FiltersOwned(floating) && |children| >= 2
      modifies this`filters, driver`filters, driver`filterLog, driver`built, driver`refusals
      ensures old(filters) <= filters && old(driver.refusals) <= driver.refusals <= old(driver.refusals) + 1
      ensures ok <==> Buildable(children[0]) && Buildable(children[1]) && driver.refusals == old(driver.refusals)
      ensures ok ==> h != NULL && h !in floating && FiltersOwned(floating + {h})
      ensures ok ==> driver.built[h] == Both(kind, Compiled(children[0]), Compiled(children[1]))
      ensures !ok ==> h == NULL && FiltersOwned(floating)
      ensures forall x :: x in old(driver.filters) ==> x in driver.built && driver.built[x] == old(driver.built)[x]
      decreases children
    {
      var left, right;
      ok, left := CreateFilterTree(children[0], floating);
      if !ok {
        return false, NULL;
      }
      ok, right := CreateFilterTree(children[1], floating + {left});
      if !ok {
        driver.CloseFilter(left);
        assert FiltersOwned(floating);
        return false, NULL;
      }
      ok, h := CreateBinaryFilter(kind, left, right, floating);
    }

    /** A rule's filter: built and kept by the session, or absent when the rule has none. */
    method TryBuildRuleFilter(filter: FilterNode) returns (ok: bool, h: Handle)
      requires FiltersOwned({})
      modifies this`filters, driver`filters, driver`filterLog, driver`built, driver`refusals
      ensures FiltersOwned({}) && old(filters) <= filters && Stable(old(filters), old(driver.built), driver.built)
      ensures old(driver.refusals) <= driver.refusals <= old(driver.refusals) + 1
      ensures ok <==> (IsEmptyFilter(filter) || Buildable(filter)) && driver.refusals == old(driver.refusals)
      ensures h != NULL <==> ok && !IsEmptyFilter(filter)
      ensures h != NULL ==> h in filters && h in driver.built && driver.built[h] == Compiled(filter)
      ensures IsEmptyFilter(filter) ==> filters == old(filters)
    {
      if IsEmptyFilter(filter) {
        return true, NULL;
      }
      ok, h := CreateFilterTree(filter, {});
      if !ok {
        return false, NULL;
      }
      if h != NULL {
        OwnedPush(driver.filters, filters, {}, h);
        filters := filters + [h];
      }
    }

    /** The image-file filter of a process-create rule over one process leaf. */
    method CreateImageFilter(spec: RuleSpec) returns (image: Handle)
      requires FiltersOwned({})
      modifies this`filters, driver`filters, driver`filterLog, driver`built, driver`refusals
      ensures FiltersOwned({}) && old(filters) <= filters && Stable(old(filters), old(driver.built), driver.built)
      ensures driver.refusals == old(driver.refusals) + (if AsksForImage(spec) && image == NULL then 1 else 0)
      ensures image != NULL ==>
        AsksForImage(spec) && image in filters && image in driver.built
        && driver.built[image] == Typed(CallOf(ImageFields(spec.filter.fields)))
    {
      image := NULL;
      if HasCtorLeaf(spec.filter, CTOR_PROCESS) && spec.eventType == EVENT_PROCESS_CREATE && spec.filter.Leaf? {
        var ok, h := CreateLeafFilter(ImageFields(spec.filter.fields), {});
        if ok && h != NULL {
          OwnedPush(driver.filters, filters, {}, h);
          filters := filters + [h];
          image := h;
        }
      }
    }

    /** The branches by event type: which slots of the descriptor get the filter. */
    method AttachFilterToDescriptor(d: Descriptor, spec: RuleSpec, filter: Handle) returns (attached: Descriptor, image: Handle)
      requires FiltersOwned({}) && d.filters == map[]
      modifies this`filters, driver`filters, driver`filterLog, driver`built, driver`refusals
      ensures attached == d.(filters := Attached(spec, filter, image))
      ensures FiltersOwned({}) && old(filters) <= filters && Stable(old(filters), old(driver.built), driver.built)
      ensures driver.refusals == old(driver.refusals) + (if AsksForImage(spec) && image == NULL then 1 else 0)
      ensures image != NULL ==>
        AsksForImage(spec) && image in filters && image in driver.built
        && driver.built[image] == Typed(CallOf(ImageFields(spec.filter.fields)))
    {
      image := NULL;
      if spec.eventType == EVENT_PROCESS_CREATE {
        image := CreateImageFilter(spec);
        attached := WithFilter(d, ImageFileFilter, image);
      } else {
        attached := AttachOwnFilter(d, spec, filter);
      }
    }

    method AttachOwnFilter(d: Descriptor, spec: RuleSpec, filter: Handle) returns (attached: Descriptor)
      requires d.filters == map[] && spec.eventType != EVENT_PROCESS_CREATE
      ensures attached == d.(filters := Attached(spec, filter, NULL))
    {
      attached := d;
      if IsThreadEvent(spec.eventType) {
        attached := WithFilter(d, ConfigFilter, filter);
      } else if NeedsTypedIoConfig(spec.eventType) {
        if HasCtorLeaf(spec.filter, CTOR_FILE_OBJECT) && IsFoIoEvent(spec.eventType) {
          attached := WithFilter(attached, FileObjectFilter, filter);
        }
        if HasCtorLeaf(spec.filter, CTOR_PROCESS) {
          attached := AttachDescriptorFilter(attached, spec.filter, filter);
        }
      } else if spec.eventType == EVENT_PROCESS_TERMINATE {
        attached := WithFilter(d, ConfigFilter, filter);
      } else if spec.eventType == EVENT_PROCESS_LOAD_IMAGE {
        attached := WithFilter(d, if HasCtorLeaf(spec.filter, CTOR_FILE_OBJECT) then ImageFileFilter else ConfigFilter, filter);
      } else if IsRegistryEvent(spec.eventType) {
        attached := WithFilter(d, ConfigFilter, filter);
      } else {
        attached := AttachDescriptorFilter(d, spec.filter, filter);
      }
    }

    method AttachDescriptorFilter(d: Descriptor, node: FilterNode, filter: Handle) returns (attached: Descriptor)
      ensures attached == if RulePlace(node).Some? then WithFilter(d, RulePlace(node).value, filter) else d
    {
      var place := RulePlace(node);
      attached := if place.Some? then WithFilter(d, place.value, filter) else d;
    }

    // -------------------------------------------------------------- installing rules

    /** The patch is attempted at most once per session. */
    method EnsureEnforceCompatPatch() returns (ok: bool)
      requires patchAttempted ==> patchOk == patchWorks
      modifies this`patchAttempted, this`patchOk
      ensures ok == patchWorks && patchAttempted && patchOk == patchWorks
    {
      if !patchAttempted {
        patchAttempted := true;
        patchOk := patchWorks;
      }
      return patchOk;
    }

    /** The enforcing branch of the descriptor: the modify kind, or a refusal. */
    method EnforcingKind(eventType: uint32) returns (kind: Result<uint32, Refusal>)
      requires patchAttempted ==> patchOk == patchWorks
      modifies this`patchAttempted, this`patchOk
      ensures kind == EnforceKind(eventType, enforceCompat, patchWorks)
      ensures patchAttempted ==> patchOk == patchWorks
    {
      var value := EventModifyKind(eventType);
      if IsEnforceCompatEvent(eventType) {
        if !enforceCompat {
          return Failure(NeedsCompat);
        }
        var patched := EnsureEnforceCompatPatch();
        if !patched {
          return Failure(PatchUnavailable);
        }
        value := MODIFY_KIND_FO_CREATE;
      } else if value == 0 {
        return Failure(NoModifyKind);
      }
      if !SupportsEnforcePayload(eventType) {
        return Failure(NotEnforceable);
      }
      return Success(value);
    }

    method BuildDescriptor(spec: RuleSpec) returns (r: Result<Descriptor, Refusal>)
      requires NULL !in rules
      requires patchAttempted ==> patchOk == patchWorks
      modifies this`patchAttempted, this`patchOk
      ensures r == Describe(spec, enforceCompat, patchWorks, queue, LastOf(rules)) && (r.Success? ==> r.value.filters == map[])
      ensures patchAttempted ==> patchOk == patchWorks
    {
      var named := NamedSelector(spec.action, spec.actionName);
      if spec.actionName != "" && spec.selectorOverride.Some? && spec.selectorOverride.value != named {
        return Failure(SelectorConflict);
      }
      var base := BeginDescriptor(spec, named);
      if base.selector == ACTION_REWRITE {
        r := EnforcingDescriptor(spec, base);
      } else {
        var routed := RoutedDescriptor(base);
        r := Success(routed);
      }
    }

    method BeginDescriptor(spec: RuleSpec, named: uint32) returns (d: Descriptor)
      requires named == NamedOf(spec)
      ensures d == BaseOf(spec)
    {
      var selector := if spec.selectorOverride.Some? then spec.selectorOverride.value else named;
      var lifetime := if spec.modifierOverride.Some? then spec.modifierOverride.value
                      else if spec.persistent then LIFETIME_PERSIST else LIFETIME_TRANSIENT;
      d := Descriptor(spec.eventType, lifetime, spec.flags, selector, 0, 0, NoQueue, NoArray, map[]);
    }

    method EnforcingDescriptor(spec: RuleSpec, base: Descriptor) returns (r: Result<Descriptor, Refusal>)
      requires patchAttempted ==> patchOk == patchWorks
      modifies this`patchAttempted, this`patchOk
      ensures var kind := EnforceKind(spec.eventType, enforceCompat, patchWorks);
        r == if kind.Failure? then Failure(kind.error) else Success(Enforcing(base, spec, kind.value))
      ensures patchAttempted ==> patchOk == patchWorks
    {
      var kind := EnforcingKind(spec.eventType);
      if kind.Failure? {
        return Failure(kind.error);
      }
      var code := if spec.modifyKindOverride.Some? then spec.modifyKindOverride.value else kind.value;
      var d := base.(queue := Disposition(code));
      r := Success(d.(modifyKind := kind.value, modifySize := MODIFY_ACCESS_MASK_BYTES));
    }

    method RoutedDescriptor(base: Descriptor) returns (d: Descriptor)
      requires NULL !in rules
      ensures d == Routed(base, queue, LastOf(rules))
    {
      d := base;
      if base.selector == ACTION_MATCH_SUBRULES {
        d := d.(subrules := EmptyArray);
        if rules != [] {
          d := d.(subrules := Predecessor(rules[|rules| - 1]));
        }
      } else if base.selector == ACTION_QUEUE_BACKED {
        d := d.(queue := QueueHandle(queue));
      }
    }

    /** One turn of the build loop: the filter, the descriptor, and the create call. */
    method BuildRule(spec: RuleSpec) returns (raw: Handle, asked: Option<Descriptor>, ghost birth: Birth)
      requires FiltersOwned({}) && Dense(driver.rules, rules)
      requires patchAttempted ==> patchOk == patchWorks
      modifies this`filters, this`rules, this`patchAttempted, this`patchOk
      modifies driver`filters, driver`filterLog, driver`built, driver`refusals, driver`rules, driver`ruleLog, driver`asked, driver`creations
      ensures FiltersOwned({}) && Dense(driver.rules, rules) && (patchAttempted ==> patchOk == patchWorks)
      ensures raw == birth.handle && asked == birth.asked
      ensures rules == EntriesAfter(old(rules), birth) && birth.handle !in old(rules)
      ensures Turn(spec, enforceCompat, patchWorks, queue, LastOf(old(rules)), old(Remembered()), birth, Remembered())
    {
      ghost var prepared;
      asked, prepared := PrepareRule(spec);
      ghost var m := Remembered();
      raw := CreateAsked(asked, prepared);
      birth := prepared.(handle := raw);
      TurnOf(spec, enforceCompat, patchWorks, queue, LastOf(old(rules)), old(Remembered()), prepared, raw, m);
    }

    /** The create call, for a rule that has a descriptor. */
    method CreateAsked(asked: Option<Descriptor>, ghost b: Birth) returns (raw: Handle)
      requires driver.Valid() && Dense(driver.rules, rules) && b.asked == asked && b.handle == NULL
      requires asked.Some? && asked.value.subrules.Predecessor? ==> asked.value.subrules.handle in rules
      modifies this`rules, driver`rules, driver`ruleLog, driver`asked, driver`creations
      ensures driver.Valid() && Dense(driver.rules, rules) && (raw != NULL ==> asked.Some?)
      ensures rules == EntriesAfter(old(rules), b.(handle := raw)) && raw !in old(rules)
      ensures Remembered() == Answered(old(Remembered()), b.(handle := raw))
    {
      raw := NULL;
      if asked.Some? {
        raw := CreateRule(asked.value);
      }
    }

    /** What comes before the create call: a birth without a handle, and without a descriptor if the
        rule is refused here. */
    method PrepareRule(spec: RuleSpec) returns (asked: Option<Descriptor>, ghost birth: Birth)
      requires FiltersOwned({}) && NULL !in rules
      requires patchAttempted ==> patchOk == patchWorks
      modifies this`filters, this`patchAttempted, this`patchOk
      modifies driver`filters, driver`filterLog, driver`built, driver`refusals
      ensures FiltersOwned({}) && (patchAttempted ==> patchOk == patchWorks)
      ensures birth.asked == asked && birth.handle == NULL
      ensures asked.Some? && asked.value.subrules.Predecessor? ==> asked.value.subrules.handle in rules
      ensures BirthFollows(spec, enforceCompat, patchWorks, queue, LastOf(rules), birth)
      ensures driver.refusals == old(driver.refusals) + birth.refused
      ensures old(filters) <= filters && Stable(old(filters), old(driver.built), driver.built)
      ensures Meant(spec, birth, filters, driver.built)
    {
      asked, birth := None, Birth(false, NULL, NULL, 0, None, NULL);
      if spec.eventType != 0 {
        var built, filter := TryBuildRuleFilter(spec.filter);
        birth := birth.(filterBuilt := built, filter := filter, refused := driver.refusals - old(driver.refusals));
        if built {
          asked, birth := DescribeRule(spec, filter, birth);
        }
      }
    }

    /** The descriptor of a rule whose filter was built, with the filters attached. */
    method DescribeRule(spec: RuleSpec, filter: Handle, ghost begun: Birth)
      returns (asked: Option<Descriptor>, ghost birth: Birth)
      requires FiltersOwned({}) && NULL !in rules
      requires patchAttempted ==> patchOk == patchWorks
      requires begun.filter == filter && begun.asked == None && begun.handle == NULL && begun.image == NULL && begun.refused == 0 && begun.filterBuilt
      requires FiltersFollow(spec, begun) && spec.eventType != 0 && Meant(spec, begun, filters, driver.built)
      modifies this`filters, this`patchAttempted, this`patchOk
      modifies driver`filters, driver`filterLog, driver`built, driver`refusals
      ensures FiltersOwned({}) && (patchAttempted ==> patchOk == patchWorks)
      ensures asked.Some? && asked.value.subrules.Predecessor? ==> asked.value.subrules.handle in rules
      ensures birth.handle == NULL && birth.asked == asked && BirthFollows(spec, enforceCompat, patchWorks, queue, LastOf(rules), birth)
      ensures driver.refusals == old(driver.refusals) + birth.refused
      ensures old(filters) <= filters && Stable(old(filters), old(driver.built), driver.built)
      ensures Meant(spec, birth, filters, driver.built)
    {
      asked, birth := None, begun;
      var descriptor := BuildDescriptor(spec);
      if descriptor.Failure? {
        return;
      }
      var attached, image := AttachFilterToDescriptor(descriptor.value, spec, filter);
      asked := Some(attached);
      birth := begun.(asked := Some(attached), image := image, refused := driver.refusals - old(driver.refusals));
    }

    /** The create call; a created rule joins the session's list. */
    method CreateRule(d: Descriptor) returns (raw: Handle)
      requires driver.Valid() && Dense(driver.rules, rules)
      requires d.subrules.Predecessor? ==> d.subrules.handle in rules
      modifies this`rules, driver`rules, driver`ruleLog, driver`asked, driver`creations
      ensures driver.Valid() && Dense(driver.rules, rules) && driver.creations == old(driver.creations) + [Creation(d, raw)]
      ensures driver.ruleLog == old(driver.ruleLog) + OpeningOf(raw)
      ensures raw == NULL ==> rules == old(rules) && driver.asked == old(driver.asked)
      ensures raw != NULL ==> raw !in old(rules) && rules == old(rules) + [raw] && driver.asked == old(driver.asked)[raw := d]
    {
      raw := driver.CreateRule(d);
      if raw != NULL {
        DensePush(old(driver.rules), rules, raw);
        rules := rules + [raw];
      }
    }

    /** What the driver recorded that concerns rules. */
    ghost function Recorded(): Ledger
      reads driver`creations, driver`refusals, driver`updates, driver`ruleLog
    {
      Ledger(driver.creations, driver.refusals, driver.updates, driver.ruleLog)
    }

    ghost function Remembered(): Memory
      reads this`filters, driver`asked, driver`built, driver`creations, driver`refusals, driver`updates, driver`ruleLog
    {
      Memory(driver.asked, filters, driver.built, Recorded())
    }

    /** The build loop: every rule of the document in turn. The entries are the created handles,
        and an anchor is the handle a selector-7 entry was built over. */
    method BuildRules(specs: seq<RuleSpec>)
      returns (entries: seq<Handle>, anchors: seq<Handle>, allOk: bool, ghost births: seq<Birth>, ghost history: seq<Memory>)
      requires FiltersOwned({}) && Dense(driver.rules, rules)
      requires patchAttempted ==> patchOk == patchWorks
      modifies this`filters, this`rules, this`patchAttempted, this`patchOk
      modifies driver`filters, driver`filterLog, driver`built, driver`refusals, driver`rules, driver`ruleLog, driver`asked, driver`creations
      ensures FiltersOwned({}) && Dense(driver.rules, rules) && (patchAttempted ==> patchOk == patchWorks)
      ensures rules == old(rules) + entries && allOk == (|entries| == |specs|)
      ensures entries == Handles(births) && anchors == AnchorsOf(births)
      ensures Turns(specs, enforceCompat, patchWorks, queue, old(rules), history, births) && |births| == |specs|
      ensures history[0] == old(Remembered()) && history[|specs|] == Remembered() && old(filters) <= filters
    {
      entries, anchors, allOk, births, history := [], [], true, [], [Remembered()];
      for i := 0 to |specs|
        invariant FiltersOwned({}) && Dense(driver.rules, rules) && (patchAttempted ==> patchOk == patchWorks)
        invariant rules == old(rules) + entries && |entries| <= i && allOk == (|entries| == i)
        invariant entries == Handles(births) && anchors == AnchorsOf(births)
        invariant Turns(specs, enforceCompat, patchWorks, queue, old(rules), history, births) && |births| == i
        invariant history[0] == old(Remembered()) && history[i] == Remembered() && old(filters) <= filters
      {
        var raw;
        raw, entries, anchors, births, history := BuildEntry(specs, i, old(rules), entries, anchors, births, history);
        allOk := allOk && raw != NULL;
      }
    }

    /** One turn of the build loop: a created rule becomes an entry with its anchor. */
    method BuildEntry(
      specs: seq<RuleSpec>, i: nat, ghost before: seq<Handle>, entries: seq<Handle>, anchors: seq<Handle>,
      ghost births: seq<Birth>, ghost history: seq<Memory>)
      returns (raw: Handle, entries': seq<Handle>, anchors': seq<Handle>, ghost births': seq<Birth>, ghost history': seq<Memory>)
      requires FiltersOwned({}) && Dense(driver.rules, rules) && i < |specs|
      requires patchAttempted ==> patchOk == patchWorks
      requires rules == before + entries && entries == Handles(births) && anchors == AnchorsOf(births)
      requires Turns(specs, enforceCompat, patchWorks, queue, before, history, births) && |births| == i && history[i] == Remembered()
      modifies this`filters, this`rules, this`patchAttempted, this`patchOk
      modifies driver`filters, driver`filterLog, driver`built, driver`refusals, driver`rules, driver`ruleLog, driver`asked, driver`creations
      ensures FiltersOwned({}) && Dense(driver.rules, rules) && (patchAttempted ==> patchOk == patchWorks)
      ensures rules == before + entries' && entries' == Handles(births') && anchors' == AnchorsOf(births')
      ensures |entries'| == |entries| + (if raw == NULL then 0 else 1)
      ensures Turns(specs, enforceCompat, patchWorks, queue, before, history', births') && |births'| == i + 1
      ensures history' == history + [Remembered()] && old(filters) <= filters
    {
      var asked;
      ghost var birth;
      raw, asked, birth := BuildRule(specs[i]);
      OneMoreTurn(specs, enforceCompat, patchWorks, queue, before, history, births, birth, Remembered());
      JoinEntry(before, entries, birth);
      births', history' := births + [birth], history + [Remembered()];
      entries', anchors' := PushEntry(entries, anchors, raw, asked, birth);
    }

    method PushEntry(entries: seq<Handle>, anchors: seq<Handle>, raw: Handle, asked: Option<Descriptor>, ghost b: Birth)
      returns (entries': seq<Handle>, anchors': seq<Handle>)
      requires raw == b.handle && asked == b.asked && (raw != NULL ==> asked.Some?)
      ensures entries' == EntriesAfter(entries, b) && anchors' == AnchorsAfter(anchors, entries, b)
    {
      entries', anchors' := entries, anchors;
      if raw != NULL {
        anchors' := anchors + [AnchorFor(asked.value, entries)];
        entries' := entries + [raw];
      }
    }

    /** One entry: submitted unless its anchor was refused; if it is not accepted its handle is
        closed and its slot emptied. */
    method SubmitEntry(slot: nat, anchorRejected: bool) returns (ok: bool)
      requires driver.Valid() && slot < |rules| && rules[slot] in driver.rules && rules[slot] !in driver.armed
      requires !anchorRejected ==>
        var d := driver.asked[rules[slot]]; d.subrules.Predecessor? ==> d.subrules.handle in driver.armed
      modifies this`rules, driver`rules, driver`ruleLog, driver`armed, driver`updates
      ensures driver.Valid() && (ok ==> !anchorRejected)
      ensures Recorded() == LedgerAfter(old(Recorded()), old(rules)[slot], !anchorRejected, ok)
      ensures ok ==> rules == old(rules) && driver.rules == old(driver.rules)
                     && driver.armed == old(driver.armed) + {rules[slot]}
      ensures !ok ==> rules == old(rules)[slot := NULL] && driver.rules == old(driver.rules) - {old(rules)[slot]}
                      && driver.armed == old(driver.armed)
    {
      ok := false;
      if !anchorRejected {
        ok := driver.UpdateRules(rules[slot]);
      }
      if !ok {
        if rules[slot] != NULL {
          driver.CloseRule(rules[slot]);
        }
        rules := rules[slot := NULL];
      }
    }

    /** One turn of the submit loop. */
    method SubmitTurn(
      start: nat, n: nat, entries: seq<Handle>, anchors: seq<Handle>, rejected: seq<Handle>,
      ghost before: seq<Handle>, ghost births: seq<Birth>, ghost asked: map<Handle, Descriptor>,
      ghost submitted: seq<bool>, ghost accepted: seq<bool>, ghost base: Ledger)
      returns (ok: bool, rejected': seq<Handle>, ghost tried: bool)
      requires driver.Valid() && start == |before| && n < |entries|
      requires Submitting(rules, driver.rules, driver.armed, Recorded(), before, entries, births, base, n, rejected, submitted, accepted)
      requires driver.asked == asked && Prepared(before, births, entries, anchors, asked)
      modifies this`rules, driver`rules, driver`ruleLog, driver`armed, driver`updates
      ensures driver.Valid()
      ensures Submitting(rules, driver.rules, driver.armed, Recorded(), before, entries, births, base, n + 1,
                         rejected', submitted + [tried], accepted + [ok])
    {
      SubmittingEntry(
        rules, driver.rules, driver.armed, Recorded(), before, entries, births, base, n,
        rejected, submitted, accepted, anchors, asked);
      var anchorRejected := anchors[n] != NULL && anchors[n] in rejected;
      tried := !anchorRejected;
      ok := SubmitEntry(start + n, anchorRejected);
      SubmittingStep(
        old(rules), old(driver.rules), old(driver.armed), old(Recorded()), before, entries, births, base, n,
        rejected, submitted, accepted, tried, ok);
      rejected' := if ok then rejected else rejected + [entries[n]];
    }

    /** The submit loop: every entry in turn. */
    method SubmitRules(start: nat, entries: seq<Handle>, anchors: seq<Handle>,
                       ghost before: seq<Handle>, ghost births: seq<Birth>)
      returns (committed: nat, refused: nat, rejected: seq<Handle>, ghost submitted: seq<bool>, ghost accepted: seq<bool>)
      requires driver.Valid() && Dense(driver.rules, rules)
      requires start == |before| && rules == before + entries && driver.armed == Elements(before)
      requires Prepared(before, births, entries, anchors, driver.asked)
      modifies this`rules, driver`rules, driver`ruleLog, driver`armed, driver`updates
      ensures driver.Valid()
      ensures Submitting(rules, driver.rules, driver.armed, Recorded(), before, entries, births, old(Recorded()), |entries|,
                         rejected, submitted, accepted)
      ensures committed + refused == |entries| && committed == Accepted(accepted)
    {
      committed, refused, rejected, submitted, accepted := 0, 0, [], [], [];
      ghost var base, asked := Recorded(), driver.asked;
      SubmittingBegins(before, entries, births, base);
      for index := 0 to |entries|
        invariant driver.Valid() && driver.asked == asked
        invariant Submitting(rules, driver.rules, driver.armed, Recorded(), before, entries, births, base, index,
                              rejected, submitted, accepted)
        invariant committed + refused == index && committed == Accepted(accepted)
      {
        var ok;
        ghost var tried;
        ok, rejected, tried := SubmitTurn(start, index, entries, anchors, rejected, before, births, asked, submitted, accepted, base);
        AcceptedOneMore(accepted, ok);
        submitted, accepted := submitted + [tried], accepted + [ok];
        if ok {
          committed := committed + 1;
        } else {
          refused := refused + 1;
        }
      }
    }

    /** The in-place compaction: accepted handles move down over the empty slots. */
    method CompactRules(start: nat, ghost before: seq<Handle>, ghost slots: seq<Handle>)
      requires start == |before| && rules == before + slots
      modifies this`rules
      ensures rules == before + NonNull(slots)
    {
      var write := start;
      ghost var gap := [];
      assert slots[0..] == slots;
      for read := start to |rules|
        invariant |rules| == start + |slots| && Compacting(rules, before, gap, slots, read - start)
        invariant write == start + |NonNull(slots[..read - start])|
      {
        write, gap := CompactSlot(read, write, before, gap, slots, read - start);
      }
      assert slots[..|slots|] == slots;
      rules := rules[..write];
    }

    method CompactSlot(read: nat, write: nat, ghost before: seq<Handle>, ghost gap: seq<Handle>, ghost slots: seq<Handle>, ghost k: nat)
      returns (write': nat, ghost gap': seq<Handle>)
      requires k < |slots| && read == |before| + k && Compacting(rules, before, gap, slots, k)
      requires write == |before| + |NonNull(slots[..k])|
      modifies this`rules
      ensures |rules| == |old(rules)| && Compacting(rules, before, gap', slots, k + 1)
      ensures write' == |before| + |NonNull(slots[..k + 1])|
    {
      CompactingStep(rules, before, gap, slots, k);
      write', gap' := write, gap + [NULL];
      if rules[read] != NULL {
        gap' := if gap == [] then [] else gap[1..] + [rules[read]];
        if write != read {
          rules := rules[write := rules[read]];
        }
        write' := write + 1;
      }
    }

    /** Submission and compaction: the session's list ends with the accepted handles. */
    method ArmRules(start: nat, entries: seq<Handle>, anchors: seq<Handle>,
                    ghost before: seq<Handle>, ghost births: seq<Birth>)
      returns (committed: nat, refused: nat, ghost submitted: seq<bool>, ghost accepted: seq<bool>)
      requires driver.Valid() && Dense(driver.rules, rules)
      requires start == |before| && rules == before + entries && driver.armed == Elements(before)
      requires Prepared(before, births, entries, anchors, driver.asked)
      modifies this`rules, driver`rules, driver`ruleLog, driver`armed, driver`updates
      ensures driver.Valid() && SubmissionsFollow(Created(births), submitted, accepted)
      ensures |accepted| == |entries| && rules == before + Kept(entries, accepted)
      ensures Dense(driver.rules, rules) && driver.armed == driver.rules
      ensures committed + refused == |entries| && committed == Accepted(accepted)
      ensures driver.ruleLog == old(driver.ruleLog) + Closings(Dropped(entries, accepted))
      ensures |submitted| == |entries| && driver.updates == old(driver.updates) + Updates(entries, submitted, accepted)
    {
      var rejected;
      committed, refused, rejected, submitted, accepted := SubmitRules(start, entries, anchors, before, births);
      SubmittingEnds(
        rules, driver.rules, driver.armed, Recorded(), before, entries, births, old(Recorded()), rejected, submitted, accepted);
      SubmittedAll(driver.rules, driver.armed, before, entries, accepted);
      if refused != 0 {
        CompactRules(start, before, Slots(entries, accepted));
      }
    }

    /** The body of `InstallRules` behind its guards. */
    method InstallEntries(specs: seq<RuleSpec>)
      returns (status: InstallStatus, ghost births: seq<Birth>, ghost submitted: seq<bool>, ghost accepted: seq<bool>)
      requires FiltersOwned({}) && RulesArmed() && specs != []
      modifies this`filters, this`rules, this`patchAttempted, this`patchOk
      modifies driver`filters, driver`filterLog, driver`built, driver`refusals
      modifies driver`rules, driver`ruleLog, driver`asked, driver`creations, driver`armed, driver`updates
      ensures FiltersOwned({}) && RulesArmed() && old(filters) <= filters
      ensures Installed(specs, enforceCompat, patchWorks, queue, old(rules), old(Remembered()),
                        births, submitted, accepted, rules, Remembered(), status)
    {
      var start := |rules|;
      ghost var before := rules;
      var entries, anchors, allOk;
      ghost var history;
      entries, anchors, allOk, births, history := BuildRules(specs);
      PreparedByTurns(specs, enforceCompat, patchWorks, queue, before, history, births);
      status, submitted, accepted := ArmEntries(|specs|, start, entries, anchors, allOk, before, births);
      InstalledByTurns(specs, enforceCompat, patchWorks, queue, before, history, births, submitted, accepted,
                       rules, Remembered(), status);
    }

    /** What happens to the created rules, and the status that comes of it. */
    method ArmEntries(total: nat, start: nat, entries: seq<Handle>, anchors: seq<Handle>, allOk: bool,
                      ghost before: seq<Handle>, ghost births: seq<Birth>)
      returns (status: InstallStatus, ghost submitted: seq<bool>, ghost accepted: seq<bool>)
      requires driver.Valid() && Dense(driver.rules, rules)
      requires start == |before| && rules == before + entries && driver.armed == Elements(before)
      requires Prepared(before, births, entries, anchors, driver.asked) && allOk == (|entries| == total)
      modifies this`rules, driver`rules, driver`ruleLog, driver`armed, driver`updates
      ensures driver.Valid() && SubmissionsFollow(Created(births), submitted, accepted)
      ensures Dense(driver.rules, rules) && driver.armed == driver.rules
      ensures rules == before + Kept(entries, accepted)
      ensures Remembered() == Armed(old(Remembered()), entries, submitted, accepted)
      ensures status == StatusOf(total, accepted)
    {
      if entries == [] {
        NothingCreated(births, total);
        return Failed, [], [];
      }
      var committed, refused;
      committed, refused, submitted, accepted := ArmRules(start, entries, anchors, before, births);
      StatusFromCounts(total, entries, accepted);
      status := if committed == 0 then Failed else if allOk && refused == 0 then Complete else Partial;
    }

    /** Installing a document. On paper the run is its births and submissions, and the driver was
        asked for exactly those, in order; in the session, `rules` is its old contents followed by
        exactly the accepted handles in document order, every other handle created here was
        closed, and the status says which case it was. A rule that could be given a filter goes
        without one only at the cost of a refused call of its own, and the filters of the others
        stand for their trees. */
    method InstallRules(specs: seq<RuleSpec>, collectionsInstalled: bool)
      returns (status: InstallStatus, ghost births: seq<Birth>, ghost submitted: seq<bool>, ghost accepted: seq<bool>)
      requires FiltersOwned({}) && RulesArmed() && RulesLogged()
      modifies this`filters, this`rules, this`patchAttempted, this`patchOk, this`notifyQueries
      modifies driver`filters, driver`filterLog, driver`built, driver`refusals
      modifies driver`rules, driver`ruleLog, driver`asked, driver`creations, driver`armed, driver`updates
      ensures FiltersOwned({}) && RulesArmed() && RulesLogged() && old(filters) <= filters
      ensures var guarded := client == NULL || specs == [] || (NeedsQueue(specs) && queue == NULL);
        && notifyQueries == (if guarded then old(notifyQueries) else if !collectionsInstalled then [] else QueriesOf(specs))
        && (guarded || !collectionsInstalled ==>
              status == Failed && rules == old(rules) && filters == old(filters)
              && driver.filterLog == old(driver.filterLog) && driver.ruleLog == old(driver.ruleLog)
              && driver.creations == old(driver.creations) && driver.updates == old(driver.updates))
        && (!guarded && collectionsInstalled ==>
              Installed(specs, enforceCompat, patchWorks, queue, old(rules), old(Remembered()),
                        births, submitted, accepted, rules, Remembered(), status))
    {
      births, submitted, accepted := [], [], [];
      var may := MayInstall(specs);
      if !may {
        return Failed, births, submitted, accepted;
      }
      notifyQueries := [];
      if !collectionsInstalled {
        return Failed, births, submitted, accepted;
      }
      CollectQueries(specs);
      status, births, submitted, accepted := InstallEntries(specs);
      InstallReplays(old(driver.ruleLog), old(rules), Handles(births), accepted);
    }

    /** The guards in front of everything else. */
    method MayInstall(specs: seq<RuleSpec>) returns (ok: bool)
      ensures ok <==> client != NULL && specs != [] && (NeedsQueue(specs) ==> queue != NULL)
    {
      if client == NULL || specs == [] {
        return false;
      }
      var needsQueue := FindQueueRule(specs);
      return !needsQueue || queue != NULL;
    }

    /** The queries of every rule, with its event type. */
    method CollectQueries(specs: seq<RuleSpec>)
      requires notifyQueries == []
      modifies this`notifyQueries
      ensures notifyQueries == QueriesOf(specs)
    {
      for i := 0 to |specs|
        invariant notifyQueries == QueriesOf(specs[..i])
      {
        for j := 0 to |specs[i].queries|
          invariant notifyQueries == QueriesOf(specs[..i]) + Tagged(specs[i].eventType, specs[i].queries[..j])
        {
          notifyQueries := notifyQueries + [NotifyQuery(specs[i].eventType, specs[i].queries[j])];
        }
        assert specs[i].queries[..|specs[i].queries|] == specs[i].queries;
        assert specs[..i + 1][..i] == specs[..i];
      }
      assert specs[..|specs|] == specs;
    }

    method FindQueueRule(specs: seq<RuleSpec>) returns (needsQueue: bool)
      ensures needsQueue <==> NeedsQueue(specs)
    {
      for i := 0 to |specs|
        invariant forall k :: 0 <= k < i ==>
          !ResolvedActionNeedsQueue(specs[k].action, specs[k].actionName, specs[k].selectorOverride)
      {
        if ResolvedActionNeedsQueue(specs[i].action, specs[i].actionName, specs[i].selectorOverride) {
          return true;
        }
      }
      return false;
    }

    // -------------------------------------------------------------- references

    /** Every `Create…Reference`: behind its guard one creation, and the result is listed. */
    method CreateReference(target: RefTarget) returns (ok: bool, out: Handle)
      requires RefsOwned()
      modifies this`objectRefs, driver`refs, driver`refLog, driver`refusals, driver`requests
      ensures RefsOwned() && ok == (out != NULL) && driver.refusals >= old(driver.refusals)
      ensures ok <==> client != NULL && Creatable(target) && driver.refusals == old(driver.refusals)
      ensures driver.requests == old(driver.requests) + (if client != NULL && Creatable(target) then [Request.Create(target, out)] else [])
      ensures ok ==> CanCreate(old(Refs()), out) && Refs() == AfterCreate(old(Refs()), out) && driver.refs == old(driver.refs) + {out}
      ensures !ok ==> Refs() == old(Refs()) && driver.refs == old(driver.refs)
    {
      if client == NULL || !Creatable(target) {
        return false, NULL;
      }
      out := driver.CreateReference(target);
      ok := out != NULL;
      if ok {
        ListReference(out, old(Refs()));
      }
    }

    /** A reference that was just made is listed. */
    method ListReference(out: Handle, ghost before: RefState)
      requires driver.Valid() && before.listed == objectRefs && driver.refLog == before.log + [Opened(out)]
      requires Safe(before) && out in driver.refs && Replay(before.log) == Some(driver.refs - {out})
      modifies this`objectRefs
      ensures RefsOwned() && CanCreate(before, out) && Refs() == AfterCreate(before, out)
    {
      CreateIsSafe(before, out);
      ReplayOne(before.log, Opened(out));
      objectRefs := objectRefs + [out];
      assert driver.refs - {out} + {out} == driver.refs;
    }

    /** A duplicate is a reference of its own. */
    method DuplicateReference(ref: Handle) returns (ok: bool, out: Handle)
      requires RefsOwned() && (ref == NULL || ref in driver.refs)
      modifies this`objectRefs, driver`refs, driver`refLog, driver`refusals, driver`requests
      ensures RefsOwned() && ok == (out != NULL) && driver.refusals >= old(driver.refusals)
      ensures ok <==> ref != NULL && driver.refusals == old(driver.refusals)
      ensures driver.requests == old(driver.requests) + (if ref != NULL then [Request.Duplicate(ref, out)] else [])
      ensures if ok then CanCreate(old(Refs()), out) && Refs() == AfterCreate(old(Refs()), out) else Refs() == old(Refs())
      ensures RefStep(old(Refs()), RefOp.Duplicate(ref), Refs())
    {
      if ref == NULL {
        return false, NULL;
      }
      out := driver.DuplicateReference(ref);
      ok := out != NULL;
      if ok {
        ListReference(out, old(Refs()));
      }
    }

    /** Closing a reference empties every slot that still holds it, so that nothing later closes
        it again. */
    method CloseReference(ref: Handle)
      requires RefsOwned() && (ref == NULL || ref in driver.refs)
      modifies this`objectRefs, driver`refs, driver`refLog
      ensures RefsOwned() && Refs() == AfterClose(old(Refs()), ref) && driver.refs == old(driver.refs) - {ref}
    {
      if ref != NULL {
        driver.CloseReference(ref);
      }
      ResetSlots(ref);
      CloseIsSafe(old(Refs()), ref);
    }

    method ResetSlots(ref: Handle)
      modifies this`objectRefs
      ensures objectRefs == Cleared(old(objectRefs), ref) && (ref == NULL ==> objectRefs == old(objectRefs))
    {
      for i := 0 to |objectRefs|
        invariant |objectRefs| == |old(objectRefs)|
        invariant forall k :: 0 <= k < |objectRefs| ==>
          objectRefs[k] == if k < i && old(objectRefs)[k] == ref then NULL else old(objectRefs)[k]
      {
        if objectRefs[i] == ref {
          objectRefs := objectRefs[i := NULL];
        }
      }
    }

    /** What the source demands before a notification is queried. */
    predicate CanQuery(keys: Option<NotificationKeys>)
      reads this
    {
      client != NULL && keys.Some? &&
      if IsFoIoEvent(keys.value.eventType) then keys.value.path != "" || fallbackPath != ""
      else keys.value.pid != 0 || fallbackPid != 0
    }

    /** What the session has for a query. */
    function Setup(): QuerySetup
      reads this
    {
      QuerySetup(client, notifyQueries, fallbackPath, fallbackPid)
    }

    /** The natural reference of a notification: a file by path, with a fallback, or a process. */
    method CreateNatural(keys: NotificationKeys) returns (created: bool, natural: Handle, ghost a: Answers)
      requires RefsOwned() && client != NULL
      modifies this`objectRefs, driver`refs, driver`refLog, driver`refusals, driver`requests
      ensures RefsOwned() && created == (natural != NULL) && natural == NaturalOf(keys, Setup(), a)
      ensures driver.requests == old(driver.requests) + NaturalRequests(keys, Setup(), a)
      ensures driver.refusals >= old(driver.refusals)
      ensures created ==> CanQuery(Some(keys))
      ensures CanQuery(Some(keys)) && !created ==> driver.refusals > old(driver.refusals)
      ensures created ==> CanCreate(old(Refs()), natural) && Refs() == AfterCreate(old(Refs()), natural)
                          && driver.refs == old(driver.refs) + {natural}
      ensures !created ==> Refs() == old(Refs()) && driver.refs == old(driver.refs)
    {
      created, natural, a := false, NULL, NO_ANSWERS;
      if IsFoIoEvent(keys.eventType) {
        if keys.path != "" {
          created, natural := CreateReference(ByPath(FILE_EXPORT, keys.path));
          a := a.(first := natural);
        }
        if !created && fallbackPath != "" {
          created, natural := CreateReference(ByPath(FILE_EXPORT, fallbackPath));
          a := a.(second := natural);
        }
      } else {
        var pid := if keys.pid == 0 then fallbackPid else keys.pid;
        if pid == 0 {
          return;
        }
        created, natural := CreateReference(ByPid(PROCESS_EXPORT, pid));
        a := a.(first := natural);
      }
    }

    /** The reference by identifier, if the object has one: what it creates is returned even when
        only the natural reference can be read through. */
    method CreateById(natural: Handle, ghost begun: Answers) returns (byId: Handle, contextRef: Handle, ghost a: Answers)
      requires RefsOwned() && natural in driver.refs && client != NULL
      modifies this`objectRefs, driver`refs, driver`refLog, driver`refusals, driver`requests
      ensures a == begun.(id := a.id, byId := a.byId, byIdUnwrapped := a.byIdUnwrapped)
      ensures driver.requests == old(driver.requests) + ([GetId(natural, a.id)] + ByIdRequests(a))
      ensures byId == (if a.id == 0 then NULL else a.byId) && contextRef == ContextOf(natural, a)
      ensures RefsOwned() && driver.refusals >= old(driver.refusals)
      ensures byId != NULL ==> CanCreate(old(Refs()), byId) && Refs() == AfterCreate(old(Refs()), byId)
                               && driver.refs == old(driver.refs) + {byId}
      ensures byId == NULL ==> Refs() == old(Refs()) && driver.refs == old(driver.refs)
    {
      contextRef, byId := natural, NULL;
      var id := driver.GetEventObjectId(natural);
      a := begun.(id := id, byId := NULL, byIdUnwrapped := false);
      if id != 0 {
        var made;
        made, byId := CreateReference(EventObject(id));
        a := a.(byId := byId);
        if made {
          var unwrapped := driver.UnwrapReference(byId);
          a := a.(byIdUnwrapped := unwrapped);
          contextRef := if unwrapped then byId else natural;
        }
      }
    }

    /** The properties of a kind: no export for events, nor for an unknown kind. */
    method QueryKind(kind: string, view: Handle, properties: seq<uint32>)
      requires view in driver.refs && client != NULL
      modifies driver`requests
      ensures driver.requests == old(driver.requests) + KindRequests(kind, view, client, properties)
    {
      if kind == EVENT_KIND {
        return;
      }
      var api := QueryExport(kind);
      if api.None? || properties == [] {
        return;
      }
      driver.Ask(QueryProperties(api.value, if kind == CLIENT_KIND then client else view, properties), client);
    }

    method IsPropertySupported(kind: string, property: uint32)
      requires client != NULL
      modifies driver`requests
      ensures driver.requests == old(driver.requests) + SupportRequest(kind, property)
    {
      var api := SupportExport(kind);
      if api.Some? {
        driver.Ask(IsSupported(api.value, property), client);
      }
    }

    method CheckSupport(recipe: QueryRecipe)
      requires client != NULL
      modifies driver`requests
      ensures driver.requests == old(driver.requests) + SupportOfRecipe(recipe)
    {
      if recipe.kind == "" {
        return;
      }
      for i := 0 to |recipe.properties|
        invariant driver.requests == old(driver.requests) + SupportRequests(recipe.kind, recipe.properties[..i])
      {
        IsPropertySupported(recipe.kind, recipe.properties[i]);
        assert recipe.properties[..i + 1][..i] == recipe.properties[..i];
      }
      assert recipe.properties[..|recipe.properties|] == recipe.properties;
      if recipe.kind == EVENT_KIND && recipe.properties == [] {
        IsPropertySupported(EVENT_KIND, 1);
      }
    }

    method QueryRecipeKind(recipe: QueryRecipe, contextRef: Handle)
      requires contextRef in driver.refs && client != NULL
      modifies driver`requests
      ensures driver.requests == old(driver.requests) + KindOfRecipe(recipe, contextRef, client)
    {
      if recipe.kind != "" && recipe.kind != EVENT_KIND {
        if recipe.properties != [] {
          QueryKind(recipe.kind, contextRef, recipe.properties);
        }
      }
    }

    method UseContext(recipe: QueryRecipe, contextRef: Handle)
      requires contextRef in driver.refs && client != NULL
      modifies driver`requests
      ensures driver.requests == old(driver.requests) + ContextRequests(recipe, contextRef)
    {
      if recipe.contextSet {
        driver.Ask(SetContextKey(contextRef), client);
      }
      if recipe.contextEnum {
        driver.Ask(EnumerateContextKeys(contextRef), client);
      }
    }

    /** One configured query of a notification. */
    method RunRecipe(recipe: QueryRecipe, contextRef: Handle)
      requires contextRef in driver.refs && client != NULL
      modifies driver`requests
      ensures driver.requests == old(driver.requests) + RecipeRequests(recipe, contextRef, client)
    {
      QueryRecipeKind(recipe, contextRef);
      CheckSupport(recipe);
      UseContext(recipe, contextRef);
      JoinRequests(old(driver.requests), KindOfRecipe(recipe, contextRef, client), SupportOfRecipe(recipe),
                   ContextRequests(recipe, contextRef));
    }

    /** One configured query, if it concerns the event type. */
    method RunQuery(query: NotifyQuery, eventType: uint32, contextRef: Handle)
      requires contextRef in driver.refs && client != NULL
      modifies driver`requests
      ensures driver.requests == old(driver.requests) + QueryRequests(query, eventType, contextRef, client)
    {
      if query.eventType != 0 && eventType != 0 && query.eventType != eventType {
        return;
      }
      RunRecipe(query.recipe, contextRef);
    }

    /** The configured queries of a notification. All of them read through one open reference. */
    method RunQueries(eventType: uint32, contextRef: Handle)
      requires contextRef in driver.refs && client != NULL
      modifies driver`requests
      ensures driver.requests == old(driver.requests) + RecipesRequests(notifyQueries, eventType, contextRef, client)
    {
      ghost var before := driver.requests;
      for i := 0 to |notifyQueries|
        invariant driver.requests == before + RecipesRequests(notifyQueries[..i], eventType, contextRef, client)
      {
        ghost var sofar := RecipesRequests(notifyQueries[..i], eventType, contextRef, client);
        RunQuery(notifyQueries[i], eventType, contextRef);
        OneMoreQuery(notifyQueries, i, eventType, contextRef, client);
        JoinRequests(before, sofar, QueryRequests(notifyQueries[i], eventType, contextRef, client), []);
      }
      assert notifyQueries[..|notifyQueries|] == notifyQueries;
    }

    /** The calls through the unwrapped natural reference; the one they may lead to is left open. */
    method ReadThrough(natural: Handle, eventType: uint32, ghost begun: Answers) returns (byId: Handle, ghost a: Answers)
      requires RefsOwned() && natural in driver.refs && client != NULL
      modifies this`objectRefs, driver`refs, driver`refLog, driver`refusals, driver`requests
      ensures a == begun.(id := a.id, byId := a.byId, byIdUnwrapped := a.byIdUnwrapped)
      ensures driver.requests == old(driver.requests) + ViewRequests(natural, eventType, Setup(), a)
      ensures byId == (if a.id == 0 then NULL else a.byId)
      ensures RefsOwned() && driver.refusals >= old(driver.refusals)
      ensures byId != NULL ==> CanCreate(old(Refs()), byId) && Refs() == AfterCreate(old(Refs()), byId)
                               && driver.refs == old(driver.refs) + {byId}
      ensures byId == NULL ==> Refs() == old(Refs()) && driver.refs == old(driver.refs)
    {
      driver.Ask(GetType(natural), client);
      var contextRef;
      byId, contextRef, a := CreateById(natural, begun);
      RunQueries(eventType, contextRef);
      ViewInOrder(old(driver.requests), natural, eventType, Setup(), a);
    }

    /** The rest of a query once its natural reference exists: whatever happens, that reference
        and the one it may lead to are closed. */
    method QueryThrough(natural: Handle, eventType: uint32, ghost begun: Answers) returns (ghost a: Answers)
      requires RefsOwned() && natural in driver.refs && client != NULL
      modifies this`objectRefs, driver`refs, driver`refLog, driver`refusals, driver`requests
      ensures a.first == begun.first && a.second == begun.second
      ensures driver.requests == old(driver.requests) + ThroughRequests(natural, eventType, Setup(), a)
      ensures RefsOwned() && driver.refs == old(driver.refs) - {natural} && driver.refusals >= old(driver.refusals)
      ensures Refs() == AfterThrough(old(Refs()), natural, ById(a))
      ensures ById(a) != NULL ==> CanCreate(old(Refs()), ById(a))
    {
      var unwrapped := driver.UnwrapReference(natural);
      a := begun.(unwrapped := unwrapped);
      if !unwrapped {
        CloseReference(natural);
        return;
      }
      var byId;
      byId, a := ReadThrough(natural, eventType, a);
      JoinRequests(old(driver.requests), [Unwrap(natural, true)], ViewRequests(natural, eventType, Setup(), a), []);
      CloseReference(byId);
      assert driver.refs == old(driver.refs);
      CloseReference(natural);
    }

    /** A query creates its references, asks its recipes through one of them and closes them: it asked
        exactly what its keys, its setup and the library's answers say; on every return path the open
        references are what they were, and the log grew by the creations, closed again in reverse. */
    method QueryFromNotification(keys: Option<NotificationKeys>) returns (ok: bool, ghost a: Answers)
      requires RefsOwned()
      modifies this`objectRefs, driver`refs, driver`refLog, driver`refusals, driver`requests
      ensures driver.requests == old(driver.requests) + NotificationRequests(keys, Setup(), a)
      ensures ok <==> client != NULL && keys.Some? && NaturalOf(keys.value, Setup(), a) != NULL
      ensures RefsOwned() && driver.refs == old(driver.refs)
      ensures Queries(old(Refs()), Refs())
      ensures ok ==> Refs() == AfterQuery(old(Refs()), NaturalOf(keys.value, Setup(), a), ById(a))
      ensures driver.refusals >= old(driver.refusals)
      ensures ok ==> CanQuery(keys) && |driver.refLog| > |old(driver.refLog)|
      ensures !ok ==> Refs() == old(Refs()) && (CanQuery(keys) ==> driver.refusals > old(driver.refusals))
    {
      a := NO_ANSWERS;
      if client == NULL || keys == None {
        return false, a;
      }
      ok, a := QueryByKeys(keys.value);
    }

    /** The query once its keys are decoded. */
    method QueryByKeys(keys: NotificationKeys) returns (ok: bool, ghost a: Answers)
      requires RefsOwned() && client != NULL
      modifies this`objectRefs, driver`refs, driver`refLog, driver`refusals, driver`requests
      ensures driver.requests == old(driver.requests) + NotificationRequests(Some(keys), Setup(), a)
      ensures RefsOwned() && driver.refs == old(driver.refs) && driver.refusals >= old(driver.refusals)
      ensures ok <==> NaturalOf(keys, Setup(), a) != NULL
      ensures ok ==> Refs() == AfterQuery(old(Refs()), NaturalOf(keys, Setup(), a), ById(a))
      ensures ok ==> CanQuery(Some(keys)) && Queries(old(Refs()), Refs()) && |driver.refLog| > |old(driver.refLog)|
      ensures !ok ==> Refs() == old(Refs()) && (CanQuery(Some(keys)) ==> driver.refusals > old(driver.refusals))
    {
      var natural;
      ghost var begun;
      ok, natural, begun := CreateNatural(keys);
      a := begun;
      if ok {
        a := QueryThrough(natural, keys.eventType, begun);
        NaturalThenRest(old(Refs()), natural, ById(a), Refs());
      }
      NaturalComesFirst(keys, Setup(), begun, a);
      JoinRequests(old(driver.requests), NaturalRequests(keys, Setup(), a), ThroughRequests(natural, keys.eventType, Setup(), a), []);
    }

    // -------------------------------------------------------------- disconnecting

    // A slot of a list: closed unless it is empty. One method for each kind of handle.

    method CloseOneFilter(h: Handle)
      requires driver.Valid() && driver.FiltersLogged() && (h != NULL ==> h in driver.filters)
      modifies driver`filters, driver`filterLog
      ensures driver.Valid() && driver.FiltersLogged() && driver.filters == (if h == NULL then old(driver.filters) else old(driver.filters) - {h})
      ensures driver.filterLog == old(driver.filterLog) + ClosureOf(h)
    {
      if h != NULL {
        driver.CloseFilter(h);
      }
    }

    method CloseOneRule(h: Handle)
      requires driver.Valid() && (h != NULL ==> h in driver.rules)
      modifies driver`rules, driver`ruleLog, driver`armed
      ensures driver.Valid() && driver.rules == (if h == NULL then old(driver.rules) else old(driver.rules) - {h})
      ensures driver.ruleLog == old(driver.ruleLog) + ClosureOf(h)
    {
      if h != NULL {
        driver.CloseRule(h);
      }
    }

    method CloseOneReference(h: Handle)
      requires driver.Valid() && (h != NULL ==> h in driver.refs)
      modifies driver`refs, driver`refLog
      ensures driver.Valid() && driver.refs == (if h == NULL then old(driver.refs) else old(driver.refs) - {h})
      ensures driver.refLog == old(driver.refLog) + ClosureOf(h)
    {
      if h != NULL {
        driver.CloseReference(h);
      }
    }

    method CloseFilters()
      requires FiltersOwned({})
      modifies this`filters, driver`filters, driver`filterLog
      ensures FiltersOwned({}) && filters == [] && driver.filters == {}
      ensures driver.filterLog == old(driver.filterLog) + Closures(old(filters))
    {
      assert filters[0..] == filters;
      for i := 0 to |filters|
        invariant filters == old(filters) && driver.Valid() && driver.FiltersLogged() && Owned(driver.filters, filters[i..], {})
        invariant driver.filterLog + Closures(filters[i..]) == old(driver.filterLog) + Closures(filters)
      {
        OwnedNext(driver.filters, filters, i);
        ClosuresNext(driver.filterLog, filters, i);
        CloseOneFilter(filters[i]);
      }
      OwnedNothing(driver.filters, filters);
      filters := [];
    }

    method CloseRules()
      requires driver.Valid() && Dense(driver.rules, rules) && RulesLogged()
      modifies this`rules, driver`rules, driver`ruleLog, driver`armed
      ensures driver.Valid() && Dense(driver.rules, rules) && driver.armed == driver.rules && RulesLogged()
      ensures rules == [] && driver.rules == {}
      ensures driver.ruleLog == old(driver.ruleLog) + Closures(old(rules))
    {
      DenseIsOwned(driver.rules, rules);
      assert rules[0..] == rules;
      for i := 0 to |rules|
        invariant rules == old(rules) && driver.Valid() && Owned(driver.rules, rules[i..], {})
        invariant driver.ruleLog + Closures(rules[i..]) == old(driver.ruleLog) + Closures(rules)
      {
        OwnedNext(driver.rules, rules, i);
        ClosuresNext(driver.ruleLog, rules, i);
        CloseOneRule(rules[i]);
      }
      OwnedNothing(driver.rules, rules);
      assert driver.ruleLog == old(driver.ruleLog) + Closures(rules);
      ClosingAll(old(driver.ruleLog), old(driver.rules), rules);
      rules := [];
    }

    method CloseReferences()
      requires RefsOwned()
      modifies this`objectRefs, driver`refs, driver`refLog
      ensures RefsOwned() && objectRefs == [] && driver.refs == {}
      ensures driver.refLog == old(driver.refLog) + Closures(old(objectRefs))
    {
      CloseSlots(objectRefs);
      DisconnectClosesAll(old(Refs()));
      objectRefs := [];
    }

    method CloseSlots(listed: seq<Handle>)
      requires driver.Valid() && Owned(driver.refs, listed, {})
      modifies driver`refs, driver`refLog
      ensures driver.Valid() && driver.refs == {} && driver.refLog == old(driver.refLog) + Closures(listed)
    {
      assert listed[0..] == listed;
      for i := 0 to |listed|
        invariant driver.Valid() && Owned(driver.refs, listed[i..], {})
        invariant driver.refLog + Closures(listed[i..]) == old(driver.refLog) + Closures(listed)
      {
        OwnedNext(driver.refs, listed, i);
        ClosuresNext(driver.refLog, listed, i);
        CloseOneReference(listed[i]);
      }
      OwnedNothing(driver.refs, listed);
    }

    method DropFilters()
      requires Valid()
      modifies this`filters, driver`filters, driver`filterLog
      ensures Valid() && filters == [] && driver.filters == {}
      ensures driver.filterLog == old(driver.filterLog) + Closures(old(filters))
    {
      CloseFilters();
    }

    method DropRules()
      requires Valid()
      modifies this`rules, driver`rules, driver`ruleLog, driver`armed
      ensures Valid() && rules == [] && driver.rules == {}
      ensures driver.ruleLog == old(driver.ruleLog) + Closures(old(rules))
    {
      CloseRules();
    }

    method DropReferences()
      requires Valid()
      modifies this`objectRefs, driver`refs, driver`refLog
      ensures Valid() && objectRefs == [] && driver.refs == {}
      ensures driver.refLog == old(driver.refLog) + Closures(old(objectRefs))
    {
      CloseReferences();
    }

    method ForgetClient()
      requires Valid()
      modifies this`queue, this`client, this`notifyQueries
      ensures Valid() && queue == NULL && client == NULL && notifyQueries == []
    {
      queue, client, notifyQueries := NULL, NULL, [];
    }

    /** Disconnecting closes every remaining filter, rule and reference once and empties the
        lists; disconnecting again closes nothing. */
    method Disconnect()
      requires Valid()
      modifies this`filters, this`rules, this`objectRefs, this`queue, this`client, this`notifyQueries
      modifies driver`filters, driver`filterLog, driver`rules, driver`ruleLog, driver`armed, driver`refs, driver`refLog
      ensures Valid() && filters == [] && rules == [] && objectRefs == [] && queue == NULL && client == NULL
      ensures notifyQueries == []
      ensures driver.filters == {} && driver.rules == {} && driver.refs == {}
      ensures driver.filterLog == old(driver.filterLog) + Closures(old(filters))
      ensures driver.ruleLog == old(driver.ruleLog) + Closures(old(rules))
      ensures driver.refLog == old(driver.refLog) + Closures(old(objectRefs))
    {
      DropFilters();
      DropRules();
      DropReferences();
      ForgetClient();
    }

    /** In every valid state of a session, nothing was ever closed twice, and what is in no list
        any more was closed. */
    lemma ClosedExactlyOnce()
      requires Valid()
      ensures NothingClosedTwice(driver.filterLog) && NothingClosedTwice(driver.ruleLog) && NothingClosedTwice(driver.refLog)
      ensures filters == [] ==> NothingLeftOpen(driver.filterLog)
      ensures rules == [] ==> NothingLeftOpen(driver.ruleLog)
      ensures objectRefs == [] ==> NothingLeftOpen(driver.refLog)
    {
      OwnedLog(driver.filterLog, driver.filters, filters);
      DenseIsOwned(driver.rules, rules);
      OwnedLog(driver.ruleLog, driver.rules, rules);
      OwnedLog(driver.refLog, driver.refs, objectRefs);
    }
  }
}
