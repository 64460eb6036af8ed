/** Where a rule's filter goes in its descriptor (esptool/src/esp/EspFilterAttach.h,
    esptool/src/esp/EspRuleInstall.cpp), and which rules reach the driver without theirs. */
module EspFilterAttach {
  import opened Wrappers
  import opened StrHelpers
  import opened RuleDocument
  import opened EspRuleAbi

  const CTOR_EVENT: int32 := 4
  const CTOR_FILE_OBJECT: int32 := 6
  const CTOR_PROCESS: int32 := 10

  /** The filter slots: of the event's configuration, of a file object in it, of an image's file
      object in it, and the two of the descriptor itself. */
  datatype Place = ConfigFilter | FileObjectFilter | ImageFileFilter | ProcessFilter | EventFilter

  predicate IsEmptyFilter(node: FilterNode) {
    node.Leaf? && node.fields.ctor == 0
  }

  predicate HasCtorLeaf(node: FilterNode, ctor: int32)
    decreases node, 1
  {
    match node
    case Leaf(fields) => fields.ctor == ctor
    case Combine(_, children) => AnyHasCtorLeaf(children, ctor)
  }

  predicate AnyHasCtorLeaf(nodes: seq<FilterNode>, ctor: int32)
    decreases nodes, 0
  {
    nodes != [] && (HasCtorLeaf(nodes[0], ctor) || AnyHasCtorLeaf(nodes[1..], ctor))
  }

  function PlaceForCtor(ctor: int32): Option<Place> {
    if ctor == CTOR_PROCESS then Some(ProcessFilter) else if ctor == CTOR_EVENT then Some(EventFilter) else None
  }

  /** The descriptor's own slot for a tree: that of its first process or event leaf. */
  function RulePlace(node: FilterNode): Option<Place>
    decreases node, 1
  {
    match node
    case Leaf(fields) => PlaceForCtor(fields.ctor)
    case Combine(_, children) => FirstRulePlace(children)
  }

  function FirstRulePlace(nodes: seq<FilterNode>): Option<Place>
    decreases nodes, 0
  {
    if nodes == [] then None
    else if RulePlace(nodes[0]).Some? then RulePlace(nodes[0])
    else FirstRulePlace(nodes[1..])
  }

  function Places(place: Option<Place>): set<Place> {
    if place.Some? then {place.value} else {}
  }

  /** The slots that get the rule's own filter. */
  function OwnPlaces(spec: RuleSpec): set<Place> {
    var t := spec.eventType;
    if IsThreadEvent(t) then {ConfigFilter}
    else if NeedsTypedIoConfig(t) then
      (if HasCtorLeaf(spec.filter, CTOR_FILE_OBJECT) && IsFoIoEvent(t) then {FileObjectFilter} else {})
      + (if HasCtorLeaf(spec.filter, CTOR_PROCESS) then Places(RulePlace(spec.filter)) else {})
    else if t == EVENT_PROCESS_CREATE then {}
    else if t == EVENT_PROCESS_TERMINATE then {ConfigFilter}
    else if t == EVENT_PROCESS_LOAD_IMAGE then
      if HasCtorLeaf(spec.filter, CTOR_FILE_OBJECT) then {ImageFileFilter} else {ConfigFilter}
    else if IsRegistryEvent(t) then {ConfigFilter}
    else Places(RulePlace(spec.filter))
  }

  /** A process-create rule over one process leaf gets a second, image-file filter. */
  predicate WantsImageFilter(spec: RuleSpec) {
    spec.eventType == EVENT_PROCESS_CREATE && spec.filter.Leaf? && spec.filter.fields.ctor == CTOR_PROCESS
  }

  /** A process leaf turned into an image-file leaf. */
  function ImageFields(fields: LeafFields): LeafFields {
    var moved := fields.(ctor := CTOR_FILE_OBJECT);
    if moved.propertyId == 0 then moved.(propertyId := 1) else moved
  }

  // ---------------------------------------------------------------- which rules carry their filter

  lemma {:induction false} RulePlaceExactlyWhen(node: FilterNode)
    ensures RulePlace(node).Some? <==> HasCtorLeaf(node, CTOR_PROCESS) || HasCtorLeaf(node, CTOR_EVENT)
    ensures RulePlace(node).Some? ==> RulePlace(node).value in {ProcessFilter, EventFilter}
    decreases node, 1
  {
    if node.Combine? {
      FirstRulePlaceExactlyWhen(node.children);
    }
  }

  lemma {:induction false} FirstRulePlaceExactlyWhen(nodes: seq<FilterNode>)
    ensures FirstRulePlace(nodes).Some? <==> AnyHasCtorLeaf(nodes, CTOR_PROCESS) || AnyHasCtorLeaf(nodes, CTOR_EVENT)
    ensures FirstRulePlace(nodes).Some? ==> FirstRulePlace(nodes).value in {ProcessFilter, EventFilter}
    decreases nodes, 0
  {
    if nodes != [] {
      RulePlaceExactlyWhen(nodes[0]);
      FirstRulePlaceExactlyWhen(nodes[1..]);
    }
  }

  /** The event types whose configuration takes any filter. */
  predicate TakesAnyFilter(t: uint32) {
    IsThreadEvent(t) || t == EVENT_PROCESS_TERMINATE || t == EVENT_PROCESS_LOAD_IMAGE || IsRegistryEvent(t)
  }

  /** A rule's own filter has a slot exactly if its event type takes any filter, or, on other types
      than process creation, the tree has a process leaf, or a file-object leaf on a file event, or
      an event leaf on a type without a typed configuration. */
  lemma CarriedExactlyWhen(spec: RuleSpec)
    ensures OwnPlaces(spec) != {} <==>
      var t := spec.eventType;
      TakesAnyFilter(t)
      || (t != EVENT_PROCESS_CREATE &&
          (HasCtorLeaf(spec.filter, CTOR_PROCESS)
           || (IsFoIoEvent(t) && HasCtorLeaf(spec.filter, CTOR_FILE_OBJECT))
           || (!NeedsTypedIoConfig(t) && HasCtorLeaf(spec.filter, CTOR_EVENT))))
  {
    RulePlaceExactlyWhen(spec.filter);
    var place := RulePlace(spec.filter);
    assert place.Some? ==> place.value in Places(place);
    var own := OwnPlaces(spec);
    if IsThreadEvent(spec.eventType) || spec.eventType == EVENT_PROCESS_TERMINATE || IsRegistryEvent(spec.eventType) {
      assert ConfigFilter in own;
    } else if spec.eventType == EVENT_PROCESS_LOAD_IMAGE {
      assert ConfigFilter in own || ImageFileFilter in own;
    } else if NeedsTypedIoConfig(spec.eventType) {
      assert HasCtorLeaf(spec.filter, CTOR_PROCESS) ==> place.value in own;
      assert IsFoIoEvent(spec.eventType) && HasCtorLeaf(spec.filter, CTOR_FILE_OBJECT) ==> FileObjectFilter in own;
    }
  }

  /** A process-creation rule never carries its own filter. */
  lemma ProcessCreateCarriesNone(spec: RuleSpec)
    requires spec.eventType == EVENT_PROCESS_CREATE
    ensures OwnPlaces(spec) == {}
  {}

  /** The slots by event type, for a tree with leaves of these constructors: 4 for events, 6 for file
      objects, 10 for processes. */
  lemma SlotsByEventType(spec: RuleSpec)
    ensures var t, node, own := spec.eventType, spec.filter, OwnPlaces(spec);
      var first := if RulePlace(node).Some? then {RulePlace(node).value} else {};
      if 1 <= t <= 3 || t == 1001 || 7000 <= t <= 7014 then own == {ConfigFilter}
      else if t == 1000 then own == {}
      else if t == 1002 then own == if HasCtorLeaf(node, 6) then {ImageFileFilter} else {ConfigFilter}
      else if 2000 <= t <= 2004 then
        own == (if HasCtorLeaf(node, 6) then {FileObjectFilter} else {}) + (if HasCtorLeaf(node, 10) then first else {})
      else if t == 5000 then own == if HasCtorLeaf(node, 10) then first else {}
      else own == first
  {}

  /** The slot in the descriptor itself belongs to the first leaf, in document order, that is a
      process or an event leaf. */
  lemma SlotOfLeaf(fields: LeafFields)
    ensures RulePlace(Leaf(fields)) == if fields.ctor == 10 then Some(ProcessFilter) else if fields.ctor == 4 then Some(EventFilter) else None
  {}

  lemma {:induction false} SlotOfChildren(kind: FilterKind, nodes: seq<FilterNode>, k: nat)
    requires k < |nodes| && RulePlace(nodes[k]).Some? && forall j :: 0 <= j < k ==> RulePlace(nodes[j]).None?
    ensures RulePlace(Combine(kind, nodes)) == RulePlace(nodes[k])
  {
    if k > 0 {
      SlotOfChildren(kind, nodes[1..], k - 1);
      assert RulePlace(Combine(kind, nodes[1..])) == FirstRulePlace(nodes[1..]);
    }
  }

  /** A leaf counts wherever it stands. */
  lemma {:induction false} LeafCounts(kind: FilterKind, nodes: seq<FilterNode>, ctor: int32)
    ensures HasCtorLeaf(Combine(kind, nodes), ctor) <==> exists k :: 0 <= k < |nodes| && HasCtorLeaf(nodes[k], ctor)
  {
    if nodes != [] {
      LeafCounts(kind, nodes[1..], ctor);
      assert HasCtorLeaf(Combine(kind, nodes[1..]), ctor) == AnyHasCtorLeaf(nodes[1..], ctor);
      if k :| 0 <= k < |nodes| && HasCtorLeaf(nodes[k], ctor) {
        assert k > 0 ==> nodes[1..][k - 1] == nodes[k];
      }
      if AnyHasCtorLeaf(nodes[1..], ctor) {
        var k :| 0 <= k < |nodes| - 1 && HasCtorLeaf(nodes[1..][k], ctor);
        assert nodes[k + 1] == nodes[1..][k];
      }
    }
  }

  /** The extra filter of a process-create rule is its process leaf as a file-object leaf, on
      property 1 unless it names another. */
  lemma ImageFilterSays(fields: LeafFields)
    ensures var moved := ImageFields(fields);
      moved == fields.(ctor := 6, propertyId := if fields.propertyId == 0 then 1 else fields.propertyId)
  {}
}
