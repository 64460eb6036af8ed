/** The event-driven rule parser (esptool/src/model/RuleParser.cpp): the machine, and the object
    that runs it on its fields.

    The reader's events are the input; those of a well-formed piece of XML, in which an
    empty-element tag has no end event (sections 2.1 and 3.1 of XML 1.0), are defined beside its
    recursive meaning in `RuleMeaning`. Reading the attributes of <client>, <rule>, <query> and
    <collection> is left to a parameter that says which of them are rejected; filter leaves are
    read in full. */
module RuleParser {
  import opened Wrappers
  import opened StrHelpers
  import opened RuleDocument

  const MAX_DEPTH := 16
  const COMPARAND_COLLECTION: int32 := 4

  type Attributes = seq<(string, string)>

  datatype Event =
    | Element(name: string, attributes: Attributes, empty: bool)
    | EndElement(name: string)
    | Text(value: string)

  datatype ParseError =
    | WrongRoot
    | BadAttributes(tag: string)
    | BadLeafNumber(attribute: string)
    | NestedRule
    | InsideRule(tag: string)
    | EntryOutsideCollection
    | OutsideRule(tag: string)
    | TooDeep
    | Mismatched(tag: string)
    | EmptyDocument
    | NotWellFormed
    | RootNotClosed
    | UnterminatedRule

  /** Which attribute lists the readers of <client>, <rule>, <query> and <collection> accept. */
  type Schema = (string, Attributes) -> bool

  datatype Rule = Rule(attributes: Attributes, queries: seq<Attributes>, filter: FilterNode)

  datatype Collection = Collection(attributes: Attributes, entries: seq<string>)

  // ---------------------------------------------------------------- tags and leaves

  function KindFromTag(name: string): Option<FilterKind> {
    if name == "and" then Some(And)
    else if name == "or" then Some(Or)
    else if name == "xor" then Some(Xor)
    else if name == "not" then Some(Not)
    else None
  }

  function Find(attributes: Attributes, name: string): Option<string> {
    if attributes == [] then None
    else if ToLowerAscii(attributes[0].0) == name then Some(attributes[0].1)
    else Find(attributes[1..], name)
  }

  function Get(attributes: Attributes, name: string): string {
    var found := Find(attributes, name);
    if found.Some? then found.value else ""
  }

  /** A signed attribute: absent is zero, present must be a 32-bit numeral. */
  function Signed32(attributes: Attributes, name: string): Result<int32, ParseError> {
    var text := Find(attributes, name);
    if text.None? then Success(0)
    else
      var n := SignedNumeral(text.value);
      if n.Some? && -0x8000_0000 <= n.value <= 0x7FFF_FFFF then Success(n.value as int32)
      else Failure(BadLeafNumber(name))
  }

  function Unsigned(attributes: Attributes, name: string, max: nat): (r: Result<nat, ParseError>)
    ensures r.Success? ==> r.value <= max
  {
    var text := Find(attributes, name);
    if text.None? then Success(0)
    else
      var n := Bounded(Numeral(Trim(text.value)), max);
      if n.Some? then Success(n.value) else Failure(BadLeafNumber(name))
  }

  function LeafOf(attributes: Attributes): Result<LeafFields, ParseError> {
    var ctor := Signed32(attributes, "type");
    if ctor.Failure? then Failure(ctor.error) else
    var comparand := Signed32(attributes, "comparand");
    if comparand.Failure? then Failure(comparand.error) else
    var operand := Unsigned(attributes, "operand", MAX_U64);
    if operand.Failure? then Failure(operand.error) else
    var property := Unsigned(attributes, "property", MAX_U32);
    if property.Failure? then Failure(property.error) else
    var collection := Get(attributes, "collection");
    Success(LeafFields(
      ctor.value,
      if collection != "" && comparand.value == 0 then COMPARAND_COLLECTION else comparand.value,
      operand.value as uint64, property.value as uint32,
      Get(attributes, "propertyname"), Get(attributes, "op"), Get(attributes, "value"), collection))
  }

  method ReadSigned32(attributes: Attributes, name: string) returns (r: Result<int32, ParseError>)
    ensures r == Signed32(attributes, name)
  {
    var text := Find(attributes, name);
    if text.None? {
      return Success(0);
    }
    var ok, value := ParseSigned32(text.value, 0);
    return if ok then Success(value) else Failure(BadLeafNumber(name));
  }

  method ReadUnsigned(attributes: Attributes, name: string, max: nat) returns (r: Result<nat, ParseError>)
    requires max <= MAX_U64
    ensures r == Unsigned(attributes, name, max)
  {
    var text := Find(attributes, name);
    if text.None? {
      return Success(0);
    }
    var ok, value := ParseUnsigned(text.value, 0);
    return if ok && value as nat <= max then Success(value as nat) else Failure(BadLeafNumber(name));
  }

  method ParseLeafAttributes(attributes: Attributes) returns (leaf: Result<LeafFields, ParseError>)
    ensures leaf == LeafOf(attributes)
  {
    var ctor := ReadSigned32(attributes, "type");
    if ctor.Failure? {
      return Failure(ctor.error);
    }
    var comparand := ReadSigned32(attributes, "comparand");
    if comparand.Failure? {
      return Failure(comparand.error);
    }
    var operand := ReadUnsigned(attributes, "operand", MAX_U64);
    if operand.Failure? {
      return Failure(operand.error);
    }
    var property := ReadUnsigned(attributes, "property", MAX_U32);
    if property.Failure? {
      return Failure(property.error);
    }
    var fields := LeafFields(
      ctor.value, comparand.value, operand.value as uint64, property.value as uint32,
      Get(attributes, "propertyname"), Get(attributes, "op"), Get(attributes, "value"), Get(attributes, "collection"));
    if fields.collectionName != "" && fields.comparand == 0 {
      fields := fields.(comparand := COMPARAND_COLLECTION);
    }
    return Success(fields);
  }

  // ---------------------------------------------------------------- the machine

  /** The variables of the event loop. `current_rule` and `current_collection` are the last
      elements of their lists while `inRule` and `inCollection` are on. */
  datatype State = State(
    stack: seq<FilterNode>, roots: seq<FilterNode>,
    rules: seq<Rule>, inRule: bool,
    collections: seq<Collection>, inCollection: bool,
    inEntry: bool, entryText: string,
    sawRoot: bool, rootClosed: bool)

  const START := State([], [], [], false, [], false, false, "", false, false)

  predicate Sound(s: State) {
    && (s.inRule ==> s.rules != [])
    && (s.inCollection ==> s.collections != [])
    && (forall k :: 0 <= k < |s.stack| ==> s.stack[k].Combine?)
  }

  function Append(s: State, node: FilterNode): State
    requires Sound(s)
  {
    if s.stack == [] then s.(roots := s.roots + [node])
    else
      var top := s.stack[|s.stack| - 1];
      s.(stack := s.stack[..|s.stack| - 1] + [top.(children := top.children + [node])])
  }

  /** The node on top of the stack becomes a child of what is below it. */
  function PopNode(s: State): (r: State)
    requires Sound(s) && s.stack != []
    ensures Sound(r)
  {
    Append(s.(stack := s.stack[..|s.stack| - 1]), s.stack[|s.stack| - 1])
  }

  /** Several top-level predicates become one And. */
  function Finalize(roots: seq<FilterNode>): FilterNode {
    if roots == [] then NO_FILTER
    else if |roots| == 1 then roots[0]
    else Combine(And, roots)
  }

  function FinishRule(s: State): State
    requires s.rules != []
  {
    var last := |s.rules| - 1;
    s.(rules := s.rules[last := s.rules[last].(filter := Finalize(s.roots))], inRule := false)
  }

  function AddEntry(s: State, text: string): State
    requires s.collections != []
  {
    var last := |s.collections| - 1;
    s.(collections := s.collections[last := s.collections[last].(entries := s.collections[last].entries + [text])])
  }

  function AddQuery(s: State, attributes: Attributes): State
    requires s.rules != []
  {
    var last := |s.rules| - 1;
    s.(rules := s.rules[last := s.rules[last].(queries := s.rules[last].queries + [attributes])])
  }

  /** The branches of a start tag, in the source's order. */
  function OnElement(s: State, tag: string, attributes: Attributes, empty: bool, accepts: Schema): (r: Result<State, ParseError>)
    requires Sound(s)
    ensures r.Success? ==> Sound(r.value)
  {
    var name := ToLowerAscii(tag);
    if !s.sawRoot then
      if name != "esptool" then Failure(WrongRoot) else Success(s.(sawRoot := true))
    else if name == "client" then
      if accepts(name, attributes) then Success(s) else Failure(BadAttributes(name))
    else if name == "rule" then OnRule(s, attributes, empty, accepts)
    else if name == "collections" then
      if s.inRule then Failure(InsideRule(name)) else Success(s)
    else if name == "collection" then OnCollection(s, attributes, empty, accepts)
    else if name == "entry" then OnEntry(s, empty)
    else if name == "query" then OnQuery(s, attributes, accepts)
    else if name == "filter" then OnFilter(s, attributes)
    else if KindFromTag(name).Some? then OnCombinator(s, name, empty)
    else Success(s)
  }

  function OnCollection(s: State, attributes: Attributes, empty: bool, accepts: Schema): (r: Result<State, ParseError>)
    requires Sound(s)
    ensures r.Success? ==> Sound(r.value)
  {
    if s.inRule then Failure(InsideRule("collection"))
    else if !accepts("collection", attributes) then Failure(BadAttributes("collection"))
    else Success(s.(collections := s.collections + [Collection(attributes, [])], inCollection := !empty))
  }

  function OnEntry(s: State, empty: bool): (r: Result<State, ParseError>)
    requires Sound(s)
    ensures r.Success? ==> Sound(r.value)
  {
    if !s.inCollection then Failure(EntryOutsideCollection)
    else if empty then Success(AddEntry(s.(entryText := ""), "").(inEntry := false))
    else Success(s.(inEntry := true, entryText := ""))
  }

  function OnQuery(s: State, attributes: Attributes, accepts: Schema): (r: Result<State, ParseError>)
    requires Sound(s)
    ensures r.Success? ==> Sound(r.value)
  {
    if !s.inRule then Failure(OutsideRule("query"))
    else if !accepts("query", attributes) then Failure(BadAttributes("query"))
    else Success(AddQuery(s, attributes))
  }

  function OnFilter(s: State, attributes: Attributes): (r: Result<State, ParseError>)
    requires Sound(s)
    ensures r.Success? ==> Sound(r.value)
  {
    if !s.inRule then Failure(OutsideRule("filter"))
    else
      var leaf := LeafOf(attributes);
      if leaf.Failure? then Failure(leaf.error) else Success(Append(s, Leaf(leaf.value)))
  }

  function OnRule(s: State, attributes: Attributes, empty: bool, accepts: Schema): (r: Result<State, ParseError>)
    requires Sound(s)
    ensures r.Success? ==> Sound(r.value)
  {
    if s.inRule then Failure(NestedRule)
    else if !accepts("rule", attributes) then Failure(BadAttributes("rule"))
    else
      var begun := s.(rules := s.rules + [Rule(attributes, [], NO_FILTER)], inRule := true, stack := [], roots := []);
      Success(if empty then FinishRule(begun) else begun)
  }

  function OnCombinator(s: State, name: string, empty: bool): (r: Result<State, ParseError>)
    requires Sound(s) && KindFromTag(name).Some?
    ensures r.Success? ==> Sound(r.value)
  {
    if !s.inRule then Failure(OutsideRule(name))
    else if |s.stack| >= MAX_DEPTH then Failure(TooDeep)
    else
      var node := Combine(KindFromTag(name).value, []);
      Success(if empty then Append(s, node) else s.(stack := s.stack + [node]))
  }

  /** The branches of an end tag. */
  function OnEndElement(s: State, tag: string): (r: Result<State, ParseError>)
    requires Sound(s)
    ensures r.Success? ==> Sound(r.value)
  {
    var name := ToLowerAscii(tag);
    if KindFromTag(name).Some? then
      if s.stack == [] then Failure(Mismatched(name))
      else Success(PopNode(s))
    else if name == "rule" then
      Success(if s.inRule then FinishRule(s).(roots := []) else s)
    else if name == "entry" then
      Success((if s.inCollection && s.inEntry then AddEntry(s, s.entryText) else s).(inEntry := false, entryText := ""))
    else if name == "collection" then Success(s.(inCollection := false))
    else if name == "esptool" then Success(s.(rootClosed := true))
    else Success(s)
  }

  function Step(s: State, event: Event, accepts: Schema): (r: Result<State, ParseError>)
    requires Sound(s)
    ensures r.Success? ==> Sound(r.value)
  {
    match event
    case Element(name, attributes, empty) => OnElement(s, name, attributes, empty, accepts)
    case EndElement(name) => OnEndElement(s, name)
    case Text(value) => Success(if s.inEntry then s.(entryText := s.entryText + value) else s)
  }

  /** The event loop, from state `s`. */
  function Run(events: seq<Event>, s: State, accepts: Schema): (r: Result<State, ParseError>)
    requires Sound(s)
    ensures r.Success? ==> Sound(r.value)
  {
    if events == [] then Success(s)
    else
      var next := Step(s, events[0], accepts);
      if next.Failure? then next else Run(events[1..], next.value, accepts)
  }

  datatype Document = Document(rules: seq<Rule>, collections: seq<Collection>)

  /** The whole parse: the loop and the checks after it. */
  function ParseEvents(events: seq<Event>, wellFormed: bool, accepts: Schema): Result<Document, ParseError> {
    var end := Run(events, START, accepts);
    if end.Failure? then Failure(end.error)
    else if !end.value.sawRoot then Failure(EmptyDocument)
    else if !wellFormed then Failure(NotWellFormed)
    else if !end.value.rootClosed then Failure(RootNotClosed)
    else if end.value.inRule then Failure(UnterminatedRule)
    else Success(Document(end.value.rules, end.value.collections))
  }

  /** The parser object: the loop variables as fields, updated event by event. */
  class DocumentParser {
    var stack: seq<FilterNode>
    var roots: seq<FilterNode>
    var rules: seq<Rule>
    var inRule: bool
    var collections: seq<Collection>
    var inCollection: bool
    var inEntry: bool
    var entryText: string
    var sawRoot: bool
    var rootClosed: bool
    const accepts: Schema

    function Now(): State
      reads this
    {
      State(stack, roots, rules, inRule, collections, inCollection, inEntry, entryText, sawRoot, rootClosed)
    }

    /** A step of the machine succeeded into the present state, or failed with this error. */
    predicate Answers(r: Result<State, ParseError>, error: Option<ParseError>)
      reads this
    {
      if r.Success? then error.None? && Now() == r.value else error == Some(r.error)
    }

    constructor (accepts: Schema)
      ensures Now() == START && this.accepts == accepts
    {
      stack, roots, rules, inRule := [], [], [], false;
      collections, inCollection, inEntry, entryText := [], false, false, "";
      sawRoot, rootClosed := false, false;
      this.accepts := accepts;
    }

    method AppendNode(node: FilterNode)
      requires Sound(Now())
      modifies this`roots, this`stack
      ensures Now() == Append(old(Now()), node)
    {
      if stack == [] {
        roots := roots + [node];
      } else {
        var top := stack[|stack| - 1];
        stack := stack[..|stack| - 1] + [top.(children := top.children + [node])];
      }
    }

    method FinalizeRule()
      requires rules != []
      modifies this`rules
      ensures Now() == FinishRule(old(Now())).(inRule := old(inRule))
    {
      var filter := NO_FILTER;
      if |roots| == 1 {
        filter := roots[0];
      } else if |roots| > 1 {
        filter := Combine(And, roots);
      }
      rules := rules[|rules| - 1 := rules[|rules| - 1].(filter := filter)];
    }

    /** <rule>: an empty tag has no end event, so it is finished here. */
    method OpenRule(attributes: Attributes, empty: bool) returns (error: Option<ParseError>)
      requires Sound(Now())
      modifies this
      ensures Answers(OnRule(old(Now()), attributes, empty, accepts), error)
    {
      if inRule {
        return Some(NestedRule);
      }
      if !accepts("rule", attributes) {
        return Some(BadAttributes("rule"));
      }
      rules := rules + [Rule(attributes, [], NO_FILTER)];
      inRule := true;
      stack := [];
      roots := [];
      if empty {
        FinalizeRule();
        inRule := false;
      }
      return None;
    }

    method OpenCombinator(name: string, kind: FilterKind, empty: bool) returns (error: Option<ParseError>)
      requires Sound(Now()) && KindFromTag(name) == Some(kind)
      modifies this
      ensures Answers(OnCombinator(old(Now()), name, empty), error)
    {
      if !inRule {
        return Some(OutsideRule(name));
      }
      if |stack| >= MAX_DEPTH {
        return Some(TooDeep);
      }
      ghost var before := stack;
      stack := stack + [Combine(kind, [])];
      if empty {
        var node := stack[|stack| - 1];
        stack := stack[..|stack| - 1];
        assert stack == before;
        AppendNode(node);
      }
      return None;
    }

    method OpenCollection(attributes: Attributes, empty: bool) returns (error: Option<ParseError>)
      requires Sound(Now())
      modifies this
      ensures Answers(OnCollection(old(Now()), attributes, empty, accepts), error)
    {
      if inRule {
        return Some(InsideRule("collection"));
      }
      if !accepts("collection", attributes) {
        return Some(BadAttributes("collection"));
      }
      collections := collections + [Collection(attributes, [])];
      inCollection := true;
      if empty {
        inCollection := false;
      }
      return None;
    }

    method OpenEntry(empty: bool) returns (error: Option<ParseError>)
      requires Sound(Now())
      modifies this
      ensures Answers(OnEntry(old(Now()), empty), error)
    {
      if !inCollection {
        return Some(EntryOutsideCollection);
      }
      inEntry := true;
      entryText := "";
      if empty {
        PushEntry("");
        inEntry := false;
      }
      return None;
    }

    method PushEntry(text: string)
      requires collections != []
      modifies this`collections
      ensures Now() == AddEntry(old(Now()), text)
    {
      var last := collections[|collections| - 1];
      collections := collections[|collections| - 1 := last.(entries := last.entries + [text])];
    }

    method OpenQuery(attributes: Attributes) returns (error: Option<ParseError>)
      requires Sound(Now())
      modifies this
      ensures Answers(OnQuery(old(Now()), attributes, accepts), error)
    {
      if !inRule {
        return Some(OutsideRule("query"));
      }
      if !accepts("query", attributes) {
        return Some(BadAttributes("query"));
      }
      var last := rules[|rules| - 1];
      rules := rules[|rules| - 1 := last.(queries := last.queries + [attributes])];
      return None;
    }

    method OpenFilter(attributes: Attributes) returns (error: Option<ParseError>)
      requires Sound(Now())
      modifies this
      ensures Answers(OnFilter(old(Now()), attributes), error)
    {
      if !inRule {
        return Some(OutsideRule("filter"));
      }
      var leaf := ParseLeafAttributes(attributes);
      if leaf.Failure? {
        return Some(leaf.error);
      }
      AppendNode(Leaf(leaf.value));
      return None;
    }

    method StartTag(tag: string, attributes: Attributes, empty: bool) returns (error: Option<ParseError>)
      requires Sound(Now())
      modifies this
      ensures Answers(OnElement(old(Now()), tag, attributes, empty, accepts), error)
    {
      var name := ToLowerAscii(tag);
      if !sawRoot {
        if name != "esptool" {
          return Some(WrongRoot);
        }
        sawRoot := true;
        return None;
      }
      if name == "client" {
        if !accepts(name, attributes) {
          return Some(BadAttributes(name));
        }
        return None;
      } else if name == "rule" {
        error := OpenRule(attributes, empty);
      } else if name == "collections" {
        if inRule {
          return Some(InsideRule(name));
        }
        return None;
      } else if name == "collection" {
        error := OpenCollection(attributes, empty);
      } else if name == "entry" {
        error := OpenEntry(empty);
      } else if name == "query" {
        error := OpenQuery(attributes);
      } else if name == "filter" {
        error := OpenFilter(attributes);
      } else if KindFromTag(name).Some? {
        error := OpenCombinator(name, KindFromTag(name).value, empty);
      } else {
        // Unknown elements are ignored.
        return None;
      }
    }

    method EndTag(tag: string) returns (error: Option<ParseError>)
      requires Sound(Now())
      modifies this
      ensures Answers(OnEndElement(old(Now()), tag), error)
    {
      var name := ToLowerAscii(tag);
      if KindFromTag(name).Some? {
        if stack == [] {
          return Some(Mismatched(name));
        }
        var node := stack[|stack| - 1];
        stack := stack[..|stack| - 1];
        AppendNode(node);
      } else if name == "rule" {
        if inRule {
          FinalizeRule();
          roots := [];
          inRule := false;
        }
      } else if name == "entry" {
        if inCollection && inEntry {
          PushEntry(entryText);
        }
        inEntry := false;
        entryText := "";
      } else if name == "collection" {
        inCollection := false;
      } else if name == "esptool" {
        rootClosed := true;
      }
      return None;
    }

    /** The event loop and the checks after it compute `ParseEvents`. */
    method Parse(events: seq<Event>, wellFormed: bool) returns (outcome: Result<Document, ParseError>)
      requires Now() == START
      modifies this
      ensures outcome == ParseEvents(events, wellFormed, accepts)
    {
      var i := 0;
      while i < |events|
        invariant 0 <= i <= |events|
        invariant Sound(Now())
        invariant Run(events[i..], Now(), accepts) == Run(events, START, accepts)
      {
        ghost var before := Now();
        assert events[i..][0] == events[i] && events[i..][1..] == events[i + 1..];
        var error := None;
        match events[i] {
          case Element(name, attributes, empty) =>
            error := StartTag(name, attributes, empty);
          case EndElement(name) =>
            error := EndTag(name);
          case Text(value) =>
            if inEntry {
              entryText := entryText + value;
            }
        }
        if error.Some? {
          assert Step(before, events[i], accepts) == Failure(error.value);
          return Failure(error.value);
        }
        assert Step(before, events[i], accepts) == Success(Now());
        i := i + 1;
      }
      assert events[i..] == [];
      if !sawRoot {
        return Failure(EmptyDocument);
      }
      if !wellFormed {
        return Failure(NotWellFormed);
      }
      if !rootClosed {
        return Failure(RootNotClosed);
      }
      if inRule {
        return Failure(UnterminatedRule);
      }
      return Success(Document(rules, collections));
    }
  }
}
