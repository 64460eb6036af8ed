/** What the rule parser computes inside a rule: the recursive meaning of XML, and the refinement
    proof for the event-driven machine. */
module RuleMeaning {
  import opened Wrappers
  import opened StrHelpers
  import opened RuleDocument
  import opened RuleParser

  // ---------------------------------------------------------------- well-formed XML

  datatype Xml =
    | Tagged(name: string, attributes: Attributes, children: seq<Xml>)
    | EmptyTag(name: string, attributes: Attributes)
    | Chars(text: string)

  /** The events of one node and of a list of nodes, in document order. */
  function NodeEvents(x: Xml): seq<Event>
    decreases x, 1
  {
    match x
    case Tagged(name, attributes, children) =>
      [Element(name, attributes, false)] + Events(children) + [EndElement(name)]
    case EmptyTag(name, attributes) => [Element(name, attributes, true)]
    case Chars(text) => [Text(text)]
  }

  function Events(forest: seq<Xml>): seq<Event>
    decreases forest, 0
  {
    if forest == [] then [] else NodeEvents(forest[0]) + Events(forest[1..])
  }

  lemma {:induction false} RunAppend(a: seq<Event>, b: seq<Event>, s: State, accepts: Schema)
    requires Sound(s)
    ensures Run(a + b, s, accepts)
            == if Run(a, s, accepts).Success? then Run(b, Run(a, s, accepts).value, accepts) else Run(a, s, accepts)
  {
    if a == [] {
      assert a + b == b;
    } else {
      assert (a + b)[1..] == a[1..] + b;
      var next := Step(s, a[0], accepts);
      if next.Success? {
        RunAppend(a[1..], b, next.value, accepts);
      }
    }
  }

  lemma RunOne(event: Event, s: State, accepts: Schema)
    requires Sound(s)
    ensures Run([event], s, accepts) == Step(s, event, accepts)
  {}

  /** A tagged node runs as its start tag, its children and its end tag. */
  lemma RunTagged(x: Xml, s: State, accepts: Schema)
    requires Sound(s) && x.Tagged?
    ensures var first := OnElement(s, x.name, x.attributes, false, accepts);
            Run(NodeEvents(x), s, accepts)
            == if first.Failure? then first else
               var body := Run(Events(x.children), first.value, accepts);
               if body.Failure? then body else OnEndElement(body.value, x.name)
  {
    var start, end := [Element(x.name, x.attributes, false)], [EndElement(x.name)];
    RunAppend(start, Events(x.children) + end, s, accepts);
    assert NodeEvents(x) == start + (Events(x.children) + end);
    RunOne(start[0], s, accepts);
    var first := Step(s, start[0], accepts);
    if first.Success? {
      RunAppend(Events(x.children), end, first.value, accepts);
      var body := Run(Events(x.children), first.value, accepts);
      if body.Success? {
        RunOne(end[0], body.value, accepts);
      }
    }
  }

  lemma RunEmptyTag(x: Xml, s: State, accepts: Schema)
    requires Sound(s) && x.EmptyTag?
    ensures Run(NodeEvents(x), s, accepts) == OnElement(s, x.name, x.attributes, true, accepts)
  {
    RunOne(Element(x.name, x.attributes, true), s, accepts);
  }

  // ---------------------------------------------------------------- the stack discipline

  function Kinds(stack: seq<FilterNode>): seq<FilterKind>
    requires forall k :: 0 <= k < |stack| ==> stack[k].Combine?
  {
    seq(|stack|, k requires 0 <= k < |stack| => stack[k].kind)
  }

  /** Outside a rule nothing is open. */
  predicate Clean(s: State) {
    Sound(s) && (!s.inRule ==> s.stack == [])
  }

  /** An error raised by a tag or an attribute, and not by a broken structure. */
  predicate ContentError(e: ParseError) {
    !e.Mismatched? && !e.RootNotClosed? && !e.UnterminatedRule? && !e.EmptyDocument? && !e.NotWellFormed?
  }

  /** What a well-formed piece of XML leaves behind: the same rule and the same open combinators. */
  predicate Balanced(before: State, r: Result<State, ParseError>) {
    Sound(before) &&
    match r
    case Failure(e) => ContentError(e)
    case Success(after) => Clean(after) && after.inRule == before.inRule && Kinds(after.stack) == Kinds(before.stack)
  }

  lemma AppendKeepsKinds(s: State, node: FilterNode)
    requires Sound(s)
    ensures Sound(Append(s, node)) && Kinds(Append(s, node).stack) == Kinds(s.stack)
    ensures Append(s, node).inRule == s.inRule
  {}

  lemma KindsAreAligned(a: seq<FilterNode>, b: seq<FilterNode>)
    requires forall k :: 0 <= k < |a| ==> a[k].Combine?
    requires forall k :: 0 <= k < |b| ==> b[k].Combine?
    requires Kinds(a) == Kinds(b)
    ensures |a| == |b| && forall k :: 0 <= k < |a| ==> a[k].kind == b[k].kind
  {
    assert |Kinds(a)| == |Kinds(b)|;
    forall k | 0 <= k < |a| ensures a[k].kind == b[k].kind {
      assert Kinds(a)[k] == Kinds(b)[k];
    }
  }

  /** What a start tag with content leaves open, by the tag's (lower-case) name. */
  predicate Begun(s: State, after: State, name: string) {
    Sound(s) && Clean(after) && after.sawRoot &&
    if KindFromTag(name).Some? then
      s.inRule && after.inRule && after.stack == s.stack + [Combine(KindFromTag(name).value, [])]
    else if name == "rule" then !s.inRule && after.inRule && after.stack == []
    else after.inRule == s.inRule && Kinds(after.stack) == Kinds(s.stack)
  }

  lemma StartTagBegins(s: State, tag: string, attributes: Attributes, accepts: Schema)
    requires Clean(s) && s.sawRoot
    ensures match OnElement(s, tag, attributes, false, accepts)
            case Failure(e) => ContentError(e)
            case Success(after) => Begun(s, after, ToLowerAscii(tag))
  {
    var name := ToLowerAscii(tag);
    if name == "filter" && LeafOf(attributes).Success? {
      AppendKeepsKinds(s, Leaf(LeafOf(attributes).value));
    }
  }

  lemma EmptyTagIsBalanced(s: State, tag: string, attributes: Attributes, accepts: Schema)
    requires Clean(s) && s.sawRoot
    ensures Balanced(s, OnElement(s, tag, attributes, true, accepts))
    ensures var r := OnElement(s, tag, attributes, true, accepts); r.Success? ==> r.value.sawRoot
  {
    var name := ToLowerAscii(tag);
    if name == "filter" && LeafOf(attributes).Success? {
      AppendKeepsKinds(s, Leaf(LeafOf(attributes).value));
    } else if KindFromTag(name).Some? {
      AppendKeepsKinds(s, Combine(KindFromTag(name).value, []));
    }
  }

  /** The end tag closes what its start tag opened: it is never mismatched, and the node it pops
      has the kind of the tag. */
  lemma EndTagCloses(s: State, begun: State, body: State, tag: string)
    requires Clean(s) && Begun(s, begun, ToLowerAscii(tag))
    requires Clean(body) && body.sawRoot && body.inRule == begun.inRule && Kinds(body.stack) == Kinds(begun.stack)
    ensures OnEndElement(body, tag).Success? && OnEndElement(body, tag).value.sawRoot
    ensures Balanced(s, OnEndElement(body, tag))
    ensures KindFromTag(ToLowerAscii(tag)).Some? ==>
      body.stack != [] && body.stack[|body.stack| - 1].kind == KindFromTag(ToLowerAscii(tag)).value
  {
    var name := ToLowerAscii(tag);
    if KindFromTag(name).Some? {
      CombinatorEndCloses(s, body, KindFromTag(name).value, tag);
    } else {
      OtherEndCloses(s, begun, body, tag);
    }
  }

  lemma CombinatorEndCloses(s: State, body: State, kind: FilterKind, tag: string)
    requires Clean(s) && s.inRule && Clean(body) && body.sawRoot && body.inRule
    requires KindFromTag(ToLowerAscii(tag)) == Some(kind) && Kinds(body.stack) == Kinds(s.stack + [Combine(kind, [])])
    ensures body.stack != [] && body.stack[|body.stack| - 1].kind == kind
    ensures var r := OnEndElement(body, tag); r.Success? && r.value.sawRoot && Balanced(s, r)
  {
    KindsAreAligned(body.stack, s.stack + [Combine(kind, [])]);
    var rest := body.(stack := body.stack[..|body.stack| - 1]);
    AppendKeepsKinds(rest, body.stack[|body.stack| - 1]);
    assert Kinds(rest.stack) == Kinds(s.stack);
  }

  lemma OtherEndCloses(s: State, begun: State, body: State, tag: string)
    requires Clean(s) && Begun(s, begun, ToLowerAscii(tag)) && KindFromTag(ToLowerAscii(tag)).None?
    requires Clean(body) && body.sawRoot && body.inRule == begun.inRule && Kinds(body.stack) == Kinds(begun.stack)
    ensures var r := OnEndElement(body, tag); r.Success? && r.value.sawRoot && Balanced(s, r)
  {
    KindsAreAligned(body.stack, begun.stack);
  }

  /** The machine treats well-formed XML as a bracket language: whatever tags it holds, in any
      nesting, the open combinators come back, and the "mismatched" error is never raised. */
  lemma {:induction false} NodeIsBalanced(x: Xml, s: State, accepts: Schema)
    requires Clean(s) && s.sawRoot
    ensures Balanced(s, Run(NodeEvents(x), s, accepts))
    ensures var r := Run(NodeEvents(x), s, accepts); r.Success? ==> r.value.sawRoot
    decreases x, 1
  {
    match x
    case Chars(text) => RunOne(Text(text), s, accepts);
    case EmptyTag(tag, attributes) =>
      RunEmptyTag(x, s, accepts);
      EmptyTagIsBalanced(s, tag, attributes, accepts);
    case Tagged(tag, attributes, children) =>
      RunTagged(x, s, accepts);
      StartTagBegins(s, tag, attributes, accepts);
      var first := OnElement(s, tag, attributes, false, accepts);
      if first.Success? {
        ForestIsBalanced(children, first.value, accepts);
        var body := Run(Events(children), first.value, accepts);
        if body.Success? {
          EndTagCloses(s, first.value, body.value, tag);
        }
      }
  }

  lemma {:induction false} ForestIsBalanced(forest: seq<Xml>, s: State, accepts: Schema)
    requires Clean(s) && s.sawRoot
    ensures Balanced(s, Run(Events(forest), s, accepts))
    ensures var r := Run(Events(forest), s, accepts); r.Success? ==> r.value.sawRoot
    decreases forest, 0
  {
    if forest != [] {
      NodeIsBalanced(forest[0], s, accepts);
      RunAppend(NodeEvents(forest[0]), Events(forest[1..]), s, accepts);
      var r := Run(NodeEvents(forest[0]), s, accepts);
      if r.Success? {
        ForestIsBalanced(forest[1..], r.value, accepts);
      }
    }
  }

  /** A document: the root element around any content. The checks after the loop see it closed and
      no rule left open, so it fails only with an error of its content. */
  lemma DocumentsAreStructurallySound(root: Xml, accepts: Schema)
    requires root.Tagged?
    ensures match ParseEvents(NodeEvents(root), true, accepts)
            case Failure(e) => ContentError(e) && (ToLowerAscii(root.name) != "esptool" ==> e.WrongRoot?)
            case Success(_) => ToLowerAscii(root.name) == "esptool"
  {
    RunTagged(root, START, accepts);
    var first := OnElement(START, root.name, root.attributes, false, accepts);
    if first.Success? {
      ForestIsBalanced(root.children, first.value, accepts);
    }
  }

  /** If the event at i ends a combinator, the node on top of the stack there is of that kind. */
  ghost predicate PopsItsKind(events: seq<Event>, i: nat, s: State, accepts: Schema)
    requires Sound(s) && i < |events|
  {
    events[i].EndElement? && KindFromTag(ToLowerAscii(events[i].name)).Some? && Run(events[..i], s, accepts).Success? ==>
      var stack := Run(events[..i], s, accepts).value.stack;
      stack != [] && stack[|stack| - 1].kind == KindFromTag(ToLowerAscii(events[i].name)).value
  }

  /** Every end event of well-formed XML, wherever it stands, pops a node of its own kind. */
  lemma {:induction false} NodeEndEvents(x: Xml, s: State, accepts: Schema, i: nat)
    requires Clean(s) && s.sawRoot && i < |NodeEvents(x)|
    ensures PopsItsKind(NodeEvents(x), i, s, accepts)
    decreases x, 1
  {
    if x.Tagged? && i > 0 {
      TaggedEndEvents(x, s, accepts, i);
    }
  }

  lemma {:induction false} TaggedEndEvents(x: Xml, s: State, accepts: Schema, i: nat)
    requires x.Tagged? && Clean(s) && s.sawRoot && 0 < i < |NodeEvents(x)|
    ensures PopsItsKind(NodeEvents(x), i, s, accepts)
    decreases x, 0
  {
    var start, inner := Element(x.name, x.attributes, false), Events(x.children);
    var events := NodeEvents(x);
    assert events[..i] == [start] + inner[..i - 1];
    RunAppend([start], inner[..i - 1], s, accepts);
    RunOne(start, s, accepts);
    StartTagBegins(s, x.name, x.attributes, accepts);
    var first := OnElement(s, x.name, x.attributes, false, accepts);
    if first.Success? {
      if i <= |inner| {
        assert events[i] == inner[i - 1];
        ForestEndEvents(x.children, first.value, accepts, i - 1);
      } else {
        assert inner[..i - 1] == inner && events[i] == EndElement(x.name);
        ForestIsBalanced(x.children, first.value, accepts);
        var body := Run(inner, first.value, accepts);
        if body.Success? {
          EndTagCloses(s, first.value, body.value, x.name);
        }
      }
    }
  }

  lemma EventOfForest(forest: seq<Xml>, i: nat)
    requires forest != [] && i < |Events(forest)|
    ensures var first, rest, all := NodeEvents(forest[0]), Events(forest[1..]), Events(forest);
      if i < |first| then all[i] == first[i] && all[..i] == first[..i]
      else all[i] == rest[i - |first|] && all[..i] == first + rest[..i - |first|]
  {}

  lemma {:induction false} ForestEndEvents(forest: seq<Xml>, s: State, accepts: Schema, i: nat)
    requires Clean(s) && s.sawRoot && i < |Events(forest)|
    ensures PopsItsKind(Events(forest), i, s, accepts)
    decreases forest, 0
  {
    var first, rest, all := NodeEvents(forest[0]), Events(forest[1..]), Events(forest);
    EventOfForest(forest, i);
    if i < |first| {
      NodeEndEvents(forest[0], s, accepts, i);
      PopsTheSame(all, i, s, first, i, s, accepts);
    } else {
      RunAppend(first, rest[..i - |first|], s, accepts);
      NodeIsBalanced(forest[0], s, accepts);
      var r := Run(first, s, accepts);
      if r.Success? {
        ForestEndEvents(forest[1..], r.value, accepts, i - |first|);
        PopsTheSame(all, i, s, rest, i - |first|, r.value, accepts);
      }
    }
  }

  lemma PopsTheSame(a: seq<Event>, i: nat, s: State, b: seq<Event>, j: nat, t: State, accepts: Schema)
    requires Sound(s) && Sound(t) && i < |a| && j < |b| && a[i] == b[j]
    requires Run(a[..i], s, accepts) == Run(b[..j], t, accepts)
    requires PopsItsKind(b, j, t, accepts)
    ensures PopsItsKind(a, i, s, accepts)
  {}

  /** The same for a whole document. */
  lemma DocumentEndEvents(root: Xml, accepts: Schema, i: nat)
    requires root.Tagged? && i < |NodeEvents(root)|
    ensures PopsItsKind(NodeEvents(root), i, START, accepts)
  {
    var start, inner := Element(root.name, root.attributes, false), Events(root.children);
    var events := NodeEvents(root);
    if i > 0 {
      assert events[..i] == [start] + inner[..i - 1];
      RunAppend([start], inner[..i - 1], START, accepts);
      RunOne(start, START, accepts);
      var first := OnElement(START, root.name, root.attributes, false, accepts);
      if first.Success? && i <= |inner| {
        assert events[i] == inner[i - 1];
        ForestEndEvents(root.children, first.value, accepts, i - 1);
      } else if first.Success? {
        assert events[i] == EndElement(root.name);
      }
    }
  }

  // ---------------------------------------------------------------- the meaning of a rule body

  /** What a piece of a rule body contributes: predicates in place, queries in order, and whether
      it closes an element named like the root. */
  datatype Body = Body(nodes: seq<FilterNode>, queries: seq<Attributes>, endsRoot: bool)

  const NOTHING := Body([], [], false)

  function Join(a: Body, b: Body): Body {
    Body(a.nodes + b.nodes, a.queries + b.queries, a.endsRoot || b.endsRoot)
  }

  /** What a tag contributes before its content is looked at; `depth` combinators are open. */
  function TagMeaning(name: string, attributes: Attributes, depth: nat, accepts: Schema): Result<Body, ParseError> {
    if name == "client" then if accepts(name, attributes) then Success(NOTHING) else Failure(BadAttributes(name))
    else if name == "rule" then Failure(NestedRule)
    else if name == "collections" || name == "collection" then Failure(InsideRule(name))
    else if name == "entry" then Failure(EntryOutsideCollection)
    else if name == "query" then
      if accepts(name, attributes) then Success(Body([], [attributes], false)) else Failure(BadAttributes(name))
    else if name == "filter" then
      var leaf := LeafOf(attributes);
      if leaf.Failure? then Failure(leaf.error) else Success(Body([Leaf(leaf.value)], [], false))
    else if KindFromTag(name).Some? && depth >= MAX_DEPTH then Failure(TooDeep)
    else Success(NOTHING)
  }

  /** The recursive meaning: a combinator is one node over the meaning of its content; a filter
      is its leaf followed by the meaning of its content; everything else is transparent. */
  function NodeMeaning(x: Xml, depth: nat, accepts: Schema): Result<Body, ParseError>
    decreases x, 1
  {
    match x
    case Chars(_) => Success(NOTHING)
    case EmptyTag(tag, attributes) =>
      var name := ToLowerAscii(tag);
      var own := TagMeaning(name, attributes, depth, accepts);
      if own.Failure? || KindFromTag(name).None? then own
      else Success(Body([Combine(KindFromTag(name).value, [])], [], false))
    case Tagged(tag, attributes, children) =>
      var name := ToLowerAscii(tag);
      var own := TagMeaning(name, attributes, depth, accepts);
      if own.Failure? then own else
      var inner := Meaning(children, if KindFromTag(name).Some? then depth + 1 else depth, accepts);
      if inner.Failure? then inner
      else if KindFromTag(name).Some? then
        Success(Body([Combine(KindFromTag(name).value, inner.value.nodes)], inner.value.queries, inner.value.endsRoot))
      else Success(Join(own.value, Join(inner.value, Body([], [], name == "esptool"))))
  }

  function Meaning(forest: seq<Xml>, depth: nat, accepts: Schema): Result<Body, ParseError>
    decreases forest, 0
  {
    if forest == [] then Success(NOTHING)
    else
      var first := NodeMeaning(forest[0], depth, accepts);
      if first.Failure? then first else
      var rest := Meaning(forest[1..], depth, accepts);
      if rest.Failure? then rest else Success(Join(first.value, rest.value))
  }

  // ---------------------------------------------------------------- the machine refines it

  predicate InBody(s: State) {
    Sound(s) && s.sawRoot && s.inRule && !s.inCollection && !s.inEntry
  }

  /** The machine state after a piece of a rule body. */
  function Extend(s: State, b: Body): State
    requires InBody(s)
  {
    var last := |s.rules| - 1;
    var t := s.(rules := s.rules[last := s.rules[last].(queries := s.rules[last].queries + b.queries)],
                rootClosed := s.rootClosed || b.endsRoot);
    if s.stack == [] then t.(roots := s.roots + b.nodes)
    else
      var top := s.stack[|s.stack| - 1];
      t.(stack := s.stack[..|s.stack| - 1] + [top.(children := top.children + b.nodes)])
  }

  lemma ExtendStays(s: State, b: Body)
    requires InBody(s)
    ensures InBody(Extend(s, b)) && |Extend(s, b).stack| == |s.stack|
  {}

  lemma ExtendByNothing(s: State)
    requires InBody(s)
    ensures Extend(s, NOTHING) == s
  {
    var last := |s.rules| - 1;
    assert s.rules[last].queries + [] == s.rules[last].queries;
    assert s.roots + [] == s.roots;
    if s.stack != [] {
      var top := s.stack[|s.stack| - 1];
      assert top.children + [] == top.children;
      assert s.stack == s.stack[..|s.stack| - 1] + [top];
    }
  }

  lemma ExtendTwice(s: State, a: Body, b: Body)
    requires InBody(s)
    ensures InBody(Extend(s, a)) && Extend(Extend(s, a), b) == Extend(s, Join(a, b))
  {
    ExtendStays(s, a);
    var last := |s.rules| - 1;
    assert s.rules[last].queries + a.queries + b.queries == s.rules[last].queries + (a.queries + b.queries);
    assert s.roots + a.nodes + b.nodes == s.roots + (a.nodes + b.nodes);
    if s.stack != [] {
      var top := s.stack[|s.stack| - 1];
      assert top.children + a.nodes + b.nodes == top.children + (a.nodes + b.nodes);
    }
  }

  /** A start tag with content does what `TagMeaning` says; a combinator also opens its node. */
  lemma StartTagMeaning(s: State, tag: string, attributes: Attributes, accepts: Schema)
    requires InBody(s)
    ensures var name := ToLowerAscii(tag);
            var own := TagMeaning(name, attributes, |s.stack|, accepts);
            OnElement(s, tag, attributes, false, accepts)
            == if own.Failure? then Failure(own.error)
               else if KindFromTag(name).Some? then Success(s.(stack := s.stack + [Combine(KindFromTag(name).value, [])]))
               else Success(Extend(s, own.value))
  {
    ExtendByNothing(s);
    var name := ToLowerAscii(tag);
    if name == "query" {
      assert s.roots + [] == s.roots;
      if s.stack != [] {
        var top := s.stack[|s.stack| - 1];
        assert top.children + [] == top.children;
        assert s.stack == s.stack[..|s.stack| - 1] + [top];
      }
    } else if name == "filter" {
      var last := |s.rules| - 1;
      assert s.rules[last].queries + [] == s.rules[last].queries;
    }
  }

  lemma EmptyCombinatorMeaning(s: State, name: string, accepts: Schema)
    requires InBody(s) && KindFromTag(name).Some? && |s.stack| < MAX_DEPTH
    ensures OnCombinator(s, name, true) == Success(Extend(s, Body([Combine(KindFromTag(name).value, [])], [], false)))
  {
    var last := |s.rules| - 1;
    assert s.rules[last].queries + [] == s.rules[last].queries;
    assert s.rules == s.rules[last := s.rules[last].(queries := s.rules[last].queries)];
  }

  lemma EmptyTagMeaning(s: State, x: Xml, accepts: Schema)
    requires InBody(s) && x.EmptyTag?
    ensures var m := NodeMeaning(x, |s.stack|, accepts);
            OnElement(s, x.name, x.attributes, true, accepts)
            == if m.Failure? then Failure(m.error) else Success(Extend(s, m.value))
  {
    var name := ToLowerAscii(x.name);
    if KindFromTag(name).Some? {
      if |s.stack| < MAX_DEPTH {
        EmptyCombinatorMeaning(s, name, accepts);
      }
    } else {
      StartTagMeaning(s, x.name, x.attributes, accepts);
    }
  }

  /** The end tag of a combinator moves its finished node into place. */
  lemma CombinatorCloses(s: State, kind: FilterKind, b: Body, tag: string)
    requires InBody(s) && KindFromTag(ToLowerAscii(tag)) == Some(kind)
    ensures var begun := s.(stack := s.stack + [Combine(kind, [])]);
            InBody(begun) &&
            OnEndElement(Extend(begun, b), tag) == Success(Extend(s, Body([Combine(kind, b.nodes)], b.queries, b.endsRoot)))
  {
    var begun := s.(stack := s.stack + [Combine(kind, [])]);
    var after := Extend(begun, b);
    assert [] + b.nodes == b.nodes;
    assert begun.stack[..|begun.stack| - 1] == s.stack;
    assert after.stack == s.stack + [Combine(kind, b.nodes)];
    assert after.stack[..|after.stack| - 1] == s.stack;
  }

  /** Any other end tag leaves the body alone; one named like the root marks the root closed. */
  lemma OtherTagCloses(s: State, tag: string)
    requires InBody(s)
    requires var name := ToLowerAscii(tag);
             KindFromTag(name).None? && name != "rule" && name != "entry" && name != "collection"
    ensures OnEndElement(s, tag) == Success(Extend(s, Body([], [], ToLowerAscii(tag) == "esptool")))
  {
    ExtendByNothing(s);
  }

  /** The event machine computes the recursive meaning, error for error: from any state inside a
      rule, the events of a node extend the innermost open combinator by the node's meaning. */
  lemma {:induction false} NodeRuns(x: Xml, s: State, accepts: Schema)
    requires InBody(s)
    ensures var m := NodeMeaning(x, |s.stack|, accepts);
            Run(NodeEvents(x), s, accepts) == if m.Failure? then Failure(m.error) else Success(Extend(s, m.value))
    decreases x, 1
  {
    match x
    case Chars(text) =>
      RunOne(Text(text), s, accepts);
      ExtendByNothing(s);
    case EmptyTag(tag, attributes) =>
      RunEmptyTag(x, s, accepts);
      EmptyTagMeaning(s, x, accepts);
    case Tagged(tag, attributes, children) =>
      RunTagged(x, s, accepts);
      StartTagMeaning(s, tag, attributes, accepts);
      var name := ToLowerAscii(tag);
      var own := TagMeaning(name, attributes, |s.stack|, accepts);
      if own.Success? {
        if KindFromTag(name).Some? {
          var kind := KindFromTag(name).value;
          var begun := s.(stack := s.stack + [Combine(kind, [])]);
          BodyRuns(children, begun, accepts);
          var inner := Meaning(children, |begun.stack|, accepts);
          if inner.Success? {
            CombinatorCloses(s, kind, inner.value, tag);
          }
        } else {
          TransparentTagRuns(x, s, own.value, accepts);
        }
      }
  }

  lemma {:induction false} TransparentTagRuns(x: Xml, s: State, own: Body, accepts: Schema)
    requires InBody(s) && x.Tagged? && KindFromTag(ToLowerAscii(x.name)).None?
    requires TagMeaning(ToLowerAscii(x.name), x.attributes, |s.stack|, accepts) == Success(own)
    ensures var m := NodeMeaning(x, |s.stack|, accepts);
            Run(NodeEvents(x), s, accepts) == if m.Failure? then Failure(m.error) else Success(Extend(s, m.value))
    decreases x, 0
  {
    RunTagged(x, s, accepts);
    StartTagMeaning(s, x.name, x.attributes, accepts);
    ExtendStays(s, own);
    var first := Extend(s, own);
    BodyRuns(x.children, first, accepts);
    var inner := Meaning(x.children, |s.stack|, accepts);
    if inner.Success? {
      var last := Body([], [], ToLowerAscii(x.name) == "esptool");
      ExtendStays(first, inner.value);
      OtherTagCloses(Extend(first, inner.value), x.name);
      ExtendTwice(first, inner.value, last);
      ExtendTwice(s, own, Join(inner.value, last));
    }
  }

  lemma {:induction false} BodyRuns(forest: seq<Xml>, s: State, accepts: Schema)
    requires InBody(s)
    ensures var m := Meaning(forest, |s.stack|, accepts);
            Run(Events(forest), s, accepts) == if m.Failure? then Failure(m.error) else Success(Extend(s, m.value))
    decreases forest, 0
  {
    if forest == [] {
      ExtendByNothing(s);
    } else {
      NodeRuns(forest[0], s, accepts);
      RunAppend(NodeEvents(forest[0]), Events(forest[1..]), s, accepts);
      var first := NodeMeaning(forest[0], |s.stack|, accepts);
      if first.Success? {
        ExtendStays(s, first.value);
        BodyRuns(forest[1..], Extend(s, first.value), accepts);
        var rest := Meaning(forest[1..], |s.stack|, accepts);
        if rest.Success? {
          ExtendTwice(s, first.value, rest.value);
        }
      }
    }
  }

  // ---------------------------------------------------------------- whole rules

  predicate IsRule(x: Xml) {
    !x.Chars? && ToLowerAscii(x.name) == "rule"
  }

  /** The rule an element describes, or the first error in it. */
  function RuleOf(x: Xml, accepts: Schema): Result<Rule, ParseError>
    requires IsRule(x)
  {
    if !accepts("rule", x.attributes) then Failure(BadAttributes("rule"))
    else if x.EmptyTag? then Success(Rule(x.attributes, [], NO_FILTER))
    else
      var m := Meaning(x.children, 0, accepts);
      if m.Failure? then Failure(m.error) else Success(Rule(x.attributes, m.value.queries, Finalize(m.value.nodes)))
  }

  predicate BetweenRules(s: State) {
    Sound(s) && s.sawRoot && !s.inRule && !s.inCollection && !s.inEntry && s.stack == []
  }

  /** A run that added these rules and touched nothing else that outlives it. */
  predicate Adds(s: State, rules: seq<Rule>, r: Result<State, ParseError>) {
    r.Success? && BetweenRules(r.value) && r.value.rules == s.rules + rules && r.value.collections == s.collections
  }

  /** A rule element adds the rule it describes; at </rule> the stack is empty. */
  lemma RuleRuns(x: Xml, s: State, accepts: Schema)
    requires BetweenRules(s) && IsRule(x)
    ensures RuleOf(x, accepts).Failure? ==> Run(NodeEvents(x), s, accepts) == Failure(RuleOf(x, accepts).error)
    ensures RuleOf(x, accepts).Success? ==>
      Adds(s, [RuleOf(x, accepts).value], Run(NodeEvents(x), s, accepts))
  {
    if x.EmptyTag? {
      RunEmptyTag(x, s, accepts);
    } else {
      RunTagged(x, s, accepts);
      if accepts("rule", x.attributes) {
        var begun := s.(rules := s.rules + [Rule(x.attributes, [], NO_FILTER)], inRule := true, stack := [], roots := []);
        BodyRuns(x.children, begun, accepts);
        var m := Meaning(x.children, 0, accepts);
        if m.Success? {
          var after := Extend(begun, m.value);
          assert after.roots == m.value.nodes && after.stack == [];
          assert [] + m.value.queries == m.value.queries;
          assert after.rules == s.rules + [Rule(x.attributes, m.value.queries, NO_FILTER)];
        }
      }
    }
  }
}
