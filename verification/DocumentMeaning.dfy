/** What the rule parser computes for a whole document: rules, collections with their entries, and
    what it refuses outside rules. */
module DocumentMeaning {
  import opened Wrappers
  import opened StrHelpers
  import opened RuleDocument
  import opened RuleParser
  import opened RuleMeaning

  /** What a tag outside rules is for. */
  datatype Role = RuleTag | CollectionTag | EntryTag | RuleContent | Through

  function RoleOf(name: string): Role {
    if name == "rule" then RuleTag
    else if name == "collection" then CollectionTag
    else if name == "entry" then EntryTag
    else if name == "query" || name == "filter" || KindFromTag(name).Some? then RuleContent
    else Through
  }

  /** What a piece of a document contributes: rules and collections, or entries to the collection
      it stands in. */
  datatype Parts = Parts(rules: seq<Rule>, collections: seq<Collection>, entries: seq<string>)

  const NO_PARTS := Parts([], [], [])

  function JoinParts(a: Parts, b: Parts): Parts {
    Parts(a.rules + b.rules, a.collections + b.collections, a.entries + b.entries)
  }

  /** No rule or collection inside a collection, and only text inside an entry. What a rule holds is
      free, and so is what stands in an element that is refused anyway. */
  predicate Plain(x: Xml, inCollection: bool)
    decreases x, 1
  {
    x.Chars? ||
    match RoleOf(ToLowerAscii(x.name))
    case RuleTag => !inCollection
    case CollectionTag => !inCollection && (x.Tagged? ==> AllPlain(x.children, true))
    case EntryTag => !inCollection || (x.Tagged? ==> AllChars(x.children))
    case RuleContent => true
    case Through => x.Tagged? ==> AllPlain(x.children, inCollection)
  }

  predicate AllPlain(forest: seq<Xml>, inCollection: bool)
    decreases forest, 0
  {
    forest == [] || (Plain(forest[0], inCollection) && AllPlain(forest[1..], inCollection))
  }

  predicate AllChars(forest: seq<Xml>) {
    forall k :: 0 <= k < |forest| ==> forest[k].Chars?
  }

  function TextOf(forest: seq<Xml>): string
    requires AllChars(forest)
  {
    if forest == [] then "" else forest[0].text + TextOf(forest[1..])
  }

  /** The recursive meaning outside rules: a collection is its entries, an entry its text; what
      belongs into a rule is refused, and everything else is transparent. */
  function PartMeaning(x: Xml, inCollection: bool, accepts: Schema): Result<Parts, ParseError>
    requires Plain(x, inCollection)
    decreases x, 1
  {
    if x.Chars? then Success(NO_PARTS) else
    var name := ToLowerAscii(x.name);
    match RoleOf(name)
    case RuleTag =>
      var rule := RuleOf(x, accepts);
      if rule.Failure? then Failure(rule.error) else Success(Parts([rule.value], [], []))
    case CollectionTag =>
      if !accepts(name, x.attributes) then Failure(BadAttributes(name)) else
      var inner := if x.EmptyTag? then Success(NO_PARTS) else PartsMeaning(x.children, true, accepts);
      if inner.Failure? then inner else Success(Parts([], [Collection(x.attributes, inner.value.entries)], []))
    case EntryTag =>
      if !inCollection then Failure(EntryOutsideCollection)
      else Success(Parts([], [], [if x.EmptyTag? then "" else TextOf(x.children)]))
    case RuleContent => Failure(OutsideRule(name))
    case Through =>
      if name == "client" && !accepts(name, x.attributes) then Failure(BadAttributes(name))
      else if x.EmptyTag? then Success(NO_PARTS)
      else PartsMeaning(x.children, inCollection, accepts)
  }

  function PartsMeaning(forest: seq<Xml>, inCollection: bool, accepts: Schema): Result<Parts, ParseError>
    requires AllPlain(forest, inCollection)
    decreases forest, 0
  {
    if forest == [] then Success(NO_PARTS)
    else
      var first := PartMeaning(forest[0], inCollection, accepts);
      if first.Failure? then first else
      var rest := PartsMeaning(forest[1..], inCollection, accepts);
      if rest.Failure? then rest else Success(JoinParts(first.value, rest.value))
  }

  /** Outside rules and entries. */
  predicate Outside(s: State) {
    Sound(s) && s.sawRoot && !s.inRule && !s.inEntry && s.stack == []
  }

  /** From `s` to `t` these parts were added; what else changed does not outlive the parse. */
  predicate Grown(s: State, p: Parts, t: State) {
    && Outside(s) && Outside(t) && t.inCollection == s.inCollection
    && if s.inCollection then
         p.rules == [] && p.collections == [] && t.rules == s.rules && t.collections == AddEntries(s, p.entries)
       else
         p.entries == [] && t.rules == s.rules + p.rules && t.collections == s.collections + p.collections
  }

  function AddEntries(s: State, entries: seq<string>): seq<Collection>
    requires s.collections != []
  {
    var last := |s.collections| - 1;
    s.collections[last := s.collections[last].(entries := s.collections[last].entries + entries)]
  }

  lemma GrownByNothing(s: State, t: State)
    requires Outside(s) && Outside(t)
    requires t.inCollection == s.inCollection && t.rules == s.rules && t.collections == s.collections
    ensures Grown(s, NO_PARTS, t)
  {
    if s.inCollection {
      var last := |s.collections| - 1;
      assert s.collections[last].entries + [] == s.collections[last].entries;
      assert s.collections[last := s.collections[last]] == s.collections;
    }
  }

  lemma GrownTwice(s: State, a: Parts, t: State, b: Parts, u: State)
    requires Grown(s, a, t) && Grown(t, b, u)
    ensures Grown(s, JoinParts(a, b), u)
  {
    if s.inCollection {
      var last := |s.collections| - 1;
      assert s.collections[last].entries + a.entries + b.entries == s.collections[last].entries + (a.entries + b.entries);
    } else {
      assert s.rules + a.rules + b.rules == s.rules + (a.rules + b.rules);
      assert s.collections + a.collections + b.collections == s.collections + (a.collections + b.collections);
    }
  }

  /** The machine did what the meaning says. */
  predicate Follows(s: State, m: Result<Parts, ParseError>, r: Result<State, ParseError>) {
    match m
    case Failure(e) => r == Failure(e)
    case Success(p) => r.Success? && Grown(s, p, r.value)
  }

  /** An element outside rules that starts no rule. */
  lemma StartsOutside(s: State, tag: string, attributes: Attributes, empty: bool, accepts: Schema)
    requires Outside(s)
    ensures var name := ToLowerAscii(tag);
            var r := OnElement(s, tag, attributes, empty, accepts);
      match RoleOf(name)
      case RuleTag => true
      case CollectionTag => r == OnCollection(s, attributes, empty, accepts)
      case EntryTag => r == OnEntry(s, empty)
      case RuleContent => r == Failure(OutsideRule(name))
      case Through => r == if name == "client" && !accepts(name, attributes) then Failure(BadAttributes(name)) else Success(s)
  {}

  lemma EndsOutside(s: State, tag: string)
    requires Sound(s) && RoleOf(ToLowerAscii(tag)) == Through
    ensures var r := OnEndElement(s, tag);
      r.Success? && r.value == s.(rootClosed := r.value.rootClosed)
  {}

  /** The text of an entry piles up character data by character data. */
  lemma {:induction false} TextRuns(forest: seq<Xml>, s: State, accepts: Schema)
    requires AllChars(forest) && Sound(s) && s.inEntry
    ensures Run(Events(forest), s, accepts) == Success(s.(entryText := s.entryText + TextOf(forest)))
  {
    if forest == [] {
      assert s.entryText + "" == s.entryText;
    } else {
      var text := forest[0].text;
      RunAppend([Text(text)], Events(forest[1..]), s, accepts);
      RunOne(Text(text), s, accepts);
      TextRuns(forest[1..], s.(entryText := s.entryText + text), accepts);
      assert s.entryText + text + TextOf(forest[1..]) == s.entryText + (text + TextOf(forest[1..]));
    }
  }

  lemma EntryRuns(x: Xml, s: State, accepts: Schema)
    requires Outside(s) && s.inCollection && !x.Chars? && RoleOf(ToLowerAscii(x.name)) == EntryTag
    requires x.Tagged? ==> AllChars(x.children)
    ensures Follows(s, PartMeaning(x, true, accepts), Run(NodeEvents(x), s, accepts))
  {
    StartsOutside(s, x.name, x.attributes, x.EmptyTag?, accepts);
    if x.EmptyTag? {
      RunEmptyTag(x, s, accepts);
    } else {
      RunTagged(x, s, accepts);
      TextRuns(x.children, s.(inEntry := true, entryText := ""), accepts);
      assert "" + TextOf(x.children) == TextOf(x.children);
    }
  }

  lemma {:induction false} CollectionRuns(x: Xml, s: State, accepts: Schema)
    requires BetweenRules(s) && !x.Chars? && RoleOf(ToLowerAscii(x.name)) == CollectionTag && Plain(x, false)
    ensures Follows(s, PartMeaning(x, false, accepts), Run(NodeEvents(x), s, accepts))
    decreases x, 0
  {
    StartsOutside(s, x.name, x.attributes, x.EmptyTag?, accepts);
    if x.EmptyTag? {
      RunEmptyTag(x, s, accepts);
    } else {
      RunTagged(x, s, accepts);
      if accepts("collection", x.attributes) {
        var begun := s.(collections := s.collections + [Collection(x.attributes, [])], inCollection := true);
        PartsRun(x.children, begun, accepts);
        var inner, body := PartsMeaning(x.children, true, accepts), Run(Events(x.children), begun, accepts);
        if inner.Success? {
          CollectionCloses(s, x.attributes, inner.value, body.value, x.name);
        }
      }
    }
  }

  lemma CollectionCloses(s: State, attributes: Attributes, p: Parts, body: State, tag: string)
    requires BetweenRules(s) && ToLowerAscii(tag) == "collection"
    requires Grown(s.(collections := s.collections + [Collection(attributes, [])], inCollection := true), p, body)
    ensures var r := OnEndElement(body, tag);
      r.Success? && Grown(s, Parts([], [Collection(attributes, p.entries)], []), r.value)
  {
    assert [] + p.entries == p.entries;
    assert body.collections == s.collections + [Collection(attributes, p.entries)];
    assert OnEndElement(body, tag) == Success(body.(inCollection := false));
  }

  /** Outside rules too the machine computes the recursive meaning, error for error. */
  lemma {:induction false} PartRuns(x: Xml, s: State, accepts: Schema)
    requires Outside(s) && Plain(x, s.inCollection)
    ensures Follows(s, PartMeaning(x, s.inCollection, accepts), Run(NodeEvents(x), s, accepts))
    decreases x, 1
  {
    if x.Chars? {
      RunOne(Text(x.text), s, accepts);
      GrownByNothing(s, s);
      return;
    }
    StartsOutside(s, x.name, x.attributes, x.EmptyTag?, accepts);
    match RoleOf(ToLowerAscii(x.name)) {
      case RuleTag => RuleRuns(x, s, accepts);
      case CollectionTag => CollectionRuns(x, s, accepts);
      case EntryTag => if s.inCollection { EntryRuns(x, s, accepts); } else { FirstTagDecides(x, s, accepts); }
      case RuleContent => FirstTagDecides(x, s, accepts);
      case Through => ThroughRuns(x, s, accepts);
    }
  }

  lemma FirstTagDecides(x: Xml, s: State, accepts: Schema)
    requires Sound(s) && !x.Chars? && OnElement(s, x.name, x.attributes, x.EmptyTag?, accepts).Failure?
    ensures Run(NodeEvents(x), s, accepts) == OnElement(s, x.name, x.attributes, x.EmptyTag?, accepts)
  {
    if x.EmptyTag? {
      RunEmptyTag(x, s, accepts);
    } else {
      RunTagged(x, s, accepts);
    }
  }

  lemma {:induction false} ThroughRuns(x: Xml, s: State, accepts: Schema)
    requires Outside(s) && !x.Chars? && RoleOf(ToLowerAscii(x.name)) == Through && Plain(x, s.inCollection)
    ensures Follows(s, PartMeaning(x, s.inCollection, accepts), Run(NodeEvents(x), s, accepts))
    decreases x, 0
  {
    StartsOutside(s, x.name, x.attributes, x.EmptyTag?, accepts);
    GrownByNothing(s, s);
    if x.EmptyTag? {
      RunEmptyTag(x, s, accepts);
    } else {
      RunTagged(x, s, accepts);
      if OnElement(s, x.name, x.attributes, false, accepts).Success? {
        PartsRun(x.children, s, accepts);
        var body := Run(Events(x.children), s, accepts);
        if body.Success? {
          EndsOutside(body.value, x.name);
        }
      }
    }
  }

  lemma {:induction false} PartsRun(forest: seq<Xml>, s: State, accepts: Schema)
    requires Outside(s) && AllPlain(forest, s.inCollection)
    ensures Follows(s, PartsMeaning(forest, s.inCollection, accepts), Run(Events(forest), s, accepts))
    decreases forest, 0
  {
    if forest == [] {
      GrownByNothing(s, s);
    } else {
      RunAppend(NodeEvents(forest[0]), Events(forest[1..]), s, accepts);
      PartRuns(forest[0], s, accepts);
      var first := PartMeaning(forest[0], s.inCollection, accepts);
      if first.Success? {
        var t := Run(NodeEvents(forest[0]), s, accepts).value;
        PartsRun(forest[1..], t, accepts);
        var rest := PartsMeaning(forest[1..], s.inCollection, accepts);
        if rest.Success? {
          GrownTwice(s, first.value, t, rest.value, Run(Events(forest[1..]), t, accepts).value);
        }
      }
    }
  }

  /** What a document means, by its root element: one without content is never closed. */
  function RootMeaning(root: Xml, accepts: Schema): Result<Document, ParseError>
    requires !root.Chars? && (root.Tagged? ==> AllPlain(root.children, false))
  {
    if ToLowerAscii(root.name) != "esptool" then Failure(WrongRoot)
    else if root.EmptyTag? then Failure(RootNotClosed)
    else
      var m := PartsMeaning(root.children, false, accepts);
      if m.Failure? then Failure(m.error) else Success(Document(m.value.rules, m.value.collections))
  }

  /** A document parses to its meaning, error for error. */
  lemma DocumentParses(root: Xml, accepts: Schema)
    requires !root.Chars? && (root.Tagged? ==> AllPlain(root.children, false))
    ensures ParseEvents(NodeEvents(root), true, accepts) == RootMeaning(root, accepts)
  {
    RootTag(root.name, root.attributes, root.EmptyTag?, accepts);
    if ToLowerAscii(root.name) != "esptool" {
      FirstTagDecides(root, START, accepts);
    } else if root.EmptyTag? {
      RunEmptyTag(root, START, accepts);
    } else {
      RunTagged(root, START, accepts);
      PartsRun(root.children, ROOTED, accepts);
      var body := Run(Events(root.children), ROOTED, accepts);
      if body.Success? {
        RootCloses(body.value, root.name);
        FromTheRoot(PartsMeaning(root.children, false, accepts).value, body.value);
      }
    }
  }

  /** The state after the root's start tag. */
  const ROOTED := State([], [], [], false, [], false, false, "", true, false)

  lemma RootTag(tag: string, attributes: Attributes, empty: bool, accepts: Schema)
    ensures OnElement(START, tag, attributes, empty, accepts)
            == if ToLowerAscii(tag) != "esptool" then Failure(WrongRoot) else Success(ROOTED)
  {}

  lemma FromTheRoot(p: Parts, end: State)
    requires Grown(ROOTED, p, end)
    ensures end.rules == p.rules && end.collections == p.collections && !end.inRule
  {
    assert [] + p.rules == p.rules && [] + p.collections == p.collections;
  }

  lemma RootCloses(s: State, tag: string)
    requires Sound(s) && ToLowerAscii(tag) == "esptool"
    ensures OnEndElement(s, tag) == Success(s.(rootClosed := true))
  {}

  // ---------------------------------------------------------------- elements in the wrong place

  /** What belongs into a rule is refused outside of one, and an entry outside of a collection. */
  lemma RefusedOutside(x: Xml, accepts: Schema)
    requires !x.Chars? && Plain(x, false)
    ensures var name, m := ToLowerAscii(x.name), PartMeaning(x, false, accepts);
      && (name in {"query", "filter", "and", "or", "xor", "not"} ==> m == Failure(OutsideRule(name)))
      && (name == "entry" ==> m == Failure(EntryOutsideCollection))
      && (name in {"client", "rule", "collection"} && !accepts(name, x.attributes) ==> m == Failure(BadAttributes(name)))
  {}

  /** And what belongs outside is refused in a rule, whatever it holds. */
  lemma RefusedInside(x: Xml, depth: nat, accepts: Schema)
    requires !x.Chars?
    ensures var name, m := ToLowerAscii(x.name), NodeMeaning(x, depth, accepts);
      && (name == "rule" ==> m == Failure(NestedRule))
      && (name in {"collections", "collection"} ==> m == Failure(InsideRule(name)))
      && (name == "entry" ==> m == Failure(EntryOutsideCollection))
      && (name in {"and", "or", "xor", "not"} && depth >= 16 ==> m == Failure(TooDeep))
      && (name in {"client", "query"} && !accepts(name, x.attributes) ==> m == Failure(BadAttributes(name)))
  {}

  /** The combinators are these four. */
  lemma CombinatorTags(name: string)
    ensures KindFromTag(name) ==
      if name == "and" then Some(And) else if name == "or" then Some(Or) else if name == "xor" then Some(Xor)
      else if name == "not" then Some(Not) else None
  {}
}
