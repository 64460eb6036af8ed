/** Printing a filter tree as XML, and reading it back through the parser. */
module RulePrinting {
  import opened Wrappers
  import opened StrHelpers
  import opened RuleDocument
  import opened RuleParser
  import opened RuleMeaning
  import opened DocumentMeaning

  function Tag(kind: FilterKind): string {
    match kind case And => "and" case Or => "or" case Xor => "xor" case Not => "not"
  }

  function LeafAttributes(f: LeafFields): Attributes {
    [("type", SignedDecimal(f.ctor as int)), ("comparand", SignedDecimal(f.comparand as int)),
     ("operand", Decimal(f.operand as nat)), ("property", Decimal(f.propertyId as nat)),
     ("propertyname", f.propertyName), ("op", f.opName), ("value", f.value), ("collection", f.collectionName)]
  }

  function Printed(node: FilterNode): Xml
    decreases node, 1
  {
    match node
    case Leaf(fields) => EmptyTag("filter", LeafAttributes(fields))
    case Combine(kind, children) => Tagged(Tag(kind), [], PrintedAll(children))
  }

  function PrintedAll(nodes: seq<FilterNode>): seq<Xml>
    decreases nodes, 0
  {
    if nodes == [] then [] else [Printed(nodes[0])] + PrintedAll(nodes[1..])
  }

  /** How deep combinators are nested. */
  function Nesting(node: FilterNode): nat
    decreases node, 1
  {
    match node
    case Leaf(_) => 0
    case Combine(_, children) => 1 + NestingOfAll(children)
  }

  function NestingOfAll(nodes: seq<FilterNode>): nat
    decreases nodes, 0
  {
    if nodes == [] then 0
    else
      var first, rest := Nesting(nodes[0]), NestingOfAll(nodes[1..]);
      if first > rest then first else rest
  }

  /** What reading a leaf back does to it: a collection name implies the collection comparand. */
  function Implied(f: LeafFields): LeafFields {
    if f.collectionName != "" && f.comparand == 0 then f.(comparand := COMPARAND_COLLECTION) else f
  }

  function ImpliedNode(node: FilterNode): FilterNode
    decreases node, 1
  {
    match node
    case Leaf(fields) => Leaf(Implied(fields))
    case Combine(kind, children) => Combine(kind, ImpliedAll(children))
  }

  function ImpliedAll(nodes: seq<FilterNode>): (r: seq<FilterNode>)
    ensures |r| == |nodes|
    decreases nodes, 0
  {
    if nodes == [] then [] else [ImpliedNode(nodes[0])] + ImpliedAll(nodes[1..])
  }

  /** Every collection leaf names its comparand. */
  predicate Explicit(node: FilterNode)
    decreases node, 1
  {
    match node
    case Leaf(fields) => fields.collectionName != "" ==> fields.comparand != 0
    case Combine(_, children) => ExplicitAll(children)
  }

  predicate ExplicitAll(nodes: seq<FilterNode>)
    decreases nodes, 0
  {
    nodes == [] || (Explicit(nodes[0]) && ExplicitAll(nodes[1..]))
  }

  lemma {:induction false} ExplicitIsUnchanged(node: FilterNode)
    ensures ImpliedNode(node) == node <==> Explicit(node)
    decreases node, 1
  {
    if node.Combine? {
      ExplicitAllIsUnchanged(node.children);
    }
  }

  lemma {:induction false} ExplicitAllIsUnchanged(nodes: seq<FilterNode>)
    ensures ImpliedAll(nodes) == nodes <==> ExplicitAll(nodes)
    decreases nodes, 0
  {
    if nodes != [] {
      ExplicitIsUnchanged(nodes[0]);
      ExplicitAllIsUnchanged(nodes[1..]);
      assert nodes == [nodes[0]] + nodes[1..];
      assert ImpliedAll(nodes)[0] == ImpliedNode(nodes[0]) && ImpliedAll(nodes)[1..] == ImpliedAll(nodes[1..]);
    }
  }

  lemma LowerTags()
    ensures ToLowerAscii("filter") == "filter" && ToLowerAscii("rule") == "rule"
    ensures ToLowerAscii("and") == "and" && ToLowerAscii("or") == "or"
    ensures ToLowerAscii("xor") == "xor" && ToLowerAscii("not") == "not"
  {}

  lemma TagReadsBack(kind: FilterKind)
    ensures ToLowerAscii(Tag(kind)) == Tag(kind) && KindFromTag(Tag(kind)) == Some(kind)
    ensures Tag(kind) !in ["client", "rule", "collections", "collection", "entry", "query", "filter", "esptool"]
  {
    LowerTags();
  }

  lemma {:induction false} FindFirst(attributes: Attributes, k: nat)
    requires k < |attributes| && ToLowerAscii(attributes[k].0) == attributes[k].0
    requires forall j :: 0 <= j < k ==> ToLowerAscii(attributes[j].0) != attributes[k].0
    ensures Find(attributes, attributes[k].0) == Some(attributes[k].1)
  {
    if k > 0 {
      FindFirst(attributes[1..], k - 1);
    }
  }

  lemma LowerAttributeNames()
    ensures ToLowerAscii("type") == "type" && ToLowerAscii("comparand") == "comparand"
    ensures ToLowerAscii("operand") == "operand" && ToLowerAscii("property") == "property"
    ensures ToLowerAscii("propertyname") == "propertyname" && ToLowerAscii("op") == "op"
    ensures ToLowerAscii("value") == "value" && ToLowerAscii("collection") == "collection"
  {}

  lemma AttributeNamesDiffer(f: LeafFields, j: nat, k: nat)
    requires j < k < 8
    ensures LeafAttributes(f)[j].0 != LeafAttributes(f)[k].0
  {
    var names := ["type", "comparand", "operand", "property", "propertyname", "op", "value", "collection"];
    assert LeafAttributes(f)[j].0 == names[j] && LeafAttributes(f)[k].0 == names[k];
    assert |names[j]| != |names[k]|;
  }

  lemma PrintedAttribute(f: LeafFields, k: nat)
    requires k < 8
    ensures Find(LeafAttributes(f), LeafAttributes(f)[k].0) == Some(LeafAttributes(f)[k].1)
  {
    LowerAttributeNames();
    var a := LeafAttributes(f);
    forall j | 0 <= j < k ensures ToLowerAscii(a[j].0) != a[k].0 {
      assert ToLowerAscii(a[j].0) == a[j].0;
      AttributeNamesDiffer(f, j, k);
    }
    FindFirst(a, k);
  }

  lemma PrintedTexts(f: LeafFields)
    ensures var a := LeafAttributes(f);
            Find(a, "type") == Some(SignedDecimal(f.ctor as int)) && Find(a, "comparand") == Some(SignedDecimal(f.comparand as int))
            && Find(a, "operand") == Some(Decimal(f.operand as nat)) && Find(a, "property") == Some(Decimal(f.propertyId as nat))
            && Get(a, "propertyname") == f.propertyName && Get(a, "op") == f.opName
            && Get(a, "value") == f.value && Get(a, "collection") == f.collectionName
  {
    PrintedAttribute(f, 0);
    PrintedAttribute(f, 1);
    PrintedAttribute(f, 2);
    PrintedAttribute(f, 3);
    PrintedAttribute(f, 4);
    PrintedAttribute(f, 5);
    PrintedAttribute(f, 6);
    PrintedAttribute(f, 7);
  }

  lemma SignedReadsBack(a: Attributes, name: string, v: int32)
    requires Find(a, name) == Some(SignedDecimal(v as int))
    ensures Signed32(a, name) == Success(v)
  {
    SignedDecimalRoundTrip(v as int);
  }

  lemma UnsignedReadsBack(a: Attributes, name: string, v: nat, max: nat)
    requires Find(a, name) == Some(Decimal(v)) && v <= max
    ensures Unsigned(a, name, max) == Success(v)
  {
    DecimalRoundTrip(v);
  }

  /** A printed leaf reads back as itself, up to the implied comparand. */
  lemma LeafReadsBack(f: LeafFields)
    ensures LeafOf(LeafAttributes(f)) == Success(Implied(f))
  {
    var a := LeafAttributes(f);
    PrintedTexts(f);
    SignedReadsBack(a, "type", f.ctor);
    SignedReadsBack(a, "comparand", f.comparand);
    UnsignedReadsBack(a, "operand", f.operand as nat, MAX_U64);
    UnsignedReadsBack(a, "property", f.propertyId as nat, MAX_U32);
    NumbersMakeLeaf(a, f);
  }

  lemma NumbersMakeLeaf(a: Attributes, f: LeafFields)
    requires Signed32(a, "type") == Success(f.ctor) && Signed32(a, "comparand") == Success(f.comparand)
    requires Unsigned(a, "operand", MAX_U64) == Success(f.operand as nat)
    requires Unsigned(a, "property", MAX_U32) == Success(f.propertyId as nat)
    requires Get(a, "propertyname") == f.propertyName && Get(a, "op") == f.opName
    requires Get(a, "value") == f.value && Get(a, "collection") == f.collectionName
    ensures LeafOf(a) == Success(Implied(f))
  {}

  /** Room for `nesting` more combinators inside `depth` open ones. */
  predicate Fits(nesting: nat, depth: nat) {
    nesting == 0 || depth + nesting <= MAX_DEPTH
  }

  lemma JoinPrinted(a: FilterNode, rest: seq<FilterNode>)
    ensures Join(Body([a], [], false), Body(rest, [], false)) == Body([a] + rest, [], false)
  {}

  /** Reading a printed tree `depth` combinators deep: the tree again, or the depth error. */
  lemma {:induction false} PrintedNodeReadsBack(node: FilterNode, depth: nat, accepts: Schema)
    ensures NodeMeaning(Printed(node), depth, accepts)
            == if Fits(Nesting(node), depth)
               then Success(Body([ImpliedNode(node)], [], false)) else Failure(TooDeep)
    decreases node, 1
  {
    match node
    case Leaf(fields) =>
      LowerTags();
      LeafReadsBack(fields);
    case Combine(kind, children) =>
      TagReadsBack(kind);
      if depth < MAX_DEPTH {
        PrintedAllReadBack(children, depth + 1, accepts);
      }
  }

  lemma {:induction false} PrintedAllReadBack(nodes: seq<FilterNode>, depth: nat, accepts: Schema)
    ensures Meaning(PrintedAll(nodes), depth, accepts)
            == if Fits(NestingOfAll(nodes), depth)
               then Success(Body(ImpliedAll(nodes), [], false)) else Failure(TooDeep)
    decreases nodes, 0
  {
    if nodes != [] {
      PrintedNodeReadsBack(nodes[0], depth, accepts);
      PrintedAllReadBack(nodes[1..], depth, accepts);
      MeaningCons(Printed(nodes[0]), PrintedAll(nodes[1..]), depth, accepts);
      JoinPrinted(ImpliedNode(nodes[0]), ImpliedAll(nodes[1..]));
      assert Fits(NestingOfAll(nodes), depth)
        <==> Fits(Nesting(nodes[0]), depth) && Fits(NestingOfAll(nodes[1..]), depth);
    }
  }

  lemma MeaningCons(x: Xml, rest: seq<Xml>, depth: nat, accepts: Schema)
    ensures Meaning([x] + rest, depth, accepts)
            == var first, others := NodeMeaning(x, depth, accepts), Meaning(rest, depth, accepts);
               if first.Failure? then first else if others.Failure? then others else Success(Join(first.value, others.value))
  {
    var forest := [x] + rest;
    assert forest[0] == x && forest[1..] == rest;
  }

  /** A rule file that holds the printed tree as the body of one rule. */
  function PrintedDocument(rule: Attributes, filter: FilterNode): Xml {
    Tagged("esptool", [], [Tagged("rule", rule, [Printed(filter)])])
  }

  lemma OneRuleDocument(rule: Attributes, x: Xml, accepts: Schema)
    requires accepts("rule", rule)
    ensures ParseEvents(NodeEvents(Tagged("esptool", [], [Tagged("rule", rule, [x])])), true, accepts)
            == var m := NodeMeaning(x, 0, accepts);
               if m.Failure? then Failure(m.error)
               else Success(Document([Rule(rule, m.value.queries, Finalize(m.value.nodes))], []))
  {
    var item, root := Tagged("rule", rule, [x]), Tagged("esptool", [], [Tagged("rule", rule, [x])]);
    OneRuleNames(item, root);
    OneRuleMeaning(item, accepts);
    DocumentParses(root, accepts);
    OneNodeRule(rule, x, accepts);
  }

  lemma OneRuleNames(item: Xml, root: Xml)
    requires item.Tagged? && item.name == "rule" && root.Tagged? && root.name == "esptool"
    ensures IsRule(item) && ToLowerAscii(root.name) == "esptool"
  {
    LowerTags();
  }

  lemma OneNodeRule(rule: Attributes, x: Xml, accepts: Schema)
    requires accepts("rule", rule) && IsRule(Tagged("rule", rule, [x]))
    ensures RuleOf(Tagged("rule", rule, [x]), accepts)
            == var m := NodeMeaning(x, 0, accepts);
               if m.Failure? then Failure(m.error) else Success(Rule(rule, m.value.queries, Finalize(m.value.nodes)))
  {
    MeaningCons(x, [], 0, accepts);
    assert [x] + [] == [x];
    var m := NodeMeaning(x, 0, accepts);
    if m.Success? {
      assert Join(m.value, NOTHING) == m.value;
    }
  }

  lemma OneRuleMeaning(item: Xml, accepts: Schema)
    requires IsRule(item)
    ensures Plain(item, false) && AllPlain([item], false)
    ensures PartsMeaning([item], false, accepts)
            == var r := RuleOf(item, accepts);
               if r.Failure? then Failure(r.error) else Success(Parts([r.value], [], []))
  {
    assert [item][1..] == [];
    assert PartsMeaning([], false, accepts) == Success(NO_PARTS);
    var r := RuleOf(item, accepts);
    if r.Success? {
      var own := Parts([r.value], [], []);
      assert PartMeaning(item, false, accepts) == Success(own);
      assert JoinParts(own, NO_PARTS) == own;
    } else {
      assert PartMeaning(item, false, accepts) == Failure(r.error);
    }
  }

  /** Printing and parsing: the tree comes back with its implied comparands when combinators are
      nested at most 16 deep, and is rejected as too deep otherwise. */
  lemma PrintedDocumentParses(rule: Attributes, filter: FilterNode, accepts: Schema)
    requires accepts("rule", rule)
    ensures ParseEvents(NodeEvents(PrintedDocument(rule, filter)), true, accepts)
            == if Nesting(filter) <= MAX_DEPTH
               then Success(Document([Rule(rule, [], ImpliedNode(filter))], [])) else Failure(TooDeep)
  {
    OneRuleDocument(rule, Printed(filter), accepts);
    PrintedNodeReadsBack(filter, 0, accepts);
  }

  /** The round trip is the identity exactly on the trees that are nested at most 16 deep and
      whose collection leaves name their comparand. */
  lemma PrintThenParse(rule: Attributes, filter: FilterNode, accepts: Schema)
    requires accepts("rule", rule)
    ensures ParseEvents(NodeEvents(PrintedDocument(rule, filter)), true, accepts)
            == Success(Document([Rule(rule, [], filter)], []))
            <==> Nesting(filter) <= MAX_DEPTH && Explicit(filter)
  {
    PrintedDocumentParses(rule, filter, accepts);
    ExplicitIsUnchanged(filter);
  }
}
