/** Compiling a predicate tree into constructor calls (esptool/src/esp/EspFilterBuild.cpp): what
    is built, and what it means.

    A filter object is known by the constructor calls that made it. `Holds` gives both a source
    tree and a compiled object a truth value for each valuation of the leaves. */
module EspFilterBuild {
  import opened Wrappers
  import opened StrHelpers
  import opened RuleDocument

  const TYPED_EXPORTS := 17

  /** The arguments of a typed constructor call. */
  datatype LeafCall = LeafCall(ctor: int, property: nat, comparand: int, value: string, collection: string)

  datatype DriverFilter =
    | Typed(call: LeafCall)
    | Both(kind: FilterKind, left: DriverFilter, right: DriverFilter)
    | Negated(child: DriverFilter)

  /** The property a leaf names: its own, or the low 32 bits of its operand. */
  function LeafProperty(f: LeafFields): nat {
    if f.propertyId != 0 then f.propertyId as nat else f.operand as nat % 0x1_0000_0000
  }

  /** The checks every leaf passes before its constructor is called. */
  predicate LeafCallable(f: LeafFields) {
    0 < f.ctor as int < TYPED_EXPORTS && LeafProperty(f) != 0
  }

  function CallOf(f: LeafFields): LeafCall {
    LeafCall(f.ctor as int, LeafProperty(f), f.comparand as int, f.value, f.collectionName)
  }

  /** The trees `CreateFilterTree` does not refuse on its own. */
  predicate Buildable(node: FilterNode) {
    match node
    case Leaf(fields) => LeafCallable(fields)
    case Combine(kind, children) =>
      if kind == Not then |children| == 1 && Buildable(children[0])
      else |children| >= 2 && Buildable(children[0]) && Buildable(children[1])
  }

  /** The constructor calls for a tree: only the first two children of a combinator are used. */
  function Compiled(node: FilterNode): DriverFilter
    requires Buildable(node)
  {
    match node
    case Leaf(fields) => Typed(CallOf(fields))
    case Combine(kind, children) =>
      if kind == Not then Negated(Compiled(children[0]))
      else Both(kind, Compiled(children[0]), Compiled(children[1]))
  }

  /** Which field goes to which argument of a constructor: the property a leaf names, or without one
      the low 32 bits of its operand; and which leaves have a constructor. */
  lemma LeafCallSays(f: LeafFields)
    ensures CallOf(f).ctor == f.ctor as int && CallOf(f).comparand == f.comparand as int
    ensures CallOf(f).value == f.value && CallOf(f).collection == f.collectionName
    ensures f.propertyId != 0 ==> CallOf(f).property == f.propertyId as nat
    ensures f.propertyId == 0 ==> CallOf(f).property == f.operand as nat % 0x1_0000_0000
    ensures LeafCallable(f) <==> 1 <= f.ctor as int <= 16 && CallOf(f).property != 0
  {}

  /** What is built, and which calls build it: a binary kind over its first two children, Not over
      its only one, each in its place. */
  lemma TreeCallsSay(kind: FilterKind, children: seq<FilterNode>)
    ensures var tree := Combine(kind, children);
      && (Buildable(tree) <==>
            if kind == Not then |children| == 1 && Buildable(children[0])
            else |children| >= 2 && Buildable(children[0]) && Buildable(children[1]))
      && (Buildable(tree) && kind == Not ==> Compiled(tree) == Negated(Compiled(children[0])))
      && (Buildable(tree) && kind != Not ==> Compiled(tree) == Both(kind, Compiled(children[0]), Compiled(children[1])))
  {}

  // ---------------------------------------------------------------- meaning

  type Valuation = LeafCall -> bool

  /** Two operands of a binary constructor. */
  function Join(kind: FilterKind, left: bool, right: bool): bool {
    match kind
    case And => left && right
    case Or => left || right
    case Xor => left != right
    case Not => !left
  }

  /** The binary constructors by their truth tables. */
  lemma JoinSays(a: bool, b: bool)
    ensures Join(And, a, b) <==> a && b
    ensures Join(Or, a, b) <==> a || b
    ensures Join(Xor, a, b) <==> (a && !b) || (b && !a)
  {}

  function Matches(f: DriverFilter, v: Valuation): bool {
    match f
    case Typed(call) => v(call)
    case Both(kind, left, right) => Join(kind, Matches(left, v), Matches(right, v))
    case Negated(child) => !Matches(child, v)
  }

  /** What a rule author means by a tree: every child of a combinator takes part. A combinator
      without children holds nowhere; the installer refuses it anyway. */
  function Holds(node: FilterNode, v: Valuation): bool
    decreases node, 1
  {
    match node
    case Leaf(fields) => v(CallOf(fields))
    case Combine(kind, children) =>
      if children == [] then false
      else if kind == Not then !Holds(children[0], v)
      else HoldsFrom(kind, Holds(children[0], v), children[1..], v)
  }

  function HoldsFrom(kind: FilterKind, first: bool, rest: seq<FilterNode>, v: Valuation): bool
    decreases rest, 0
  {
    if rest == [] then first else HoldsFrom(kind, Join(kind, first, Holds(rest[0], v)), rest[1..], v)
  }

  /** The tree with every combinator reduced to the children that are sent. */
  function Cut(node: FilterNode): FilterNode
    requires Buildable(node)
  {
    match node
    case Leaf(_) => node
    case Combine(kind, children) =>
      if kind == Not then Combine(Not, [Cut(children[0])])
      else Combine(kind, [Cut(children[0]), Cut(children[1])])
  }

  /** Every combinator has exactly the number of children its constructor takes. */
  predicate ExactArity(node: FilterNode)
    requires Buildable(node)
  {
    node.Leaf? ||
    if node.kind == Not then ExactArity(node.children[0])
    else |node.children| == 2 && ExactArity(node.children[0]) && ExactArity(node.children[1])
  }

  /** The compiled object matches exactly when the cut tree holds. */
  lemma {:induction false} CompiledMeansCut(node: FilterNode, v: Valuation)
    requires Buildable(node)
    ensures Matches(Compiled(node), v) == Holds(Cut(node), v)
  {
    if node.Combine? {
      CompiledMeansCut(node.children[0], v);
      if node.kind != Not {
        CompiledMeansCut(node.children[1], v);
        var left, right := Cut(node.children[0]), Cut(node.children[1]);
        var c := [left, right];
        assert c[1..] == [right];
        assert [right][1..] == [];
        assert HoldsFrom(node.kind, Holds(left, v), [right], v)
          == HoldsFrom(node.kind, Join(node.kind, Holds(left, v), Holds(right, v)), [], v);
      }
    }
  }

  lemma {:induction false} CutIsIdentity(node: FilterNode)
    requires Buildable(node)
    ensures Cut(node) == node <==> ExactArity(node)
  {
    if node.Combine? {
      CutIsIdentity(node.children[0]);
      if node.kind != Not {
        CutIsIdentity(node.children[1]);
        if |node.children| == 2 {
          assert node.children == [node.children[0], node.children[1]];
        }
      } else {
        assert node.children == [node.children[0]];
      }
    }
  }

  /** Compilation preserves meaning for every tree of exact arity, under every valuation. */
  lemma CompilationPreservesMeaning(node: FilterNode, v: Valuation)
    requires Buildable(node) && ExactArity(node)
    ensures Matches(Compiled(node), v) == Holds(node, v)
  {
    CompiledMeansCut(node, v);
    CutIsIdentity(node);
  }

  /** Two leaves that a valuation can tell apart give a three-way combinator its third child
      back: for every kind, some valuation separates the compiled object from the tree. */
  lemma ThirdChildIsLost(kind: FilterKind, a: LeafFields, b: LeafFields)
    requires kind != Not && LeafCallable(a) && LeafCallable(b) && CallOf(a) != CallOf(b)
    ensures var tree := Combine(kind, [Leaf(a), Leaf(a), Leaf(b)]);
            Buildable(tree)
            && exists v: Valuation :: Matches(Compiled(tree), v) != Holds(tree, v)
  {
    var tree := Combine(kind, [Leaf(a), Leaf(a), Leaf(b)]);
    var children := tree.children;
    assert children[1..] == [Leaf(a), Leaf(b)];
    assert children[1..][1..] == [Leaf(b)];
    assert children[1..][1..][1..] == [];
    // One leaf holds and the other does not.
    var v: Valuation := call => if call == CallOf(b) then kind != And else kind == And;
    var first := v(CallOf(a));
    assert Holds(tree, v) == HoldsFrom(kind, first, children[1..], v);
    assert Holds(Leaf(a), v) == first && Holds(Leaf(b), v) == v(CallOf(b));
    assert HoldsFrom(kind, first, children[1..], v)
        == HoldsFrom(kind, Join(kind, first, first), children[1..][1..], v);
    assert HoldsFrom(kind, Join(kind, first, first), children[1..][1..], v)
        == HoldsFrom(kind, Join(kind, Join(kind, first, first), v(CallOf(b))), [], v);
    assert Matches(Compiled(tree), v) == Join(kind, first, first);
  }
}
