/** When compiling a predicate tree keeps its meaning (esptool/src/esp/EspFilterBuild.cpp): over
    trees whose leaves are all different calls, exactly if nothing is cut. */
module FilterArity {
  import opened RuleDocument
  import opened EspFilterBuild

  /** Every combinator has enough children, also among those that are not sent. */
  predicate FullyBuildable(node: FilterNode)
    decreases node, 1
  {
    match node
    case Leaf(fields) => LeafCallable(fields)
    case Combine(kind, children) =>
      (if kind == Not then |children| == 1 else |children| >= 2) && AllBuildable(children)
  }

  predicate AllBuildable(nodes: seq<FilterNode>)
    decreases nodes, 0
  {
    nodes == [] || (FullyBuildable(nodes[0]) && AllBuildable(nodes[1..]))
  }

  function Leaves(node: FilterNode): set<LeafCall>
    decreases node, 1
  {
    match node
    case Leaf(fields) => {CallOf(fields)}
    case Combine(_, children) => LeavesOf(children)
  }

  function LeavesOf(nodes: seq<FilterNode>): set<LeafCall>
    decreases nodes, 0
  {
    if nodes == [] then {} else Leaves(nodes[0]) + LeavesOf(nodes[1..])
  }

  /** No two leaves are the same call. */
  predicate DistinctLeaves(node: FilterNode)
    decreases node, 1
  {
    match node
    case Leaf(_) => true
    case Combine(_, children) => AllDistinct(children)
  }

  predicate AllDistinct(nodes: seq<FilterNode>)
    decreases nodes, 0
  {
    nodes == [] || (DistinctLeaves(nodes[0]) && Leaves(nodes[0]) !! LeavesOf(nodes[1..]) && AllDistinct(nodes[1..]))
  }

  /** The valuation under which exactly these calls hold. */
  function Where(calls: set<LeafCall>): Valuation {
    call => call in calls
  }

  ghost predicate Agree(calls: set<LeafCall>, v: Valuation, w: Valuation) {
    forall c :: c in calls ==> v(c) == w(c)
  }

  lemma FirstChild(children: seq<FilterNode>)
    requires children != []
    ensures Leaves(children[0]) <= LeavesOf(children) && LeavesOf(children[1..]) <= LeavesOf(children)
    ensures AllBuildable(children) ==> FullyBuildable(children[0]) && AllBuildable(children[1..])
    ensures AllDistinct(children) ==>
      DistinctLeaves(children[0]) && AllDistinct(children[1..]) && Leaves(children[0]) !! LeavesOf(children[1..])
  {}

  lemma SecondChild(children: seq<FilterNode>)
    requires |children| >= 2
    ensures Leaves(children[1]) <= LeavesOf(children[1..])
    ensures AllBuildable(children) ==> FullyBuildable(children[1])
    ensures AllDistinct(children) ==> DistinctLeaves(children[1]) && Leaves(children[0]) !! Leaves(children[1])
  {
    FirstChild(children);
    assert children[1..][0] == children[1];
    FirstChild(children[1..]);
  }

  lemma {:induction false} FullyIsBuildable(node: FilterNode)
    requires FullyBuildable(node)
    ensures Buildable(node)
  {
    if node.Combine? {
      FirstChild(node.children);
      FullyIsBuildable(node.children[0]);
      if node.kind != Not {
        SecondChild(node.children);
        FullyIsBuildable(node.children[1]);
      }
    }
  }

  // ---------------------------------------------------------------- only the own leaves matter

  lemma {:induction false} HoldsAgrees(node: FilterNode, v: Valuation, w: Valuation)
    requires Agree(Leaves(node), v, w)
    ensures Holds(node, v) == Holds(node, w)
    decreases node, 1
  {
    if node.Combine? && node.children != [] {
      FirstChild(node.children);
      assert Leaves(node) == LeavesOf(node.children);
      HoldsAgrees(node.children[0], v, w);
      if node.kind != Not {
        HoldsFromAgrees(node.kind, Holds(node.children[0], v), node.children[1..], v, w);
      }
    }
  }

  lemma {:induction false} HoldsFromAgrees(kind: FilterKind, first: bool, rest: seq<FilterNode>, v: Valuation, w: Valuation)
    requires Agree(LeavesOf(rest), v, w)
    ensures HoldsFrom(kind, first, rest, v) == HoldsFrom(kind, first, rest, w)
    decreases rest, 0
  {
    if rest != [] {
      FirstChild(rest);
      HoldsAgrees(rest[0], v, w);
      HoldsFromAgrees(kind, Join(kind, first, Holds(rest[0], v)), rest[1..], v, w);
    }
  }

  lemma {:induction false} MatchesAgrees(node: FilterNode, v: Valuation, w: Valuation)
    requires Buildable(node) && Agree(Leaves(node), v, w)
    ensures Matches(Compiled(node), v) == Matches(Compiled(node), w)
  {
    if node.Combine? {
      FirstChild(node.children);
      assert Leaves(node) == LeavesOf(node.children);
      MatchesAgrees(node.children[0], v, w);
      if node.kind != Not {
        SecondChild(node.children);
        MatchesAgrees(node.children[1], v, w);
      }
    }
  }

  // ---------------------------------------------------------------- steering a tree

  /** The truth value that does not decide a combinator. */
  function Neutral(kind: FilterKind): bool {
    kind == And
  }

  /** Tree and object both have this value. */
  ghost predicate BothAre(node: FilterNode, v: Valuation, b: bool)
    requires Buildable(node)
  {
    Holds(node, v) == b && Matches(Compiled(node), v) == b
  }

  lemma BothAgrees(node: FilterNode, v: Valuation, w: Valuation, b: bool)
    requires Buildable(node) && Agree(Leaves(node), v, w) && BothAre(node, v, b)
    ensures BothAre(node, w, b)
  {
    HoldsAgrees(node, v, w);
    MatchesAgrees(node, v, w);
  }

  ghost predicate AllBoth(nodes: seq<FilterNode>, v: Valuation, b: bool)
    requires AllBuildable(nodes)
    decreases nodes
  {
    nodes == [] || (FullyBuildable(nodes[0]) && (FullyIsBuildable(nodes[0]); BothAre(nodes[0], v, b)) && AllBoth(nodes[1..], v, b))
  }

  lemma {:induction false} AllBothAgrees(nodes: seq<FilterNode>, v: Valuation, w: Valuation, b: bool)
    requires AllBuildable(nodes) && Agree(LeavesOf(nodes), v, w) && AllBoth(nodes, v, b)
    ensures AllBoth(nodes, w, b)
  {
    if nodes != [] {
      FirstChild(nodes);
      FullyIsBuildable(nodes[0]);
      BothAgrees(nodes[0], v, w, b);
      AllBothAgrees(nodes[1..], v, w, b);
    }
  }

  lemma {:induction false} NeutralRest(kind: FilterKind, first: bool, rest: seq<FilterNode>, v: Valuation)
    requires kind != Not && AllBuildable(rest) && AllBoth(rest, v, Neutral(kind))
    ensures HoldsFrom(kind, first, rest, v) == first
  {
    if rest != [] {
      assert Join(kind, first, Neutral(kind)) == first;
      NeutralRest(kind, first, rest[1..], v);
    }
  }

  /** Both value and object of a tree can be steered to either truth value by its own leaves. */
  lemma {:induction false} Steer(node: FilterNode, b: bool) returns (calls: set<LeafCall>)
    requires FullyBuildable(node) && DistinctLeaves(node)
    ensures calls <= Leaves(node) && Buildable(node) && BothAre(node, Where(calls), b)
    decreases node, 1
  {
    FullyIsBuildable(node);
    match node
    case Leaf(fields) =>
      calls := if b then {CallOf(fields)} else {};
    case Combine(kind, children) =>
      FirstChild(children);
      if kind == Not {
        calls := Steer(children[0], !b);
      } else {
        calls := SteerFirst(children, b, Neutral(kind));
        NeutralRest(kind, b, children[1..], Where(calls));
        SecondIs(children, Where(calls), Neutral(kind));
      }
  }

  lemma SecondIs(children: seq<FilterNode>, v: Valuation, e: bool)
    requires |children| >= 2 && AllBuildable(children) && AllBoth(children[1..], v, e)
    ensures Buildable(children[1]) && BothAre(children[1], v, e)
  {
    SecondChild(children);
    assert children[1..][0] == children[1];
    FullyIsBuildable(children[1]);
  }

  /** The first of a list to one value, all others to another. */
  lemma {:induction false} SteerFirst(nodes: seq<FilterNode>, b: bool, e: bool) returns (calls: set<LeafCall>)
    requires nodes != [] && AllBuildable(nodes) && AllDistinct(nodes)
    ensures calls <= LeavesOf(nodes) && Buildable(nodes[0]) && BothAre(nodes[0], Where(calls), b)
    ensures AllBoth(nodes[1..], Where(calls), e)
    decreases nodes, 0
  {
    FirstChild(nodes);
    FullyIsBuildable(nodes[0]);
    var first := Steer(nodes[0], b);
    var rest := SteerAll(nodes[1..], e);
    calls := first + rest;
    BothAgrees(nodes[0], Where(first), Where(calls), b);
    AllBothAgrees(nodes[1..], Where(rest), Where(calls), e);
  }

  lemma {:induction false} SteerAll(nodes: seq<FilterNode>, e: bool) returns (calls: set<LeafCall>)
    requires AllBuildable(nodes) && AllDistinct(nodes)
    ensures calls <= LeavesOf(nodes) && AllBoth(nodes, Where(calls), e)
    decreases nodes, 1
  {
    if nodes == [] {
      calls := {};
    } else {
      FirstChild(nodes);
      calls := SteerFirst(nodes, e, e);
    }
  }

  // ---------------------------------------------------------------- telling tree and object apart

  ghost predicate Differs(node: FilterNode, v: Valuation)
    requires Buildable(node)
  {
    Holds(node, v) != Matches(Compiled(node), v)
  }

  /** A third child that decides: the object does not see it. */
  lemma ThirdDecides(kind: FilterKind, children: seq<FilterNode>) returns (calls: set<LeafCall>)
    requires kind != Not && |children| > 2 && AllBuildable(children) && AllDistinct(children)
    ensures calls <= LeavesOf(children) && Buildable(Combine(kind, children)) && Differs(Combine(kind, children), Where(calls))
  {
    var e := Neutral(kind);
    var tail := children[1..];
    var more := tail[1..];
    assert tail[0] == children[1] && more[0] == children[2];
    FirstChild(children);
    FirstChild(tail);
    FirstChild(more);
    FullyIsBuildable(children[0]);
    FullyIsBuildable(tail[0]);
    FullyIsBuildable(more[0]);
    var c0 := Steer(children[0], e);
    var c1 := Steer(tail[0], e);
    var c2 := SteerFirst(more, !e, e);
    calls := c0 + (c1 + c2);
    var v := Where(calls);
    BothAgrees(children[0], Where(c0), v, e);
    BothAgrees(tail[0], Where(c1), v, e);
    BothAgrees(more[0], Where(c2), v, !e);
    AllBothAgrees(more[1..], Where(c2), v, e);
    NeutralRest(kind, !e, more[1..], v);
    assert Join(kind, e, e) == e && Join(kind, e, !e) == !e;
    assert HoldsFrom(kind, e, tail, v) == HoldsFrom(kind, e, more, v) == HoldsFrom(kind, !e, more[1..], v);
  }

  /** If something is cut anywhere, some valuation tells the object from the tree. */
  lemma {:induction false} Separate(node: FilterNode) returns (calls: set<LeafCall>)
    requires FullyBuildable(node) && DistinctLeaves(node) && Buildable(node) && !ExactArity(node)
    ensures calls <= Leaves(node) && Differs(node, Where(calls))
  {
    var kind, children := node.kind, node.children;
    FirstChild(children);
    if kind == Not {
      calls := Separate(children[0]);
    } else if |children| > 2 {
      calls := ThirdDecides(kind, children);
    } else {
      var e := Neutral(kind);
      SecondChild(children);
      assert children[1..][0] == children[1] && children[1..][1..] == [];
      var c0, c1;
      if !ExactArity(children[0]) {
        c0 := Separate(children[0]);
        c1 := Steer(children[1], e);
      } else {
        c0 := Steer(children[0], e);
        c1 := Separate(children[1]);
      }
      calls := c0 + c1;
      var v := Where(calls);
      HoldsAgrees(children[0], Where(c0), v);
      MatchesAgrees(children[0], Where(c0), v);
      HoldsAgrees(children[1], Where(c1), v);
      MatchesAgrees(children[1], Where(c1), v);
      assert HoldsFrom(kind, Holds(children[0], v), children[1..], v) == Join(kind, Holds(children[0], v), Holds(children[1], v));
    }
  }

  /** Over trees of distinct leaves, compilation preserves meaning under every valuation exactly if
      every combinator has the number of children its constructor takes. */
  lemma PreservedExactlyWhen(node: FilterNode)
    requires FullyBuildable(node) && DistinctLeaves(node)
    ensures Buildable(node)
    ensures (forall v: Valuation :: Matches(Compiled(node), v) == Holds(node, v)) <==> ExactArity(node)
  {
    FullyIsBuildable(node);
    if ExactArity(node) {
      forall v: Valuation ensures Matches(Compiled(node), v) == Holds(node, v) {
        CompilationPreservesMeaning(node, v);
      }
    } else {
      var calls := Separate(node);
      assert Matches(Compiled(node), Where(calls)) != Holds(node, Where(calls));
    }
  }
}
