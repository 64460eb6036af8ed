/** From a rule file to the object the driver holds: the parser (esptool/src/model/RuleParser.cpp)
    and the filter compiler (esptool/src/esp/EspFilterBuild.cpp) put together. */
module RuleToFilter {
  import opened Wrappers
  import opened RuleDocument
  import opened RuleParser
  import RM = RuleMeaning
  import RP = RulePrinting
  import FB = EspFilterBuild

  /** Every predicate of a rule body holds. */
  predicate AllHold(roots: seq<FilterNode>, v: FB.Valuation) {
    forall k :: 0 <= k < |roots| ==> FB.Holds(roots[k], v)
  }

  lemma {:induction false} ConjunctionHolds(first: bool, rest: seq<FilterNode>, v: FB.Valuation)
    ensures FB.HoldsFrom(And, first, rest, v) <==> first && AllHold(rest, v)
  {
    if rest != [] {
      ConjunctionHolds(first && FB.Holds(rest[0], v), rest[1..], v);
      assert AllHold(rest, v) <==> FB.Holds(rest[0], v) && AllHold(rest[1..], v) by {
        assert forall k :: 0 < k < |rest| ==> rest[k] == rest[1..][k - 1];
      }
    }
  }

  /** The implicit And means what the author of a rule body reads: all of its predicates. */
  lemma ImplicitAndMeansAll(roots: seq<FilterNode>, v: FB.Valuation)
    requires roots != []
    ensures FB.Holds(Finalize(roots), v) <==> AllHold(roots, v)
  {
    if |roots| > 1 {
      ConjunctionHolds(FB.Holds(roots[0], v), roots[1..], v);
      assert roots == [roots[0]] + roots[1..];
      assert AllHold(roots, v) <==> FB.Holds(roots[0], v) && AllHold(roots[1..], v) by {
        assert forall k :: 0 < k < |roots| ==> roots[k] == roots[1..][k - 1];
      }
    }
  }

  /** The driver's object of a rule with several top-level predicates looks at the first two of
      them only, so it never misses what the rule asks for but may match more. */
  lemma TopLevelPredicatesAreCut(roots: seq<FilterNode>, v: FB.Valuation)
    requires roots != [] && FB.Buildable(Finalize(roots))
    requires forall k :: 0 <= k < |roots| && k < 2 ==> FB.Buildable(roots[k]) && FB.ExactArity(roots[k])
    ensures FB.Matches(FB.Compiled(Finalize(roots)), v) <==> forall k :: 0 <= k < |roots| && k < 2 ==> FB.Holds(roots[k], v)
    ensures AllHold(roots, v) ==> FB.Matches(FB.Compiled(Finalize(roots)), v)
  {
    FB.CompilationPreservesMeaning(roots[0], v);
    if |roots| > 1 {
      FB.CompilationPreservesMeaning(roots[1], v);
    }
  }

  /** A printed tree, parsed and compiled, matches exactly when the tree holds. */
  lemma FileToDriver(rule: Attributes, filter: FilterNode, accepts: Schema, v: FB.Valuation)
    requires accepts("rule", rule)
    requires RP.Nesting(filter) <= MAX_DEPTH && RP.Explicit(filter)
    requires FB.Buildable(filter) && FB.ExactArity(filter)
    ensures var r := ParseEvents(RM.NodeEvents(RP.PrintedDocument(rule, filter)), true, accepts);
      r.Success? && |r.value.rules| == 1 && FB.Buildable(r.value.rules[0].filter)
      && FB.Matches(FB.Compiled(r.value.rules[0].filter), v) == FB.Holds(filter, v)
  {
    RP.PrintThenParse(rule, filter, accepts);
    FB.CompilationPreservesMeaning(filter, v);
  }
}
