/** Printing a whole rule file, collections with their entries and rules with their queries and their
    filter, and reading it back through the parser. */
module FilePrinting {
  import opened Wrappers
  import opened StrHelpers
  import opened RuleDocument
  import opened RuleParser
  import opened RuleMeaning
  import opened DocumentMeaning
  import opened RulePrinting

  // ---------------------------------------------------------------- the printer

  function PrintedQueries(queries: seq<Attributes>): seq<Xml> {
    if queries == [] then [] else [EmptyTag("query", queries[0])] + PrintedQueries(queries[1..])
  }

  function PrintedRule(rule: Rule): Xml {
    Tagged("rule", rule.attributes, PrintedQueries(rule.queries) + [Printed(rule.filter)])
  }

  function PrintedRules(rules: seq<Rule>): seq<Xml> {
    if rules == [] then [] else [PrintedRule(rules[0])] + PrintedRules(rules[1..])
  }

  function PrintedEntries(entries: seq<string>): seq<Xml> {
    if entries == [] then [] else [Tagged("entry", [], [Chars(entries[0])])] + PrintedEntries(entries[1..])
  }

  function PrintedCollections(collections: seq<Collection>): seq<Xml> {
    if collections == [] then []
    else
      var c := collections[0];
      [Tagged("collection", c.attributes, PrintedEntries(c.entries))] + PrintedCollections(collections[1..])
  }

  function PrintedFile(d: Document): Xml {
    Tagged("esptool", [], PrintedCollections(d.collections) + PrintedRules(d.rules))
  }

  /** The attributes of the document pass the schema. */
  predicate Accepted(d: Document, accepts: Schema) {
    && (forall c :: c in d.collections ==> accepts("collection", c.attributes))
    && (forall r :: r in d.rules ==> accepts("rule", r.attributes) && forall q :: q in r.queries ==> accepts("query", q))
  }

  predicate AllFit(rules: seq<Rule>) {
    forall r :: r in rules ==> Nesting(r.filter) <= 16
  }

  function ImpliedRules(rules: seq<Rule>): (r: seq<Rule>)
    ensures |r| == |rules|
  {
    seq(|rules|, k requires 0 <= k < |rules| => rules[k].(filter := ImpliedNode(rules[k].filter)))
  }

  // ---------------------------------------------------------------- lists of elements

  lemma PartsCons(x: Xml, rest: seq<Xml>, inCollection: bool, accepts: Schema)
    requires Plain(x, inCollection) && AllPlain(rest, inCollection)
    ensures AllPlain([x] + rest, inCollection)
    ensures PartsMeaning([x] + rest, inCollection, accepts)
      == var first, others := PartMeaning(x, inCollection, accepts), PartsMeaning(rest, inCollection, accepts);
         if first.Failure? then first else if others.Failure? then others else Success(JoinParts(first.value, others.value))
  {
    var forest := [x] + rest;
    assert forest[0] == x && forest[1..] == rest;
  }

  lemma {:induction false} PartsAppend(a: seq<Xml>, b: seq<Xml>, p: Parts, accepts: Schema)
    requires AllPlain(a, false) && AllPlain(b, false) && PartsMeaning(a, false, accepts) == Success(p)
    ensures AllPlain(a + b, false)
    ensures PartsMeaning(a + b, false, accepts)
      == var others := PartsMeaning(b, false, accepts);
         if others.Failure? then others else Success(JoinParts(p, others.value))
  {
    if a == [] {
      assert a + b == b;
      NothingJoins(b, accepts);
    } else {
      var x, rest := a[0], a[1..];
      assert a == [x] + rest && a + b == [x] + (rest + b);
      PartsCons(x, rest, false, accepts);
      var first, q := PartMeaning(x, false, accepts).value, PartsMeaning(rest, false, accepts).value;
      PartsAppend(rest, b, q, accepts);
      PartsCons(x, rest + b, false, accepts);
      if PartsMeaning(b, false, accepts).Success? {
        JoinThree(first, q, PartsMeaning(b, false, accepts).value);
      }
    }
  }

  lemma NothingJoins(b: seq<Xml>, accepts: Schema)
    requires AllPlain(b, false)
    ensures PartsMeaning(b, false, accepts).Success? ==>
      JoinParts(NO_PARTS, PartsMeaning(b, false, accepts).value) == PartsMeaning(b, false, accepts).value
  {
    if PartsMeaning(b, false, accepts).Success? {
      var p := PartsMeaning(b, false, accepts).value;
      assert [] + p.rules == p.rules && [] + p.collections == p.collections && [] + p.entries == p.entries;
    }
  }

  lemma JoinThree(a: Parts, b: Parts, c: Parts)
    ensures JoinParts(JoinParts(a, b), c) == JoinParts(a, JoinParts(b, c))
  {
    assert a.rules + b.rules + c.rules == a.rules + (b.rules + c.rules);
    assert a.collections + b.collections + c.collections == a.collections + (b.collections + c.collections);
    assert a.entries + b.entries + c.entries == a.entries + (b.entries + c.entries);
  }

  // ---------------------------------------------------------------- rules

  lemma FileTags()
    ensures ToLowerAscii("query") == "query" && ToLowerAscii("rule") == "rule"
    ensures ToLowerAscii("entry") == "entry" && ToLowerAscii("collection") == "collection" && ToLowerAscii("esptool") == "esptool"
  {}

  lemma QueryMeans(query: Attributes, accepts: Schema)
    requires accepts("query", query)
    ensures NodeMeaning(EmptyTag("query", query), 0, accepts) == Success(Body([], [query], false))
  {
    FileTags();
  }

  lemma {:induction false} QueriesMean(queries: seq<Attributes>, last: Xml, accepts: Schema)
    requires forall q :: q in queries ==> accepts("query", q)
    ensures Meaning(PrintedQueries(queries) + [last], 0, accepts)
      == var m := NodeMeaning(last, 0, accepts);
         if m.Failure? then m else Success(Body(m.value.nodes, queries + m.value.queries, m.value.endsRoot))
  {
    var m := NodeMeaning(last, 0, accepts);
    if queries == [] {
      assert PrintedQueries(queries) + [last] == [last] + [];
      MeaningCons(last, [], 0, accepts);
      if m.Success? {
        assert Join(m.value, NOTHING) == m.value;
        assert [] + m.value.queries == m.value.queries;
      }
    } else {
      var first, rest := EmptyTag("query", queries[0]), PrintedQueries(queries[1..]) + [last];
      assert PrintedQueries(queries) + [last] == [first] + rest;
      MeaningCons(first, rest, 0, accepts);
      QueryMeans(queries[0], accepts);
      QueriesMean(queries[1..], last, accepts);
      if m.Success? {
        QueryFirst(queries[0], queries[1..], m.value);
        assert [queries[0]] + queries[1..] == queries;
      }
    }
  }

  lemma QueryFirst(query: Attributes, queries: seq<Attributes>, b: Body)
    ensures Join(Body([], [query], false), Body(b.nodes, queries + b.queries, b.endsRoot))
      == Body(b.nodes, [query] + queries + b.queries, b.endsRoot)
  {
    assert [] + b.nodes == b.nodes;
    assert [query] + (queries + b.queries) == [query] + queries + b.queries;
  }

  lemma RuleReadsBack(rule: Rule, accepts: Schema)
    requires accepts("rule", rule.attributes) && forall q :: q in rule.queries ==> accepts("query", q)
    ensures IsRule(PrintedRule(rule))
    ensures RuleOf(PrintedRule(rule), accepts)
      == if Nesting(rule.filter) <= 16 then Success(rule.(filter := ImpliedNode(rule.filter))) else Failure(TooDeep)
  {
    FileTags();
    QueriesMean(rule.queries, Printed(rule.filter), accepts);
    PrintedNodeReadsBack(rule.filter, 0, accepts);
    assert rule.queries + [] == rule.queries;
  }

  lemma RulePart(rule: Rule, accepts: Schema)
    requires IsRule(PrintedRule(rule))
    ensures Plain(PrintedRule(rule), false)
    ensures PartMeaning(PrintedRule(rule), false, accepts)
      == var r := RuleOf(PrintedRule(rule), accepts);
         if r.Failure? then Failure(r.error) else Success(Parts([r.value], [], []))
  {}

  lemma {:induction false} RulesReadBack(rules: seq<Rule>, accepts: Schema)
    requires Accepted(Document(rules, []), accepts)
    ensures AllPlain(PrintedRules(rules), false)
    ensures PartsMeaning(PrintedRules(rules), false, accepts)
      == if AllFit(rules) then Success(Parts(ImpliedRules(rules), [], [])) else Failure(TooDeep)
  {
    if rules == [] {
      assert ImpliedRules(rules) == [];
    } else {
      var first, rest := rules[0], rules[1..];
      assert first in rules && forall r :: r in rest ==> r in rules;
      RulesReadBack(rest, accepts);
      RuleReadsBack(first, accepts);
      RulePart(first, accepts);
      PartsCons(PrintedRule(first), PrintedRules(rest), false, accepts);
      assert rules == [first] + rest;
      RulesCons(first, rest);
    }
  }

  lemma RulesCons(first: Rule, rest: seq<Rule>)
    ensures AllFit([first] + rest) <==> Nesting(first.filter) <= 16 && AllFit(rest)
    ensures JoinParts(Parts([first.(filter := ImpliedNode(first.filter))], [], []), Parts(ImpliedRules(rest), [], []))
      == Parts(ImpliedRules([first] + rest), [], [])
  {
    var rules := [first] + rest;
    assert forall r :: r in rules <==> r == first || r in rest;
    assert ImpliedRules(rules) == [first.(filter := ImpliedNode(first.filter))] + ImpliedRules(rest);
  }

  // ---------------------------------------------------------------- collections

  lemma EntryPart(text: string, accepts: Schema)
    ensures var x := Tagged("entry", [], [Chars(text)]);
      Plain(x, true) && PartMeaning(x, true, accepts) == Success(Parts([], [], [text]))
  {
    FileTags();
    var x := Tagged("entry", [], [Chars(text)]);
    assert RoleOf("entry") == EntryTag;
    assert x.children[1..] == [] && TextOf([]) == "" && text + "" == text;
  }

  lemma {:induction false} EntriesReadBack(entries: seq<string>, accepts: Schema)
    ensures AllPlain(PrintedEntries(entries), true)
    ensures PartsMeaning(PrintedEntries(entries), true, accepts) == Success(Parts([], [], entries))
  {
    if entries != [] {
      var x, rest := Tagged("entry", [], [Chars(entries[0])]), entries[1..];
      EntryPart(entries[0], accepts);
      EntriesReadBack(rest, accepts);
      PartsCons(x, PrintedEntries(rest), true, accepts);
      assert JoinParts(Parts([], [], [entries[0]]), Parts([], [], rest)) == Parts([], [], entries);
    }
  }

  lemma CollectionPart(c: Collection, accepts: Schema)
    requires accepts("collection", c.attributes)
    ensures var x := Tagged("collection", c.attributes, PrintedEntries(c.entries));
      Plain(x, false) && PartMeaning(x, false, accepts) == Success(Parts([], [c], []))
  {
    FileTags();
    assert RoleOf("collection") == CollectionTag;
    EntriesReadBack(c.entries, accepts);
  }

  lemma {:induction false} CollectionsReadBack(collections: seq<Collection>, accepts: Schema)
    requires Accepted(Document([], collections), accepts)
    ensures AllPlain(PrintedCollections(collections), false)
    ensures PartsMeaning(PrintedCollections(collections), false, accepts) == Success(Parts([], collections, []))
  {
    if collections != [] {
      var c, rest := collections[0], collections[1..];
      CollectionPart(c, accepts);
      CollectionsReadBack(rest, accepts);
      PartsCons(Tagged("collection", c.attributes, PrintedEntries(c.entries)), PrintedCollections(rest), false, accepts);
      assert JoinParts(Parts([], [c], []), Parts([], rest, [])) == Parts([], collections, []);
    }
  }

  // ---------------------------------------------------------------- files

  /** A printed file reads back: its collections with their entries and its rules with their queries,
      in order, each filter with its implied comparands; or it is rejected as too deep if a filter is
      nested deeper than 16. */
  lemma FileReadsBack(d: Document, accepts: Schema)
    requires Accepted(d, accepts)
    ensures ParseEvents(NodeEvents(PrintedFile(d)), true, accepts)
      == if AllFit(d.rules) then Success(Document(ImpliedRules(d.rules), d.collections)) else Failure(TooDeep)
  {
    var collections, rules := PrintedCollections(d.collections), PrintedRules(d.rules);
    CollectionsReadBack(d.collections, accepts);
    RulesReadBack(d.rules, accepts);
    PartsAppend(collections, rules, Parts([], d.collections, []), accepts);
    FileTags();
    DocumentParses(PrintedFile(d), accepts);
    assert [] + ImpliedRules(d.rules) == ImpliedRules(d.rules) && d.collections + [] == d.collections;
  }

  /** The round trip is the identity exactly on the files whose filters are nested at most 16 deep and
      name the comparand of every collection leaf. */
  lemma PrintThenParseFile(d: Document, accepts: Schema)
    requires Accepted(d, accepts)
    ensures ParseEvents(NodeEvents(PrintedFile(d)), true, accepts) == Success(d)
      <==> forall r :: r in d.rules ==> Nesting(r.filter) <= 16 && Explicit(r.filter)
  {
    FileReadsBack(d, accepts);
    forall k | 0 <= k < |d.rules| ensures ImpliedRules(d.rules)[k] == d.rules[k] <==> Explicit(d.rules[k].filter) {
      ExplicitIsUnchanged(d.rules[k].filter);
    }
    if AllFit(d.rules) {
      assert ImpliedRules(d.rules) == d.rules <==> forall k :: 0 <= k < |d.rules| ==> ImpliedRules(d.rules)[k] == d.rules[k];
    }
  }
}
