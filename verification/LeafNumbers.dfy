/** The numbers of a leaf (esptool/src/model/RuleParser.cpp): which texts they accept, with what value,
    and what becomes of a document that holds one they do not accept. */
module LeafNumbers {
  import opened Wrappers
  import opened StrHelpers
  import opened RuleDocument
  import opened RuleParser
  import opened RuleMeaning
  import opened RulePrinting

  /** The value of an attribute is that of the first one with its name, in any case of letters. */
  lemma {:induction false} FoundIsFirst(a: Attributes, name: string)
    ensures Find(a, name).None? ==> forall k :: 0 <= k < |a| ==> ToLowerAscii(a[k].0) != name
    ensures Find(a, name).Some? ==>
      exists k :: 0 <= k < |a| && ToLowerAscii(a[k].0) == name && a[k].1 == Find(a, name).value
        && forall j :: 0 <= j < k ==> ToLowerAscii(a[j].0) != name
  {
    if a != [] {
      FoundIsFirst(a[1..], name);
      if ToLowerAscii(a[0].0) == name {
        assert a[0].1 == Find(a, name).value;
      } else if Find(a, name).Some? {
        var k :| 0 <= k < |a| - 1 && ToLowerAscii(a[1..][k].0) == name && a[1..][k].1 == Find(a, name).value
          && forall j :: 0 <= j < k ==> ToLowerAscii(a[1..][j].0) != name;
        assert a[k + 1] == a[1..][k];
        forall j | 0 <= j < k + 1 ensures ToLowerAscii(a[j].0) != name {
          assert j > 0 ==> a[j] == a[1..][j - 1];
        }
      }
    }
  }

  /** An absent attribute is zero; one that is there must be a numeral, after trimming and with a
      minus sign in front if it is signed, between these bounds. */
  predicate Reads(text: Option<string>, signed: bool, low: int, high: int, value: int) {
    match text
    case None => value == 0
    case Some(t) =>
      low <= value <= high &&
      if signed && t != "" && t[0] == '-' then Numeral(Trim(t[1..])) == Some(-value) else Numeral(Trim(t)) == Some(value)
  }

  /** No value of the attribute reads. */
  ghost predicate Refused(text: Option<string>, signed: bool, low: int, high: int) {
    forall value :: !Reads(text, signed, low, high, value)
  }

  lemma SignedReads(a: Attributes, name: string)
    ensures var text, r := Find(a, name), Signed32(a, name);
      if Refused(text, true, -0x8000_0000, 0x7FFF_FFFF) then r == Failure(BadLeafNumber(name))
      else r.Success? && forall v :: Reads(text, true, -0x8000_0000, 0x7FFF_FFFF, v) <==> v == r.value as int
  {
    var text, r := Find(a, name), Signed32(a, name);
    if r.Success? {
      assert Reads(text, true, -0x8000_0000, 0x7FFF_FFFF, r.value as int);
    }
  }

  lemma UnsignedReads(a: Attributes, name: string, max: nat)
    ensures var text, r := Find(a, name), Unsigned(a, name, max);
      if Refused(text, false, 0, max) then r == Failure(BadLeafNumber(name))
      else r.Success? && forall v :: Reads(text, false, 0, max, v) <==> v == r.value
  {
    var text, r := Find(a, name), Unsigned(a, name, max);
    if r.Success? {
      assert Reads(text, false, 0, max, r.value);
    }
  }

  /** The four numbers of a leaf, with what they accept. */
  datatype Number = Number(name: string, signed: bool, low: int, high: int)

  const NUMBERS := [
    Number("type", true, -0x8000_0000, 0x7FFF_FFFF), Number("comparand", true, -0x8000_0000, 0x7FFF_FFFF),
    Number("operand", false, 0, 0xFFFF_FFFF_FFFF_FFFF), Number("property", false, 0, 0xFFFF_FFFF)]

  ghost predicate IsRefused(a: Attributes, n: Number) {
    Refused(Find(a, n.name), n.signed, n.low, n.high)
  }

  predicate ReadsAs(a: Attributes, n: Number, value: int) {
    Reads(Find(a, n.name), n.signed, n.low, n.high, value)
  }

  /** A leaf is refused exactly if one of its numbers is, with the first of them in this order. */
  lemma LeafIsRefusedExactlyWhen(a: Attributes)
    ensures LeafOf(a).Failure? <==> exists k :: 0 <= k < 4 && IsRefused(a, NUMBERS[k])
    ensures forall k :: 0 <= k < 4 && IsRefused(a, NUMBERS[k]) && (forall j :: 0 <= j < k ==> !IsRefused(a, NUMBERS[j])) ==>
      LeafOf(a) == Failure(BadLeafNumber(NUMBERS[k].name))
  {
    SignedReads(a, "type");
    SignedReads(a, "comparand");
    UnsignedReads(a, "operand", MAX_U64);
    UnsignedReads(a, "property", MAX_U32);
    assert IsRefused(a, NUMBERS[0]) <==> Signed32(a, "type").Failure?;
    assert IsRefused(a, NUMBERS[1]) <==> Signed32(a, "comparand").Failure?;
    assert IsRefused(a, NUMBERS[2]) <==> Unsigned(a, "operand", MAX_U64).Failure?;
    assert IsRefused(a, NUMBERS[3]) <==> Unsigned(a, "property", MAX_U32).Failure?;
  }

  /** Otherwise its fields have the values that the numbers read as, and the texts as they are; a
      collection makes of a comparand that reads as 0 the comparand 4. */
  lemma LeafFieldsRead(a: Attributes)
    requires LeafOf(a).Success?
    ensures var f := LeafOf(a).value;
      && ReadsAs(a, NUMBERS[0], f.ctor as int) && ReadsAs(a, NUMBERS[2], f.operand as int) && ReadsAs(a, NUMBERS[3], f.propertyId as int)
      && (if f.collectionName != "" && ReadsAs(a, NUMBERS[1], 0) then f.comparand == 4 else ReadsAs(a, NUMBERS[1], f.comparand as int))
    ensures var f, text := LeafOf(a).value, (name: string) => if Find(a, name).Some? then Find(a, name).value else "";
      && f.propertyName == text("propertyname") && f.opName == text("op")
      && f.value == text("value") && f.collectionName == text("collection")
  {
    SignedReads(a, "type");
    SignedReads(a, "comparand");
    UnsignedReads(a, "operand", MAX_U64);
    UnsignedReads(a, "property", MAX_U32);
  }

  /** A filter with a number that is refused is the error of its rule, at any depth, after any filters
      that read. */
  lemma {:induction false} BadFilterIsRefused(forest: seq<Xml>, k: nat, depth: nat, accepts: Schema)
    requires k < |forest| && !forest[k].Chars? && ToLowerAscii(forest[k].name) == "filter" && LeafOf(forest[k].attributes).Failure?
    requires forall j :: 0 <= j < k ==> NodeMeaning(forest[j], depth, accepts).Success?
    ensures Meaning(forest, depth, accepts) == Failure(LeafOf(forest[k].attributes).error)
  {
    if k > 0 {
      assert forall j :: 0 <= j < k - 1 ==> forest[1..][j] == forest[j + 1];
      BadFilterIsRefused(forest[1..], k - 1, depth, accepts);
    } else {
      assert NodeMeaning(forest[0], depth, accepts) == Failure(LeafOf(forest[0].attributes).error);
    }
  }

  /** So a document whose rule holds such a filter is rejected, with the number's name. */
  lemma BadNumberRejectsDocument(rule: Attributes, a: Attributes, k: nat, accepts: Schema)
    requires accepts("rule", rule) && k < 4 && IsRefused(a, NUMBERS[k]) && forall j :: 0 <= j < k ==> !IsRefused(a, NUMBERS[j])
    ensures ParseEvents(NodeEvents(Tagged("esptool", [], [Tagged("rule", rule, [EmptyTag("filter", a)])])), true, accepts)
      == Failure(BadLeafNumber(["type", "comparand", "operand", "property"][k]))
  {
    LeafIsRefusedExactlyWhen(a);
    var x := EmptyTag("filter", a);
    LowerTags();
    BadFilterIsRefused([x], 0, 0, accepts);
    OneRuleDocument(rule, x, accepts);
    MeaningCons(x, [], 0, accepts);
    assert [x] + [] == [x];
  }

  /** As a filter of type "abc" does. */
  lemma WordIsRefused(a: Attributes)
    requires Find(a, "type") == Some("abc")
    ensures IsRefused(a, NUMBERS[0])
  {
    var t := "abc";
    NumeralExactlyWhen(t);
    assert !('0' <= t[0] <= '9');
    TrimmedStays(t);
  }
}
