/** The predicate tree and the document a rule file describes (esptool/src/model/RuleDocument.h). */
module RuleDocument {
  import opened StrHelpers
  import opened Wrappers

  datatype FilterKind = And | Or | Xor | Not

  /** The fields of a leaf, as written in the rule file. */
  datatype LeafFields = LeafFields(
    ctor: int32, comparand: int32, operand: uint64, propertyId: uint32,
    propertyName: string, opName: string, value: string, collectionName: string)

  datatype FilterNode = Leaf(fields: LeafFields) | Combine(kind: FilterKind, children: seq<FilterNode>)

  const NO_FIELDS := LeafFields(0, 0, 0, 0, "", "", "", "")

  /** The value-initialised node a rule without predicates gets. */
  const NO_FILTER := Leaf(NO_FIELDS)

  /** What to ask about the object of a notification. */
  datatype QueryRecipe = QueryRecipe(kind: string, properties: seq<uint32>, contextSet: bool, contextEnum: bool)

  /** One rule as the installer reads it; the tail of the record keeps the experiment overrides. */
  datatype RuleSpec = RuleSpec(
    eventType: uint32, persistent: bool, flags: uint32, action: uint64, actionName: string,
    selectorOverride: Option<uint32>, modifierOverride: Option<uint32>, modifyKindOverride: Option<uint32>,
    filter: FilterNode, queries: seq<QueryRecipe>)
}
