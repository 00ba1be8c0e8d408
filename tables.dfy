/** The tables expression lowering looks things up in: the type context
    filled by type checking, the name resolver's results, the crate mappings
    and the cache of functions already compiled. A key that is absent is a
    failed lookup. */
module Tables {
  import opened Types
  import opened Ir
  import opened Adjustments

  /** A trait item a path resolved to, and whether it is optional (it has a
      default body in the trait). */
  datatype TraitItemRef = TraitItemRef(item: nat, optional: bool)

  datatype Tables = Tables(
    /** type of every expression, by its id */
    types: map<HirId, Ty>,
    /** the enum variant a constructor call names */
    variantOf: map<HirId, HirId>,
    /** the receiver type of a method call or an overloaded operator */
    receivers: map<HirId, Ty>,
    /** the adjustments recorded for a receiver */
    autoderef: map<HirId, seq<Adjustment>>,
    /** the `Add`, `Neg`, ... implementation an operator expression uses */
    operatorOverloads: map<HirId, FnType>,
    /** name resolution: a use's node to the node it resolves to */
    resolvedNames: map<nat, nat>,
    /** a node to the HIR id of the item at that node */
    nodeToHir: map<nat, HirId>,
    /** functions already compiled, by the type reference of their type */
    functionDecls: map<nat, Tree>,
    /** impl items, by HIR id */
    implItems: map<HirId, nat>,
    /** trait items, by HIR id, with the trait reference they belong to */
    traitItems: map<HirId, TraitItemRef>)
}
