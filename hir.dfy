/** The typed high-level IR that match lowering consumes: expressions with
    their ids (the keys of the type context), match cases and patterns. */
module Hir {
  import opened Types

  /** Patterns. Equality of these values is structural: two occurrences of
      `Foo::A` in different arms are equal patterns. */
  datatype Pattern =
    | Wildcard
    | LiteralPat(value: int)
    | PathPat(path: nat)
    | IdentPat(name: nat)
    | TuplePat(items: TupleItems)

  /** The items of a tuple pattern: a plain list of sub-patterns, or a list
      with a `..` rest in the middle. */
  datatype TupleItems =
    | Multiple(patterns: seq<Pattern>)
    | Ranged(lower: seq<Pattern>, upper: seq<Pattern>)

  /** Expressions as far as match lowering looks into them: tuple and path
      scrutinees and nested matches; every other expression is a `Leaf`. */
  datatype Expr =
    | Leaf(id: HirId)
    | PathExpr(id: HirId)
    | TupleExpr(id: HirId, elems: seq<Expr>)
    | MatchExpr(id: HirId, scrutinee: Expr, cases: seq<Case>)

  /** A match case: its id, the alternative patterns of its arm (separated by
      `|` in the source program) and its body. */
  datatype Case = Case(id: HirId, patterns: seq<Pattern>, body: Expr)
}
