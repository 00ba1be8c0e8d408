/** The collaborators expression lowering consults but that are not part of
    this model: type compilation, coercion sites, the item compilers, the
    trait probe, generic inference, and the pattern compilers used by match
    lowering. Each is an uninterpreted total function. */
module Collaborators {
  import opened Types
  import opened Ir
  import opened Hir

  /** A candidate found by the trait probe: whether it is an impl candidate,
      its type and the impl item it names. */
  datatype Candidate = Candidate(isImpl: bool, ty: Ty, implItem: nat)

  /** A pattern variable bound while lowering a case, with the tree it is
      bound to. */
  datatype Binding = Binding(pattern: Pattern, value: Tree)

  /** What compiling a sub-expression yields: the statements it appended to
      the current block and its value. */
  datatype Lowered = Lowered(stmts: seq<Stmt>, value: Tree)

  datatype Backend = Backend(
    /** TyTyResolveCompile: the backend type of a front-end type */
    compileTy: Ty -> IrType,
    /** TyTyResolveCompile in trait-function-pointer mode */
    compileTraitFnTy: FnType -> IrType,
    /** coercion_site(value, actual, expected) */
    coerce: (Tree, Ty, Ty) -> Tree,
    /** CompileExpr on an expression that is not looked into */
    compileExpr: HirId -> Tree,
    /** CompileExpr on a match scrutinee or arm body, with its statements */
    lowerExpr: Expr -> Lowered,
    /** CompileInherentImplItem, with the function type to substitute or none */
    compileImplItem: (nat, Option<Ty>) -> Tree,
    /** CompileTraitItem on a trait item with a default body */
    compileTraitItem: (nat, FnType) -> Tree,
    /** PathProbeType::Probe(root, segment) with impls probed, bounds not */
    probe: (Ty, nat) -> seq<Candidate>,
    /** infer_substitions on the candidate followed by unify with the expected type */
    monomorphize: (FnType, FnType) -> Ty,
    /** BaseType::get_root */
    root: Ty -> Ty,
    /** BaseType::is_unit */
    isUnit: Ty -> bool,
    /** CompilePatternCaseLabelExpr: the range a pattern's case label accepts */
    caseRange: Pattern -> CaseRange,
    /** CompilePatternBindings: the bindings a pattern introduces */
    bindings: (Pattern, Tree) -> seq<Binding>)
}
