/** Finding the function a method call or an overloaded operator calls: a
    function already compiled, an inherent or trait impl item, or the default
    body of a trait item, picked by probing the receiver's impls. */
module MethodResolution {
  import opened Types
  import opened Ir
  import opened Collaborators
  import opened Tables

  /** Where a method's code comes from. */
  datatype MethodTarget =
    /** a function already compiled, found by its type reference */
    | CachedFunction(decl: Tree)
    /** an impl item, compiled with the given function type substituted */
    | ImplItem(item: nat, substitution: Option<Ty>)
    /** the default body of an optional trait item */
    | TraitDefault(traitItem: nat, fntype: FnType)

  /** The impl candidate the probe found, if it is the only one and is an
      impl item of function type. */
  predicate SoleImplCandidate(cands: seq<Candidate>) {
    |cands| == 1 && cands[0].isImpl && cands[0].ty.FnDefTy?
  }

  /** The function type substituted into a probed impl item: none when the
      candidate is not generic, the candidate inferred against the expected
      function type when it still needs generic arguments, and the candidate
      itself otherwise. */
  function CandidateSubstitution(candidate: FnType, fntype: FnType, be: Backend): Option<Ty> {
    if !candidate.hasSubstitutions then None
    else if candidate.needsGenericSubstitutions then Some(be.monomorphize(candidate, fntype))
    else Some(FnDefTy(candidate))
  }

  /** CompileExpr::resolve_method_address, choosing the target. A compiled
      function always wins; then an impl item the path resolved to; then the
      path must name a trait item, and the receiver's root type is probed
      for impls of the method: no candidate defaults to the trait item's
      body (which must exist), one impl candidate is used, and anything else
      is an internal error. */
  function ResolveMethodTarget(fntype: FnType, ref: HirId, receiver: Ty, segment: nat, t: Tables, be: Backend)
    : (r: Outcome<MethodTarget>)
    ensures fntype.tyRef in t.functionDecls ==> r == Ok(CachedFunction(t.functionDecls[fntype.tyRef]))
    ensures fntype.tyRef !in t.functionDecls && ref in t.implItems ==>
      r == Ok(ImplItem(t.implItems[ref], if fntype.hasSubstitutions then Some(FnDefTy(fntype)) else None))
    ensures r.Ok? && r.value.TraitDefault? <==>
      && fntype.tyRef !in t.functionDecls && ref !in t.implItems && ref in t.traitItems
      && |be.probe(be.root(receiver), segment)| == 0 && t.traitItems[ref].optional
    ensures r.Ice? <==>
      && fntype.tyRef !in t.functionDecls && ref !in t.implItems
      && (ref !in t.traitItems ||
          var cands := be.probe(be.root(receiver), segment);
          if |cands| == 0 then !t.traitItems[ref].optional else !SoleImplCandidate(cands))
    ensures r.Ok? && r.value.ImplItem? && fntype.tyRef !in t.functionDecls && ref !in t.implItems ==>
      var cands := be.probe(be.root(receiver), segment);
      && SoleImplCandidate(cands)
      && r.value == ImplItem(cands[0].implItem, CandidateSubstitution(cands[0].ty.fn, fntype, be))
  {
    if fntype.tyRef in t.functionDecls then
      Ok(CachedFunction(t.functionDecls[fntype.tyRef]))
    else if ref in t.implItems then
      Ok(ImplItem(t.implItems[ref], if fntype.hasSubstitutions then Some(FnDefTy(fntype)) else None))
    else if ref !in t.traitItems then
      Ice("path resolves to neither an impl item nor a trait item")
    else
      var traitItem := t.traitItems[ref];
      var candidates := be.probe(be.root(receiver), segment);
      if |candidates| == 0 then
        if traitItem.optional then Ok(TraitDefault(traitItem.item, fntype))
        else Ice("trait item without a default body")
      else if |candidates| != 1 then Ice("several impl candidates")
      else
        var candidate := candidates[0];
        if !candidate.isImpl then Ice("candidate is not an impl item")
        else if !candidate.ty.FnDefTy? then Ice("candidate is not a function")
        else Ok(ImplItem(candidate.implItem, CandidateSubstitution(candidate.ty.fn, fntype, be)))
  }

  /** The compiled address of a target: the address of a compiled function,
      or the result of compiling the impl or trait item. */
  function TargetAddress(target: MethodTarget, be: Backend): Tree {
    match target
    case CachedFunction(decl) => AddressOf(decl, PointerType(TypeOf(decl)))
    case ImplItem(item, substitution) => be.compileImplItem(item, substitution)
    case TraitDefault(traitItem, fntype) => be.compileTraitItem(traitItem, fntype)
  }

  function ResolveMethodAddress(fntype: FnType, ref: HirId, receiver: Ty, segment: nat, t: Tables, be: Backend)
    : Outcome<Tree>
  {
    match ResolveMethodTarget(fntype, ref, receiver, segment, t, be)
    case Ice(why) => Ice(why)
    case Ok(target) => Ok(TargetAddress(target, be))
  }
}
