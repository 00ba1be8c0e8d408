/** Calls: tuple-struct and enum-variant constructors, calls of functions
    and function pointers, method calls (statically resolved or dispatched
    through a vtable) and overloaded operators, and range constructors.
    Arguments are lowered by the expression compiler and converted at the
    coercion site to the type the callee expects. */
module Calls {
  import opened Types
  import opened Ir
  import opened Collaborators
  import opened Tables
  import opened Adjustments
  import opened Dispatch
  import opened MethodResolution

  /** `f(args)`: the callee expression and the argument expressions. */
  datatype CallExpr = CallExpr(fnExpr: HirId, args: seq<HirId>)

  /** `receiver.method(args)`: the expression's id and node, the receiver,
      the method name segment (its id and the identifier it spells), and the
      arguments. */
  datatype MethodCallExpr = MethodCallExpr(
    id: HirId, node: nat, receiver: HirId, methodName: HirId, segment: nat, args: seq<HirId>)

  /** An operator expression resolved to a trait method: its id and node and
      the name of the operator's lang item. */
  datatype OperatorExpr = OperatorExpr(id: HirId, node: nat, langItem: nat)

  /** An argument lowered and converted to the type the callee expects. */
  function Coerced(arg: HirId, expected: Ty, t: Tables, be: Backend): Tree
    requires arg in t.types
  {
    be.coerce(be.compileExpr(arg), t.types[arg], expected)
  }

  /** Argument `i` of a call converted to `expected[i]`; a missing expected
      type or a missing argument type is an internal error. */
  function CoercedAt(arg: HirId, i: nat, expected: seq<Ty>, t: Tables, be: Backend): (r: Outcome<Tree>)
    ensures r.Ok? <==> i < |expected| && arg in t.types
    ensures r.Ok? ==> r.value == Coerced(arg, expected[i], t, be)
  {
    if i >= |expected| then Ice("no parameter or field at this index")
    else if arg !in t.types then Ice("argument without a type")
    else Ok(Coerced(arg, expected[i], t, be))
  }

  /** The position of the first variant with the given id. */
  function VariantIndex(variants: seq<VariantDef>, id: HirId): (r: Option<nat>)
    ensures r.Some? ==> r.value < |variants| && variants[r.value].id == id
    ensures r.Some? ==> forall j :: 0 <= j < r.value ==> variants[j].id != id
    ensures r.None? <==> forall j :: 0 <= j < |variants| ==> variants[j].id != id
  {
    if variants == [] then None
    else if variants[0].id == id then Some(0)
    else match VariantIndex(variants[1..], id)
      case None => None
      case Some(k) => Some(k + 1)
  }

  /** The variant a constructor call builds and its discriminator: the only
      variant of a struct (with no discriminator, -1), or the variant of an
      enum the type checker recorded for the callee, numbered by its
      position. */
  function ConstructedVariant(adt: AdtDef, fnExpr: HirId, t: Tables): (r: Outcome<(VariantDef, int)>)
    ensures !adt.isEnum ==> (r.Ok? <==> |adt.variants| == 1)
    ensures !adt.isEnum && r.Ok? ==> r.value == (adt.variants[0], -1)
    ensures adt.isEnum && r.Ok? ==>
      && fnExpr in t.variantOf && 0 <= r.value.1 < |adt.variants|
      && r.value.0 == adt.variants[r.value.1] && r.value.0.id == t.variantOf[fnExpr]
  {
    if !adt.isEnum then
      if |adt.variants| != 1 then Ice("struct without exactly one variant")
      else Ok((adt.variants[0], -1))
    else if fnExpr !in t.variantOf then Ice("no variant recorded for the constructor")
    else
      match VariantIndex(adt.variants, t.variantOf[fnExpr])
      case None => Ice("enum has no variant with this id")
      case Some(k) => Ok((adt.variants[k], k))
  }

  /** Each call argument converted to the field at its position. */
  function FieldArguments(args: seq<HirId>, fields: seq<Ty>, t: Tables, be: Backend): (r: Outcome<seq<Tree>>)
    ensures r.Ok? <==> |args| <= |fields| && forall i :: 0 <= i < |args| ==> args[i] in t.types
    ensures r.Ok? ==> |r.value| == |args| && forall i :: 0 <= i < |args| ==> r.value[i] == Coerced(args[i], fields[i], t, be)
  {
    var outs := seq(|args|, i requires 0 <= i < |args| => CoercedAt(args[i], i, fields, t, be));
    assert forall i | 0 <= i < |args| :: outs[i] == CoercedAt(args[i], i, fields, t, be);
    assert |args| > |fields| ==> outs[|fields|].Ice?;
    Sequence(outs)
  }

  /** A tuple-struct or enum-variant constructor call: the call arguments,
      converted to the variant's field types in order, preceded for an enum
      by the variant's folded discriminant. */
  function AdtConstructor(adt: AdtDef, tyty: Ty, call: CallExpr, t: Tables, be: Backend): (r: Outcome<Tree>)
    ensures r.Ok? <==>
      && ConstructedVariant(adt, call.fnExpr, t).Ok?
      && |call.args| <= |ConstructedVariant(adt, call.fnExpr, t).value.0.fields|
      && forall i :: 0 <= i < |call.args| ==> call.args[i] in t.types
    ensures r.Ok? ==>
      var (variant, discriminator) := ConstructedVariant(adt, call.fnExpr, t).value;
      var offset := if adt.isEnum then 1 else 0;
      && r.value.Constructor? && r.value.ty == be.compileTy(tyty)
      && r.value.isEnum == adt.isEnum && r.value.discriminator == discriminator
      && |r.value.args| == |call.args| + offset
      && (adt.isEnum ==> r.value.args[0] == Folded(be.compileExpr(variant.discriminant)))
      && forall i :: 0 <= i < |call.args| ==>
           r.value.args[i + offset] == Coerced(call.args[i], variant.fields[i], t, be)
  {
    match ConstructedVariant(adt, call.fnExpr, t)
    case Ice(why) => Ice(why)
    case Ok((variant, discriminator)) =>
      match FieldArguments(call.args, variant.fields, t, be)
      case Ice(why) => Ice(why)
      case Ok(arguments) =>
        var ctorArguments :=
          if adt.isEnum then [Folded(be.compileExpr(variant.discriminant))] + arguments else arguments;
        Ok(Constructor(be.compileTy(tyty), adt.isEnum, ctorArguments, discriminator))
  }

  /** The parameter types of a function definition or function pointer. */
  function ParamTypes(tyty: Ty): seq<Ty> {
    match tyty
    case FnDefTy(fn) => fn.params
    case FnPtrTy(params) => params
    case _ => []
  }

  predicate IsVariadic(tyty: Ty) {
    tyty.FnDefTy? && tyty.fn.variadic
  }

  /** Whether argument `i` of a call of type `tyty` can be lowered: it is a
      variadic extra argument, or it has a parameter and a type. */
  predicate CallArgumentLowers(arg: HirId, i: nat, tyty: Ty, t: Tables) {
    (IsVariadic(tyty) && i >= |ParamTypes(tyty)|) || (i < |ParamTypes(tyty)| && arg in t.types)
  }

  /** Argument `i` of a function call: the arguments a variadic function
      receives beyond its parameters are passed as lowered, the others are
      converted to their parameter's type. */
  function CallArgument(arg: HirId, i: nat, tyty: Ty, t: Tables, be: Backend): (r: Outcome<Tree>)
    ensures r.Ok? <==> CallArgumentLowers(arg, i, tyty, t)
    ensures r.Ok? && i >= |ParamTypes(tyty)| ==> r.value == be.compileExpr(arg)
    ensures r.Ok? && i < |ParamTypes(tyty)| ==> r.value == Coerced(arg, ParamTypes(tyty)[i], t, be)
  {
    if IsVariadic(tyty) && i >= |ParamTypes(tyty)| then Ok(be.compileExpr(arg))
    else CoercedAt(arg, i, ParamTypes(tyty), t, be)
  }

  /** Each call argument lowered as `CallArgument` says. */
  function CallArguments(args: seq<HirId>, tyty: Ty, t: Tables, be: Backend): (r: Outcome<seq<Tree>>)
    ensures r.Ok? <==> forall i :: 0 <= i < |args| ==> CallArgumentLowers(args[i], i, tyty, t)
    ensures r.Ok? ==> |r.value| == |args|
    ensures r.Ok? ==> forall i :: 0 <= i < |args| && i >= |ParamTypes(tyty)| ==> r.value[i] == be.compileExpr(args[i])
    ensures r.Ok? ==> forall i :: 0 <= i < |args| && i < |ParamTypes(tyty)| ==>
      r.value[i] == Coerced(args[i], ParamTypes(tyty)[i], t, be)
  {
    var outs := seq(|args|, i requires 0 <= i < |args| => CallArgument(args[i], i, tyty, t, be));
    assert forall i | 0 <= i < |args| :: outs[i] == CallArgument(args[i], i, tyty, t, be);
    Sequence(outs)
  }

  /** A call of a function or function pointer of type `tyty`: the lowered
      callee applied to the arguments, where the extra arguments of a
      variadic function are not converted. */
  function FunctionCall(tyty: Ty, call: CallExpr, t: Tables, be: Backend): (r: Outcome<Tree>)
    requires tyty.FnDefTy? || tyty.FnPtrTy?
    ensures r.Ok? <==> forall i :: 0 <= i < |call.args| ==> CallArgumentLowers(call.args[i], i, tyty, t)
    ensures r.Ok? ==>
      && r.value.Call? && r.value.callee == be.compileExpr(call.fnExpr) && |r.value.args| == |call.args|
      && (|call.args| > |ParamTypes(tyty)| ==> IsVariadic(tyty))
      && (forall i :: 0 <= i < |call.args| && i >= |ParamTypes(tyty)| ==>
            r.value.args[i] == be.compileExpr(call.args[i]))
      && (forall i :: 0 <= i < |call.args| && i < |ParamTypes(tyty)| ==>
            r.value.args[i] == Coerced(call.args[i], ParamTypes(tyty)[i], t, be))
  {
    match CallArguments(call.args, tyty, t, be)
    case Ice(why) => Ice(why)
    case Ok(args) =>
      assert |call.args| > |ParamTypes(tyty)| ==>
        CallArgumentLowers(call.args[|ParamTypes(tyty)|], |ParamTypes(tyty)|, tyty, t);
      Ok(Call(be.compileExpr(call.fnExpr), args))
  }

  /** A lowering that reports no diagnostic. */
  function WithoutDiagnostics(o: Outcome<Tree>): (r: Outcome<Translated>)
    ensures r.Ok? <==> o.Ok?
    ensures r.Ok? ==> r.value == Translated(o.value, [])
  {
    match o
    case Ice(why) => Ice(why)
    case Ok(tree) => Ok(Translated(tree, []))
  }

  /** CompileExpr::visit(CallExpr): a callee without a type is reported and
      yields the error mark; a callee of function type is called; any other
      callee must be an ADT, whose constructor is built. */
  function VisitCall(call: CallExpr, t: Tables, be: Backend): (r: Outcome<Translated>)
    ensures call.fnExpr !in t.types ==> r == Ok(Translated(ErrorMark, [UnknownType]))
    ensures call.fnExpr in t.types && (t.types[call.fnExpr].FnDefTy? || t.types[call.fnExpr].FnPtrTy?) ==>
      r == WithoutDiagnostics(FunctionCall(t.types[call.fnExpr], call, t, be))
    ensures call.fnExpr in t.types && t.types[call.fnExpr].AdtTy? ==>
      r == WithoutDiagnostics(AdtConstructor(t.types[call.fnExpr].adt, t.types[call.fnExpr], call, t, be))
    ensures call.fnExpr in t.types ==>
      var tyty := t.types[call.fnExpr];
      !(tyty.FnDefTy? || tyty.FnPtrTy? || tyty.AdtTy?) ==> r.Ice?
  {
    if call.fnExpr !in t.types then Ok(Translated(ErrorMark, [UnknownType]))
    else
      var tyty := t.types[call.fnExpr];
      if tyty.FnDefTy? || tyty.FnPtrTy? then WithoutDiagnostics(FunctionCall(tyty, call, t, be))
      else if tyty.AdtTy? then WithoutDiagnostics(AdtConstructor(tyty.adt, tyty, call, t, be))
      else Ice("callee is neither a function nor an ADT")
  }

  /** Argument `i` of a method call converted to parameter `i + 1`: the
      first parameter is the receiver. */
  predicate MethodArgumentLowers(arg: HirId, i: nat, fntype: FnType, t: Tables) {
    i + 1 < |fntype.params| && arg in t.types
  }

  function MethodArguments(args: seq<HirId>, fntype: FnType, t: Tables, be: Backend): (r: Outcome<seq<Tree>>)
    ensures r.Ok? <==> forall i :: 0 <= i < |args| ==> MethodArgumentLowers(args[i], i, fntype, t)
    ensures r.Ok? ==>
      |r.value| == |args| && forall i :: 0 <= i < |args| ==> r.value[i] == Coerced(args[i], fntype.params[i + 1], t, be)
  {
    var outs := seq(|args|, i requires 0 <= i < |args| => CoercedAt(args[i], i + 1, fntype.params, t, be));
    assert (forall i :: 0 <= i < |args| ==> outs[i].Ok?) <==>
      (forall i :: 0 <= i < |args| ==> MethodArgumentLowers(args[i], i, fntype, t))
    by {
      if forall i :: 0 <= i < |args| ==> outs[i].Ok? {
        forall i | 0 <= i < |args| ensures MethodArgumentLowers(args[i], i, fntype, t) {
          assert outs[i].Ok?;
        }
      }
      if forall i :: 0 <= i < |args| ==> MethodArgumentLowers(args[i], i, fntype, t) {
        forall i | 0 <= i < |args| ensures outs[i].Ok? {
          assert outs[i] == CoercedAt(args[i], i + 1, fntype.params, t, be);
        }
      }
    }
    Sequence(outs)
  }

  /** The function a method call calls and the receiver it passes, before
      the receiver's adjustments: through the vtable when the receiver's root
      type is a trait object, else the statically resolved method. */
  function MethodCallee(fntype: FnType, ref: HirId, receiver: Ty, segment: nat, self: Tree, t: Tables, be: Backend)
    : (r: Outcome<(Tree, Tree)>)
  {
    var isDynDispatch := be.root(receiver).DynamicTy?;
    var resolved := if receiver.ParamTy? then receiver.bound else receiver;
    if isDynDispatch then
      var root := be.root(resolved);
      if !root.DynamicTy? then Ice("dynamic dispatch on a receiver that is not a trait object")
      else
        match DynCallee(root.items, resolved, fntype, self, be)
        case Ice(why) => Ice(why)
        case Ok(fn) => Ok((fn, ReceiverFromDyn(resolved, self, be)))
    else
      match ResolveMethodAddress(fntype, ref, resolved, segment, t, be)
      case Ice(why) => Ice(why)
      case Ok(fn) => Ok((fn, self))
  }

  /** Every lookup a resolved method call makes succeeds: the resolved
      node maps back to an HIR item, the method name has a function type,
      the receiver type and its adjustments are recorded, the callee is
      found, the adjustments apply and every argument lowers. */
  predicate MethodCallLowers(m: MethodCallExpr, t: Tables, be: Backend)
    requires m.node in t.resolvedNames
  {
    && t.resolvedNames[m.node] in t.nodeToHir
    && m.methodName in t.types && t.types[m.methodName].FnDefTy?
    && m.id in t.receivers && m.id in t.autoderef
    && var fntype := t.types[m.methodName].fn;
       var callee := MethodCallee(fntype, t.nodeToHir[t.resolvedNames[m.node]], t.receivers[m.id],
                                  m.segment, be.compileExpr(m.receiver), t, be);
    && callee.Ok?
    && Adjust(t.autoderef[m.id], callee.value.1, be).Ok?
    && forall i :: 0 <= i < |m.args| ==> MethodArgumentLowers(m.args[i], i, fntype, t)
  }

  /** CompileExpr::visit(MethodCallExpr). An unresolved method name is
      reported and yields the error mark. A resolved one lowers exactly when
      all its lookups succeed, to a call passing the adjusted receiver first
      and then each argument converted to the parameter after it. */
  function VisitMethodCall(m: MethodCallExpr, t: Tables, be: Backend): (r: Outcome<Translated>)
    ensures m.node !in t.resolvedNames ==> r == Ok(Translated(ErrorMark, [UnresolvedMethodCall]))
    ensures m.node in t.resolvedNames ==> (r.Ok? <==> MethodCallLowers(m, t, be))
    ensures m.node in t.resolvedNames && r.Ok? ==>
      var fntype := t.types[m.methodName].fn;
      var callee := MethodCallee(fntype, t.nodeToHir[t.resolvedNames[m.node]], t.receivers[m.id],
                                 m.segment, be.compileExpr(m.receiver), t, be).value;
      && r.value.diagnostics == []
      && r.value.tree.Call? && r.value.tree.callee == callee.0
      && |r.value.tree.args| == |m.args| + 1
      && r.value.tree.args[0] == Adjust(t.autoderef[m.id], callee.1, be).value
      && forall i :: 0 <= i < |m.args| ==>
           r.value.tree.args[i + 1] == Coerced(m.args[i], fntype.params[i + 1], t, be)
  {
    var self := be.compileExpr(m.receiver);
    if m.node !in t.resolvedNames then Ok(Translated(ErrorMark, [UnresolvedMethodCall]))
    else if t.resolvedNames[m.node] !in t.nodeToHir then Ice("reverse lookup failure")
    else if m.methodName !in t.types then Ice("method name without a type")
    else if !t.types[m.methodName].FnDefTy? then Ice("method is not a function")
    else if m.id !in t.receivers then Ice("method call without a receiver type")
    else
      var ref := t.nodeToHir[t.resolvedNames[m.node]];
      var fntype := t.types[m.methodName].fn;
      match MethodCallee(fntype, ref, t.receivers[m.id], m.segment, self, t, be)
      case Ice(why) => Ice(why)
      case Ok((fn, receiverValue)) =>
        if m.id !in t.autoderef then Ice("method call without adjustments")
        else
          match Adjust(t.autoderef[m.id], receiverValue, be)
          case Ice(why) => Ice(why)
          case Ok(adjustedSelf) =>
            match MethodArguments(m.args, fntype, t, be)
            case Ice(why) => Ice(why)
            case Ok(args) => Ok(Translated(Call(fn, [adjustedSelf] + args), []))
  }

  /** The method an overloaded operator calls, resolved for the receiver
      type (a type parameter stands for its bound). */
  function OverloadCallee(o: OperatorExpr, t: Tables, be: Backend): Outcome<Tree>
    requires o.id in t.operatorOverloads && o.node in t.resolvedNames
    requires t.resolvedNames[o.node] in t.nodeToHir && o.id in t.receivers
  {
    var receiver := t.receivers[o.id];
    ResolveMethodAddress(t.operatorOverloads[o.id], t.nodeToHir[t.resolvedNames[o.node]],
                         if receiver.ParamTy? then receiver.bound else receiver, o.langItem, t, be)
  }

  /** Every lookup an overloaded operator makes succeeds: its overload, its
      resolved name and that name's HIR item, its receiver type and
      adjustments are recorded, the method resolves and the adjustments
      apply to the left operand. */
  predicate OverloadLowers(o: OperatorExpr, lhs: Tree, t: Tables, be: Backend) {
    && o.id in t.operatorOverloads && o.node in t.resolvedNames
    && t.resolvedNames[o.node] in t.nodeToHir && o.id in t.receivers && o.id in t.autoderef
    && OverloadCallee(o, t, be).Ok?
    && Adjust(t.autoderef[o.id], lhs, be).Ok?
  }

  /** CompileExpr::resolve_operator_overload: exactly when every lookup
      succeeds, a call of the operator's trait method with the adjusted left
      operand, followed by the right operand when the operator is binary. */
  function ResolveOperatorOverload(o: OperatorExpr, lhs: Tree, rhs: Option<Tree>, t: Tables, be: Backend)
    : (r: Outcome<Tree>)
    ensures r.Ok? <==> OverloadLowers(o, lhs, t, be)
    ensures r.Ok? ==>
      r.value == Call(OverloadCallee(o, t, be).value,
                      [Adjust(t.autoderef[o.id], lhs, be).value] + (if rhs.Some? then [rhs.value] else []))
    ensures r.Ok? ==> |r.value.args| == if rhs.Some? then 2 else 1
  {
    if o.id !in t.operatorOverloads then Ice("operator without an overload")
    else if o.node !in t.resolvedNames then Ice("operator without a resolved name")
    else if t.resolvedNames[o.node] !in t.nodeToHir then Ice("reverse lookup failure")
    else if o.id !in t.receivers then Ice("operator without a receiver type")
    else
      var fntype := t.operatorOverloads[o.id];
      var ref := t.nodeToHir[t.resolvedNames[o.node]];
      var receiver := t.receivers[o.id];
      var resolved := if receiver.ParamTy? then receiver.bound else receiver;
      match ResolveMethodAddress(fntype, ref, resolved, o.langItem, t, be)
      case Ice(why) => Ice(why)
      case Ok(fn) =>
        if o.id !in t.autoderef then Ice("operator without adjustments")
        else
          match Adjust(t.autoderef[o.id], lhs, be)
          case Ice(why) => Ice(why)
          case Ok(self) =>
            var args := [self] + (if rhs.Some? then [rhs.value] else []);
            Ok(Call(fn, args))
  }

  /** `from..to`, `from..`, `..to`, `..` and `from..=to`: the id of the
      range expression and its bounds. Inclusive and exclusive ranges differ
      only in their type, which the id looks up. */
  datatype RangeExpr = RangeExpr(id: HirId, from: Option<HirId>, to: Option<HirId>)

  function Present(b: Option<HirId>, be: Backend): seq<Tree> {
    if b.Some? then [be.compileExpr(b.value)] else []
  }

  /** The range visitors: the range type's record built from the lowered
      bounds present, `from` before `to`; a bound that lowers to the error
      mark makes the whole range the error mark. */
  function VisitRange(e: RangeExpr, t: Tables, be: Backend): (r: Outcome<Tree>)
    ensures r == Ok(ErrorMark) <==> ErrorMark in Present(e.from, be) + Present(e.to, be)
    ensures r.Ice? <==> ErrorMark !in Present(e.from, be) + Present(e.to, be) && e.id !in t.types
    ensures r.Ok? && r.value != ErrorMark ==>
      && r.value.Constructor? && r.value.ty == be.compileTy(t.types[e.id]) && !r.value.isEnum
      && |r.value.args| == (if e.from.Some? then 1 else 0) + (if e.to.Some? then 1 else 0)
      && (e.from.Some? ==> r.value.args[0] == be.compileExpr(e.from.value))
      && (e.to.Some? ==> r.value.args[|r.value.args| - 1] == be.compileExpr(e.to.value))
  {
    var bounds := Present(e.from, be) + Present(e.to, be);
    if ErrorMark in bounds then Ok(ErrorMark)
    else if e.id !in t.types then Ice("range without a type")
    else Ok(Constructor(be.compileTy(t.types[e.id]), false, bounds, -1))
  }
}
