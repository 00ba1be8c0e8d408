/** Autoref, autoderef, indirection and unsizing adjustments that the type
    checker records on an expression and that lowering applies, in order, to
    the expression's compiled tree. */
module Adjustments {
  import opened Types
  import opened Ir
  import opened Collaborators

  datatype AdjustmentKind =
    | ErrorAdjustment
    | ImmRef
    | MutRef
    | Deref
    | DerefMut
    | Indirection
    | Unsize

  /** The `Deref`/`DerefMut` implementation an overloaded dereference calls:
      its function type, the impl item holding its body, and the adjustment
      recorded for its receiver (anything but an error adjustment means the
      receiver is borrowed). */
  datatype DerefOverload = DerefOverload(fn: FnType, item: nat, receiver: AdjustmentKind)

  /** An adjustment: its kind, the type expected after it, and the overload
      for a dereference through a user `Deref` implementation. */
  datatype Adjustment = Adjustment(kind: AdjustmentKind, expected: Ty, overload: Option<DerefOverload>)

  predicate IsRef(k: AdjustmentKind) { k == ImmRef || k == MutRef }

  /** An overloaded dereference: a call of the compiled `deref` method on the
      expression, borrowed first unless the receiver adjustment is an error.
      A dereference adjustment without an overload is an internal error. */
  function DerefStep(a: Adjustment, e: Tree, be: Backend): (r: Outcome<Tree>)
    ensures r.Ice? <==> a.overload.None?
    ensures r.Ok? ==>
      var o := a.overload.value;
      && r.value.Call? && |r.value.args| == 1
      && r.value.callee == be.compileImplItem(o.item, if o.fn.hasSubstitutions then Some(FnDefTy(o.fn)) else None)
      && (o.receiver == ErrorAdjustment ==> r.value.args[0] == e)
      && (o.receiver != ErrorAdjustment ==> r.value.args[0] == AddressOf(e, ReferenceType(TypeOf(e))))
  {
    match a.overload
    case None => Ice("dereference adjustment without an operator overload")
    case Some(o) =>
      var substitution := if o.fn.hasSubstitutions then Some(FnDefTy(o.fn)) else None;
      var fnAddress := be.compileImplItem(o.item, substitution);
      var argument := if o.receiver != ErrorAdjustment then AddressOf(e, ReferenceType(TypeOf(e))) else e;
      Ok(Call(fnAddress, [argument]))
  }

  /** Unsizing an array into a slice: the fat pointer {address of the array,
      number of elements of its domain}. Anything but a compiled array with a
      constant domain unsized to a slice type is an internal error. */
  function UnsizeStep(a: Adjustment, e: Tree, be: Backend): (r: Outcome<Tree>)
    ensures r.Ok? <==>
      && TypeOf(e).ArrayType? && a.expected.SliceTy?
      && TypeOf(e).domain.Some? && TypeOf(e).domain.value.max.ConstMax?
    ensures r.Ok? ==>
      var d := TypeOf(e).domain.value;
      && r.value.Constructor? && r.value.ty == be.compileTy(a.expected) && !r.value.isEnum
      && r.value.args == [AddressOf(e, ReferenceType(TypeOf(e))), IntConst(SizeType, DomainLength(d.min, d.max.value, d.index))]
      && InRange(r.value.args[1].value, Usize)
  {
    var exprType := TypeOf(e);
    if !exprType.ArrayType? then Ice("unsized adjustment of a non-array")
    else if !a.expected.SliceTy? then Ice("unsized adjustment to a non-slice")
    else match exprType.domain
      case None => Ice("array type without a domain")
      case Some(d) =>
        match d.max
        case VariableMax => Ice("array domain with a variable bound")
        case ConstMax(max) =>
          var data := AddressOf(e, ReferenceType(exprType));
          var size := IntConst(SizeType, DomainLength(d.min, max, d.index));
          Ok(Constructor(be.compileTy(a.expected), false, [data, size], -1))
  }

  /** One adjustment other than an error adjustment. After a reference,
      indirection or unsizing step the tree has the type the type checker
      expected, except that a reference to a slice is the slice itself. */
  function Step(a: Adjustment, e: Tree, be: Backend): (r: Outcome<Tree>)
    requires a.kind != ErrorAdjustment
    ensures IsRef(a.kind) ==>
      && r.Ok? && (r.value == e <==> IsSlice(e))
      && (!IsSlice(e) ==> TypeOf(r.value) == be.compileTy(a.expected))
    ensures a.kind == Indirection ==> r.Ok?
    ensures (a.kind == Indirection || a.kind == Unsize) && r.Ok? ==> TypeOf(r.value) == be.compileTy(a.expected)
  {
    if IsRef(a.kind) then RefStep(a, e, be)
    else if a.kind == Indirection then Ok(Indirect(be.compileTy(a.expected), e))
    else if a.kind == Unsize then UnsizeStep(a, e, be)
    else DerefStep(a, e, be)
  }

  /** Taking a reference: the address of the expression, unless it is a
      slice, which is already a fat pointer. */
  function RefStep(a: Adjustment, e: Tree, be: Backend): (r: Outcome<Tree>)
    ensures r.Ok? && (r.value == e <==> IsSlice(e))
    ensures !IsSlice(e) ==> TypeOf(r.value) == be.compileTy(a.expected)
  {
    if IsSlice(e) then Ok(e)
    else
      var address := AddressOf(e, be.compileTy(a.expected));
      assert e < address;
      Ok(address)
  }

  predicate HasError(adjs: seq<Adjustment>) {
    exists k :: 0 <= k < |adjs| && adjs[k].kind == ErrorAdjustment
  }

  /** The adjustments applied left to right; an error adjustment abandons the
      expression and yields the error mark. */
  function Adjust(adjs: seq<Adjustment>, e: Tree, be: Backend): Outcome<Tree> {
    if adjs == [] then Ok(e)
    else if adjs[0].kind == ErrorAdjustment then Ok(ErrorMark)
    else
      match Step(adjs[0], e, be)
      case Ice(why) => Ice(why)
      case Ok(next) => Adjust(adjs[1..], next, be)
  }

  /** Continue an outcome with further adjustments. */
  function Then(o: Outcome<Tree>, adjs: seq<Adjustment>, be: Backend): Outcome<Tree> {
    match o
    case Ice(why) => Ice(why)
    case Ok(e) => Adjust(adjs, e, be)
  }

  /** Applying `a + b` is applying `a` and then `b`, except that an error
      adjustment in `a` ends the sequence there. */
  lemma {:induction false} AdjustAppend(a: seq<Adjustment>, b: seq<Adjustment>, e: Tree, be: Backend)
    ensures HasError(a) ==> Adjust(a + b, e, be) == Adjust(a, e, be)
    ensures !HasError(a) ==> Adjust(a + b, e, be) == Then(Adjust(a, e, be), b, be)
  {
    if a == [] {
      assert a + b == b;
    } else {
      assert (a + b)[0] == a[0];
      assert (a + b)[1..] == a[1..] + b;
      assert HasError(a) <==> a[0].kind == ErrorAdjustment || HasError(a[1..]) by {
        if HasError(a) && a[0].kind != ErrorAdjustment {
          var k :| 0 <= k < |a| && a[k].kind == ErrorAdjustment;
          assert a[1..][k - 1].kind == ErrorAdjustment;
        }
        if HasError(a[1..]) {
          var k :| 0 <= k < |a[1..]| && a[1..][k].kind == ErrorAdjustment;
          assert a[k + 1].kind == ErrorAdjustment;
        }
      }
      if a[0].kind != ErrorAdjustment {
        match Step(a[0], e, be)
        case Ice(_) =>
        case Ok(next) => AdjustAppend(a[1..], b, next, be);
      }
    }
  }

  /** Without error adjustments, a sequence of reference adjustments leaves a
      slice unchanged: slices are already fat pointers. */
  lemma {:induction false} RefsKeepSlice(adjs: seq<Adjustment>, e: Tree, be: Backend)
    requires IsSlice(e)
    requires forall k :: 0 <= k < |adjs| ==> IsRef(adjs[k].kind)
    ensures Adjust(adjs, e, be) == Ok(e)
  {
    if adjs != [] {
      RefsKeepSlice(adjs[1..], e, be);
    }
  }

  /** HIRCompileBase::resolve_adjustements: the adjustments are applied in
      order to the compiled expression. */
  method ResolveAdjustments(adjs: seq<Adjustment>, expression: Tree, be: Backend) returns (r: Outcome<Tree>)
    ensures r == Adjust(adjs, expression, be)
  {
    var e := expression;
    var i := 0;
    while i < |adjs|
      invariant 0 <= i <= |adjs|
      invariant Adjust(adjs, expression, be) == Adjust(adjs[i..], e, be)
    {
      var a := adjs[i];
      assert adjs[i..][1..] == adjs[i + 1..];
      match a.kind {
        case ErrorAdjustment =>
          return Ok(ErrorMark);
        case ImmRef =>
          if !IsSlice(e) {
            e := AddressOf(e, be.compileTy(a.expected));
          }
        case MutRef =>
          if !IsSlice(e) {
            e := AddressOf(e, be.compileTy(a.expected));
          }
        case Deref =>
          var d := DerefStep(a, e, be);
          if d.Ice? {
            return Ice(d.why);
          }
          e := d.value;
        case DerefMut =>
          var d := DerefStep(a, e, be);
          if d.Ice? {
            return Ice(d.why);
          }
          e := d.value;
        case Indirection =>
          e := Indirect(be.compileTy(a.expected), e);
        case Unsize =>
          var u := UnsizeStep(a, e, be);
          if u.Ice? {
            return Ice(u.why);
          }
          e := u.value;
      }
      i := i + 1;
    }
    return Ok(e);
  }
}
