/** Array expressions: a list of values `[a, b, c]` and a repeat
    `[value; copies]`, lowered to an array elements or, outside a
    constant context, to a run-time initialisation loop. */
module Arrays {
  import opened Types
  import opened Ir
  import opened Collaborators
  import opened Tables

  datatype ArrayElems =
    | Values(elems: seq<HirId>)
    | Copied(elem: HirId, copies: HirId)

  datatype ArrayExpr = ArrayExpr(id: HirId, elems: ArrayElems)

  /** The number of elements of a domain equals max - min + 1 whenever that
      count is representable in the index type and in 64 bits. */
  lemma DomainLengthExact(min: int, max: int, index: IntType)
    requires 0 <= max - min + 1 < Pow2(64)
    requires InRange(max - min + 1, index)
    ensures DomainLength(min, max, index) == max - min + 1
  {
    WrapIdentityIffInRange(max - min + 1, index);
    ModOfShift(max - min + 1, 0, Pow2(64));
  }

  /** CompileExpr::array_value_expr: the k-th element lowered, at index k. */
  method ArrayValueExpr(arrayType: IrType, elems: seq<HirId>, be: Backend) returns (r: Tree)
    ensures IndexedArray(r, arrayType, seq(|elems|, k requires 0 <= k < |elems| => be.compileExpr(elems[k])))
  {
    var indexes: seq<nat> := [];
    var elements: seq<Tree> := [];
    var i := 0;
    while i < |elems|
      invariant 0 <= i <= |elems|
      invariant |indexes| == i && |elements| == i
      invariant forall k :: 0 <= k < i ==> indexes[k] == k && elements[k] == be.compileExpr(elems[k])
    {
      elements := elements + [be.compileExpr(elems[i])];
      indexes := indexes + [i];
      i := i + 1;
    }
    return ArrayConstructor(arrayType, indexes, elements);
  }

  /** What a repeat `[elem; copies]` of an array type yields: the type needs
      a domain; a domain whose upper bound is not constant, or a count of
      copies that is not constant, is reported and yields the error mark. In
      a constant context the value is repeated once per element of the
      domain; elsewhere the array is filled by a run-time loop. */
  predicate CopiedArray(r: Translated, arrayType: IrType, elem: HirId, copies: HirId, constContext: bool, be: Backend)
    requires arrayType.ArrayType?
  {
    && (arrayType.domain.None? ==> r == Translated(ErrorMark, []))
    && (arrayType.domain.Some? && arrayType.domain.value.max.VariableMax? ==>
          r == Translated(ErrorMark, [NonConstCapacity]))
    && (arrayType.domain.Some? && arrayType.domain.value.max.ConstMax? && !IsConstant(be.compileExpr(copies)) ==>
          r == Translated(ErrorMark, [NonConstCopies]))
    && (arrayType.domain.Some? && arrayType.domain.value.max.ConstMax? && IsConstant(be.compileExpr(copies)) ==>
          var d := arrayType.domain.value;
          var len := DomainLength(d.min, d.max.value, d.index);
          && r.diagnostics == []
          && (constContext ==>
                IndexedArray(r.tree, arrayType, seq(len, k requires 0 <= k < len => be.compileExpr(elem))))
          && (!constContext ==> r.tree == ArrayInit(arrayType, be.compileExpr(copies), be.compileExpr(elem))))
  }

  /** CompileExpr::array_copied_expr: a type that is not an array is an
      internal error; otherwise the result is `CopiedArray`'s, the constant
      case built by a loop over the domain. */
  method ArrayCopiedExpr(arrayType: IrType, elem: HirId, copies: HirId, constContext: bool, be: Backend)
    returns (r: Outcome<Translated>)
    ensures r.Ice? <==> !arrayType.ArrayType?
    ensures r.Ok? ==> CopiedArray(r.value, arrayType, elem, copies, constContext, be)
  {
    if !arrayType.ArrayType? {
      return Ice("array copy of a type that is not an array");
    }
    if arrayType.domain.None? {
      return Ok(Translated(ErrorMark, []));
    }
    var domain := arrayType.domain.value;
    if domain.max.VariableMax? {
      return Ok(Translated(ErrorMark, [NonConstCapacity]));
    }
    var capacity := be.compileExpr(copies);
    if !IsConstant(capacity) {
      return Ok(Translated(ErrorMark, [NonConstCopies]));
    }
    var value := be.compileExpr(elem);
    var len := DomainLength(domain.min, domain.max.value, domain.index);
    if constContext {
      var indexes: seq<nat> := [];
      var elements: seq<Tree> := [];
      var i := 0;
      while i < len
        invariant 0 <= i <= len
        invariant |indexes| == i && |elements| == i
        invariant forall k :: 0 <= k < i ==> indexes[k] == k && elements[k] == value
      {
        elements := elements + [value];
        indexes := indexes + [i];
        i := i + 1;
      }
      return Ok(Translated(ArrayConstructor(arrayType, indexes, elements), []));
    } else {
      return Ok(Translated(ArrayInit(arrayType, capacity, value), []));
    }
  }

  /** CompileExpr::visit(ArrayExpr): an expression without a type is a fatal
      error; a type that does not compile to an array yields the error mark;
      otherwise the elements are lowered as a list or as a repeat
      (`CopiedArray`). */
  method VisitArray(e: ArrayExpr, constContext: bool, t: Tables, be: Backend) returns (r: Outcome<Translated>)
    ensures r.Ice? <==> e.id !in t.types || (be.compileTy(t.types[e.id]).ArrayType? && !t.types[e.id].ArrayTy?)
    ensures r.Ok? && !be.compileTy(t.types[e.id]).ArrayType? ==> r.value == Translated(ErrorMark, [])
    ensures r.Ok? && be.compileTy(t.types[e.id]).ArrayType? && e.elems.Values? ==>
      && r.value.diagnostics == []
      && IndexedArray(r.value.tree, be.compileTy(t.types[e.id]),
                      seq(|e.elems.elems|, k requires 0 <= k < |e.elems.elems| => be.compileExpr(e.elems.elems[k])))
    ensures r.Ok? && be.compileTy(t.types[e.id]).ArrayType? && e.elems.Copied? ==>
      CopiedArray(r.value, be.compileTy(t.types[e.id]), e.elems.elem, e.elems.copies, constContext, be)
  {
    if e.id !in t.types {
      return Ice("did not resolve type for this array expression");
    }
    var tyty := t.types[e.id];
    var arrayType := be.compileTy(tyty);
    if !arrayType.ArrayType? {
      return Ok(Translated(ErrorMark, []));
    }
    if !tyty.ArrayTy? {
      return Ice("array expression of non-array type");
    }
    match e.elems {
      case Values(elems) =>
        var tree := ArrayValueExpr(arrayType, elems, be);
        return Ok(Translated(tree, []));
      case Copied(elem, copies) =>
        r := ArrayCopiedExpr(arrayType, elem, copies, constContext, be);
    }
  }
}
