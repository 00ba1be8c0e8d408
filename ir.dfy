/** The target IR that expression lowering produces: an abstract term
    language standing for the code generator's trees. Each constructor stands
    for one backend builder (address-of, indirection, field access, call,
    record and array constructors, switch, case label, goto, label). */
module Ir {
  import opened Types

  /** Index domain of a compiled array type: its index type and its lower and
      upper bound. The upper bound may be a run-time value. */
  datatype Domain = Domain(index: IntType, min: int, max: DomainMax)
  datatype DomainMax = ConstMax(value: int) | VariableMax

  /** Types of compiled trees. */
  datatype IrType =
    | IntegerType(width: IntType)
    | BooleanType
    | CharType
    | WideCharType
    | StringType(length: nat)
    /** the {data, len} record of a slice or str reference (a fat pointer) */
    | SliceType(elem: IrType)
    | ArrayType(elem: IrType, domain: Option<Domain>)
    | PointerType(to: IrType)
    | ReferenceType(to: IrType)
    | FunctionType(ret: IrType)
    | RecordType(name: nat, fields: seq<IrType>)
    | VoidType
    | ErrorType

  datatype Option<T> = None | Some(value: T)

  /** The backend's `size_type_node`: lengths of fat pointers and vtable
      indexes have this type. */
  const SizeType := IntegerType(Usize)

  /** Compiled trees. `Operand` stands for a tree that some other lowering
      produced; `constant` is whether the backend flags it as constant. */
  datatype Tree =
    | ErrorMark
    | IntConst(ty: IrType, value: int)
    | BoolConst(b: bool)
    | CharConst(byte: int)
    | WideCharConst(code: int)
    | StringConst(bytes: seq<int>)
    | Operand(id: nat, ty: IrType, constant: bool)
    | TempRef(tmp: nat, ty: IrType)
    | AddressOf(operand: Tree, ty: IrType)
    | Indirect(ty: IrType, operand: Tree)
    | FieldRef(record: Tree, index: nat)
    | VtableEntry(table: Tree, index: nat)
    | VirtualCall(fnTy: IrType, entry: Tree, receiver: Tree, index: nat)
    | Call(callee: Tree, args: seq<Tree>)
    | Constructor(ty: IrType, isEnum: bool, args: seq<Tree>, discriminator: int)
    | ArrayConstructor(ty: IrType, indexes: seq<nat>, values: seq<Tree>)
    | Folded(operand: Tree)
    | ArrayInit(ty: IrType, capacity: Tree, element: Tree)

  /** The range a case label accepts: `default`, one value or low..high. */
  datatype CaseRange = Default | Single(low: Tree) | Between(low: Tree, high: Tree)

  /** Statements appended to the innermost open block. */
  datatype Stmt =
    | TempDecl(tmp: nat, ty: IrType)
    | Assign(lhs: Tree, rhs: Tree)
    | Goto(target: nat)
    | LabelDef(name: nat)
    | CaseLabel(range: CaseRange, target: nat)
    | Switch(cond: Tree, body: seq<Stmt>)
    | ExprStmt(e: Tree)

  /** Type of a field of a record; a fat pointer's fields are its data
      pointer and its length. */
  function FieldType(t: IrType, i: nat): IrType {
    match t
    case RecordType(_, fields) => if i < |fields| then fields[i] else ErrorType
    case SliceType(elem) => if i == 0 then PointerType(elem) else if i == 1 then SizeType else ErrorType
    case _ => ErrorType
  }

  function ReturnType(t: IrType): IrType {
    match t
    case FunctionType(r) => r
    case PointerType(FunctionType(r)) => r
    case _ => ErrorType
  }

  function ElementType(t: IrType): IrType {
    match t
    case PointerType(ArrayType(e, _)) => e
    case PointerType(e) => e
    case _ => ErrorType
  }

  /** The type the backend gives each tree (GCC's TREE_TYPE). */
  function TypeOf(t: Tree): IrType {
    match t
    case ErrorMark => ErrorType
    case IntConst(ty, _) => ty
    case BoolConst(_) => BooleanType
    case CharConst(_) => CharType
    case WideCharConst(_) => WideCharType
    case StringConst(bytes) => StringType(|bytes|)
    case Operand(_, ty, _) => ty
    case TempRef(_, ty) => ty
    case AddressOf(_, ty) => ty
    case Indirect(ty, _) => ty
    case FieldRef(r, i) => FieldType(TypeOf(r), i)
    case VtableEntry(table, _) => ElementType(TypeOf(table))
    case VirtualCall(fnTy, _, _, _) => fnTy
    case Call(callee, _) => ReturnType(TypeOf(callee))
    case Constructor(ty, _, _, _) => ty
    case ArrayConstructor(ty, _, _) => ty
    case Folded(e) => TypeOf(e)
    case ArrayInit(ty, _, _) => ty
  }

  predicate IsSlice(t: Tree) {
    TypeOf(t).SliceType?
  }

  /** GCC's TREE_CONSTANT on the trees of this model. */
  predicate IsConstant(t: Tree) {
    match t
    case IntConst(_, _) => true
    case BoolConst(_) => true
    case CharConst(_) => true
    case WideCharConst(_) => true
    case StringConst(_) => true
    case Operand(_, _, c) => c
    case Folded(e) => IsConstant(e)
    case _ => false
  }

  /** The number of elements of an array domain: max - min + 1, brought to
      the precision and signedness of the index type and read back as an
      unsigned host-wide integer. */
  function DomainLength(min: int, max: int, index: IntType): nat {
    (Wrap(max - min + 1, index) % Pow2(64)) as nat
  }

  /** `t` is an array constructor whose k-th index is k and whose k-th value
      is vals[k], for every k. */
  predicate IndexedArray(t: Tree, ty: IrType, vals: seq<Tree>) {
    && t.ArrayConstructor?
    && t.ty == ty
    && |t.indexes| == |vals|
    && t.values == vals
    && forall k :: 0 <= k < |vals| ==> t.indexes[k] == k
  }

  /** Results of a lowering step that can hit an internal-consistency failure
      (a failed assertion, an unreachable case, an out-of-range access). */
  datatype Outcome<T> = Ok(value: T) | Ice(why: string)

  /** All outcomes of a list in order: the first internal error among them,
      or all their values. */
  function Sequence<T>(outs: seq<Outcome<T>>): (r: Outcome<seq<T>>)
    ensures r.Ok? <==> forall i :: 0 <= i < |outs| ==> outs[i].Ok?
    ensures r.Ok? ==> |r.value| == |outs| && forall i :: 0 <= i < |outs| ==> r.value[i] == outs[i].value
  {
    if outs == [] then Ok([])
    else
      match outs[0]
      case Ice(why) => Ice(why)
      case Ok(v) =>
        match Sequence(outs[1..])
        case Ice(why) => Ice(why)
        case Ok(vs) => Ok([v] + vs)
  }

  /** A failed element with only successes before it is the failure of the
      whole sequence. */
  lemma {:induction false} SequenceFirstIce<T>(outs: seq<Outcome<T>>, i: nat)
    requires i < |outs| && outs[i].Ice?
    requires forall j :: 0 <= j < i ==> outs[j].Ok?
    ensures Sequence(outs) == Ice(outs[i].why)
  {
    if i > 0 {
      SequenceFirstIce(outs[1..], i - 1);
    }
  }

  /** The tree an expression lowers to and the diagnostics reported while
      lowering it. */
  datatype Translated = Translated(tree: Tree, diagnostics: seq<Diagnostic>)

  /** Diagnostics reported to the user. */
  datatype Diagnostic =
    | BadNumber
    | IntegerOverflow(typeName: string)
    | NotYetSupported(what: string)
    | NonConstCapacity
    | NonConstCopies
    | UnknownType
    | UnresolvedMethodCall
}
