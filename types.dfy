/** The front end's view of types (the TyTy hierarchy) as far as expression
    lowering inspects it, and the table of primitive integer types with their
    bounds. */
module Types {

  type HirId = nat

  /** One byte of literal text. */
  type Byte = b: int | 0 <= b < 256

  /** A bit width of a primitive integer type. */
  type Width = b: nat | b > 0 witness 8

  /** Width and signedness of a primitive integer type. */
  datatype IntType = IntType(bits: Width, signed: bool)

  /** Pointer width of the target, which fixes isize and usize. */
  const PointerBits: Width := 64

  const I8 := IntType(8, true)
  const I16 := IntType(16, true)
  const I32 := IntType(32, true)
  const I64 := IntType(64, true)
  const I128 := IntType(128, true)
  const Isize := IntType(PointerBits, true)
  const U8 := IntType(8, false)
  const U16 := IntType(16, false)
  const U32 := IntType(32, false)
  const U64 := IntType(64, false)
  const U128 := IntType(128, false)
  const Usize := IntType(PointerBits, false)

  function Pow2(n: nat): (r: nat)
    ensures r >= 1
    ensures n > 0 ==> r >= 2
  {
    if n == 0 then 1 else 2 * Pow2(n - 1)
  }

  /** Smallest value of the type: -2^(w-1) when signed, 0 otherwise. */
  function MinValue(t: IntType): int {
    if t.signed then -(Pow2(t.bits - 1) as int) else 0
  }

  /** Largest value of the type: 2^(w-1)-1 when signed, 2^w-1 otherwise. */
  function MaxValue(t: IntType): int {
    if t.signed then Pow2(t.bits - 1) - 1 else Pow2(t.bits) - 1
  }

  predicate InRange(v: int, t: IntType) {
    MinValue(t) <= v <= MaxValue(t)
  }

  /** Truncation of an arbitrary integer to the type: keep the low `bits`
      bits and read them back as two's complement when the type is signed. */
  function Wrap(v: int, t: IntType): int {
    var m := v % Pow2(t.bits);
    if t.signed && m >= Pow2(t.bits - 1) then m - Pow2(t.bits) else m
  }

  lemma Pow2Succ(n: nat)
    requires n > 0
    ensures Pow2(n) == 2 * Pow2(n - 1)
  {
  }

  /** Euclidean remainder is determined by any representative in [0, p). */
  lemma ModOfShift(v: int, k: int, p: int)
    requires p > 0
    requires 0 <= v + k * p < p
    ensures v % p == v + k * p
  {
    var q := v / p;
    var r := v % p;
    assert v == q * p + r && 0 <= r < p;
    // v + k*p and r are both in [0, p) and differ by a multiple of p
    var d := q + k;
    assert v + k * p == d * p + r by {
      calc {
        v + k * p;
        q * p + r + k * p;
        (q + k) * p + r;
      }
    }
    MulMonotone(d, p);
    assert d * p == 0;
  }

  lemma MulMonotone(d: int, p: int)
    requires p > 0
    ensures d >= 1 ==> d * p >= p
    ensures d <= -1 ==> d * p <= -p
  {
  }

  /** The truncation always lands inside the type's bounds. */
  lemma WrapInRange(v: int, t: IntType)
    ensures InRange(Wrap(v, t), t)
  {
    Pow2Succ(t.bits);
  }

  /** Truncation leaves a value unchanged exactly when the value already fits
      the type: this is why the integer lowering may truncate after its range
      check without changing the constant. */
  lemma {:induction false} WrapIdentityIffInRange(v: int, t: IntType)
    ensures Wrap(v, t) == v <==> InRange(v, t)
  {
    var p := Pow2(t.bits);
    Pow2Succ(t.bits);
    WrapInRange(v, t);
    if InRange(v, t) {
      if v >= 0 {
        ModOfShift(v, 0, p);
      } else {
        assert t.signed;
        ModOfShift(v, 1, p);
      }
    }
  }

  /** Kinds of the TyTy hierarchy that lowering distinguishes. */
  datatype Ty =
    | BoolTy
    | CharTy
    | StrTy
    | IntTy(width: IntType)
    | FloatTy(bits: nat)
    | NeverTy
    | AdtTy(adt: AdtDef)
    | TupleTy(fields: seq<Ty>)
    | ArrayTy(elem: Ty)
    | SliceTy(elem: Ty)
    | RefTy(base: Ty, mutable: bool)
    | PointerTy(base: Ty)
    | FnDefTy(fn: FnType)
    | FnPtrTy(params: seq<Ty>)
    | DynamicTy(items: seq<ObjectItem>)
    | ParamTy(name: nat, bound: Ty)

  /** A struct, tuple struct or enum: an ordered list of variants. */
  datatype AdtDef = AdtDef(isEnum: bool, variants: seq<VariantDef>)

  /** A variant: its id, field types in declaration order and the id of its
      discriminant expression. */
  datatype VariantDef = VariantDef(id: HirId, fields: seq<Ty>, discriminant: HirId)

  /** A function definition type: its identity, the type reference that keys
      the compiled-function cache, its parameter types and flags. */
  datatype FnType = FnType(
    id: nat,
    tyRef: nat,
    params: seq<Ty>,
    variadic: bool,
    hasSubstitutions: bool,
    needsGenericSubstitutions: bool)

  /** An entry of a trait object: the trait item and its type, which is a
      function definition type for every method. The position of the entry
      is its vtable slot. */
  datatype ObjectItem = ObjectItem(traitItem: nat, ty: Ty)

  /** The kinds `is_primitive_type_kind` accepts. */
  predicate IsPrimitive(t: Ty) {
    t.BoolTy? || t.CharTy? || t.StrTy? || t.IntTy? || t.FloatTy? || t.NeverTy?
  }
}
