/** Lowering of literal expressions: booleans, integers (parsed in base 10
    and checked against the bounds of their type), characters, bytes, string
    slices and byte strings. Literal text is a sequence of bytes. */
module Literals {
  import opened Types
  import opened Ir
  import opened Collaborators

  predicate IsDigit(b: Byte) { 48 <= b <= 57 }

  /** The C library's `isspace` in the C locale. */
  predicate IsSpace(b: Byte) { b == 32 || 9 <= b <= 13 }

  const Minus: Byte := 45

  /** What a C string reader sees of the text: everything before the first
      NUL byte. */
  function CString(s: seq<Byte>): seq<Byte> {
    if s == [] || s[0] == 0 then [] else [s[0]] + CString(s[1..])
  }

  function SkipSpaces(s: seq<Byte>): seq<Byte> {
    if s != [] && IsSpace(s[0]) then SkipSpaces(s[1..]) else s
  }

  /** The digits of `s` with the spaces between them removed. */
  function WithoutSpaces(s: seq<Byte>): (r: seq<Byte>)
    ensures forall k :: 0 <= k < |r| ==> !IsSpace(r[k])
  {
    if s == [] then []
    else if IsSpace(s[0]) then WithoutSpaces(s[1..])
    else [s[0]] + WithoutSpaces(s[1..])
  }

  predicate AllDigitsOrSpaces(s: seq<Byte>) {
    forall k :: 0 <= k < |s| ==> IsDigit(s[k]) || IsSpace(s[k])
  }

  /** Value of a sequence of decimal digits, most significant first. */
  function DigitsValue(s: seq<Byte>): nat {
    if s == [] then 0
    else 10 * DigitsValue(s[..|s| - 1]) + DigitValue(s[|s| - 1])
  }

  function DigitValue(b: Byte): nat {
    if IsDigit(b) then b as int - 48 else 0
  }

  /** GMP's `mpz_set_str` in base 10 on a C string: leading white space is
      skipped, an optional minus sign follows, the first character after it
      must be a digit, and afterwards white space is ignored while any other
      non-digit is an error. */
  function ParseDecimal(text: seq<Byte>): Option<int> {
    ParseSigned(SkipSpaces(CString(text)))
  }

  function ParseSigned(t: seq<Byte>): Option<int> {
    var negative := t != [] && t[0] == Minus;
    match ParseUnsigned(if negative then t[1..] else t)
    case None => None
    case Some(n) => Some(if negative then -(n as int) else n)
  }

  function ParseUnsigned(u: seq<Byte>): Option<nat> {
    if u == [] || !IsDigit(u[0]) || !AllDigitsOrSpaces(u) then None
    else Some(DigitsValue(WithoutSpaces(u)))
  }

  /** Decimal text of a natural number, without leading zeros. */
  function NatText(n: nat): (r: seq<Byte>)
    ensures r != []
    ensures forall k :: 0 <= k < |r| ==> IsDigit(r[k])
  {
    if n < 10 then [(48 + n) as Byte] else NatText(n / 10) + [(48 + n % 10) as Byte]
  }

  /** Decimal text of an integer, with a leading minus when negative. */
  function DecimalText(v: int): seq<Byte> {
    if v < 0 then [Minus] + NatText(-v) else NatText(v)
  }

  lemma {:induction false} NatTextValue(n: nat)
    ensures DigitsValue(NatText(n)) == n
  {
    var r := NatText(n);
    if n >= 10 {
      NatTextValue(n / 10);
      assert r[..|r| - 1] == NatText(n / 10);
    }
  }

  lemma {:induction false} WithoutSpacesOfDigits(s: seq<Byte>)
    requires forall k :: 0 <= k < |s| ==> IsDigit(s[k])
    ensures WithoutSpaces(s) == s
  {
    if s != [] {
      WithoutSpacesOfDigits(s[1..]);
    }
  }

  predicate NoNul(s: seq<Byte>) {
    forall k :: 0 <= k < |s| ==> s[k] != 0
  }

  lemma {:induction false} CStringWithoutNul(s: seq<Byte>)
    requires NoNul(s)
    ensures CString(s) == s
  {
    if s != [] {
      assert NoNul(s[1..]) by {
        forall k | 0 <= k < |s| - 1 ensures s[1..][k] != 0 {
          assert s[1..][k] == s[k + 1];
        }
      }
      CStringWithoutNul(s[1..]);
    }
  }

  lemma ParseDigits(digits: seq<Byte>)
    requires digits != [] && forall k :: 0 <= k < |digits| ==> IsDigit(digits[k])
    ensures ParseUnsigned(digits) == Some(DigitsValue(digits))
  {
    WithoutSpacesOfDigits(digits);
  }

  /** Text without NUL bytes that starts with neither white space nor NUL is
      seen by the parser as it is. */
  lemma ParsePlainText(text: seq<Byte>)
    requires text != [] && !IsSpace(text[0]) && NoNul(text)
    ensures ParseDecimal(text) == ParseSigned(text)
  {
    CStringWithoutNul(text);
  }

  lemma ParseNonNegative(digits: seq<Byte>)
    requires digits != [] && forall k :: 0 <= k < |digits| ==> IsDigit(digits[k])
    ensures ParseDecimal(digits) == Some(DigitsValue(digits) as int)
  {
    assert forall k :: 0 <= k < |digits| ==> digits[k] != 0;
    ParsePlainText(digits);
    ParseDigits(digits);
  }

  lemma ParseSignedMinus(u: seq<Byte>, n: nat)
    requires ParseUnsigned(u) == Some(n)
    ensures ParseSigned([Minus] + u) == Some(-(n as int))
  {
    assert ([Minus] + u)[1..] == u;
  }

  lemma NoNulAfterMinus(digits: seq<Byte>)
    requires forall k :: 0 <= k < |digits| ==> IsDigit(digits[k])
    ensures NoNul([Minus] + digits)
  {
    var text := [Minus] + digits;
    assert forall k :: 1 <= k < |text| ==> text[k] == digits[k - 1];
  }

  lemma ParseNegative(u: seq<Byte>, n: nat)
    requires ParseUnsigned(u) == Some(n) && NoNul([Minus] + u)
    ensures ParseDecimal([Minus] + u) == Some(-(n as int))
  {
    ParsePlainText([Minus] + u);
    ParseSignedMinus(u, n);
  }

  /** Reading back the decimal text of any integer yields that integer. */
  lemma ParseDecimalText(v: int)
    ensures ParseDecimal(DecimalText(v)) == Some(v)
  {
    var n: nat := if v < 0 then -v else v;
    if v < 0 {
      NoNulAfterMinus(NatText(n));
      ParseDigits(NatText(n));
      ParseNegative(NatText(n), DigitsValue(NatText(n)));
    } else {
      ParseNonNegative(NatText(n));
    }
    NatTextValue(n);
  }

  /** Leading white space never changes what a literal parses to. */
  lemma LeadingSpaceIgnored(b: Byte, text: seq<Byte>)
    requires IsSpace(b)
    ensures ParseDecimal([b] + text) == ParseDecimal(text)
  {
    assert ([b] + text)[1..] == text;
    assert CString([b] + text) == [b] + CString(text);
  }

  /** `true` exactly when the literal's text is the word `true`. */
  const TrueText: seq<Byte> := [116, 114, 117, 101]

  function CompileBoolLiteral(text: seq<Byte>): (r: Tree)
    ensures r.BoolConst?
    ensures r.b <==> text == TrueText
  {
    BoolConst(text == TrueText)
  }

  /** An integer literal of the compiled integer type `ty`, whose front-end
      name is `typeName`. A text GMP rejects is a bad number; a value outside
      the type's bounds overflows; otherwise the constant carries exactly the
      parsed value, as the truncation to the type's precision leaves values
      inside its bounds unchanged. */
  function CompileIntegerLiteral(text: seq<Byte>, ty: IntType, typeName: string): (r: Translated)
    ensures r.tree == ErrorMark <==> ParseDecimal(text).None? || !InRange(ParseDecimal(text).value, ty)
    ensures ParseDecimal(text).None? ==> r.diagnostics == [BadNumber]
    ensures ParseDecimal(text).Some? && !InRange(ParseDecimal(text).value, ty) ==>
              r.diagnostics == [IntegerOverflow(typeName)]
    ensures r.tree != ErrorMark ==>
              r.tree == IntConst(IntegerType(ty), ParseDecimal(text).value) && r.diagnostics == []
  {
    match ParseDecimal(text)
    case None => Translated(ErrorMark, [BadNumber])
    case Some(v) =>
      if v < MinValue(ty) || v > MaxValue(ty) then
        Translated(ErrorMark, [IntegerOverflow(typeName)])
      else
        WrapIdentityIffInRange(v, ty);
        Translated(IntConst(IntegerType(ty), Wrap(v, ty)), [])
  }

  /** `300` does not fit `u8` but fits `u16`. */
  lemma UnsignedLiteralBounds()
    ensures CompileIntegerLiteral([51, 48, 48], U8, "u8").diagnostics == [IntegerOverflow("u8")]
    ensures CompileIntegerLiteral([51, 48, 48], U16, "u16").tree == IntConst(IntegerType(U16), 300)
  {
    assert DecimalText(300) == [51, 48, 48] by {
      assert NatText(3) == [51];
      assert NatText(30) == [51] + [48];
      assert NatText(300) == [51, 48] + [48];
    }
    ParseDecimalText(300);
    assert MaxValue(U8) == 255 by {
      assert Pow2(8) == 256;
    }
    assert MaxValue(U16) == 65535 by {
      assert Pow2(8) == 256;
      assert Pow2(16) == 65536;
    }
  }

  /** `-1` fits `i8` but not `u8`. */
  lemma SignedLiteralBounds()
    ensures CompileIntegerLiteral([Minus, 49], U8, "u8").tree == ErrorMark
    ensures CompileIntegerLiteral([Minus, 49], I8, "i8").tree == IntConst(IntegerType(I8), -1)
  {
    ParseDecimalText(-1);
  }

  /** The host's `char`: a byte read as a signed 8-bit value. */
  function SignedChar(b: Byte): (c: int)
    ensures -128 <= c < 128
    ensures b < 128 ==> c == b
    ensures Wrap(c, U8) == b
  {
    if b >= 128 then b - 256 else b
  }

  /** The first byte of the literal as a C string (the terminating NUL when
      the text is empty). */
  function FirstChar(text: seq<Byte>): Byte {
    if text == [] then 0 else text[0]
  }

  /** A character literal becomes a wide character holding its first byte,
      sign-extended from the host's `char`. */
  function CompileCharLiteral(text: seq<Byte>): (r: Tree)
    ensures r.WideCharConst?
    ensures text != [] && text[0] < 128 ==> r.code == text[0]
    ensures text != [] && text[0] >= 128 ==> r.code < 0
  {
    WideCharConst(SignedChar(FirstChar(text)))
  }

  /** A byte literal of compiled integer type `ty`: its first byte,
      sign-extended and then truncated to the type. For `u8` this is the byte
      itself. */
  function CompileByteLiteral(text: seq<Byte>, ty: IntType): (r: Tree)
    ensures r.IntConst? && r.ty == IntegerType(ty) && InRange(r.value, ty)
    ensures ty == U8 ==> r.value == FirstChar(text)
  {
    WrapInRange(SignedChar(FirstChar(text)), ty);
    IntConst(IntegerType(ty), Wrap(SignedChar(FirstChar(text)), ty))
  }

  /** A string literal of front-end type `tyty` (a `&str`) becomes the
      fat-pointer record {address of the string constant, its byte length}. */
  function CompileStringLiteral(text: seq<Byte>, tyty: Ty, be: Backend): (r: Tree)
    ensures r.Constructor? && r.ty == be.compileTy(tyty) && !r.isEnum && r.discriminator == -1
    ensures |r.args| == 2
    ensures r.args[0] == AddressOf(StringConst(text), PointerType(StringType(|text|)))
    ensures r.args[1].IntConst? && r.args[1].ty == SizeType && InRange(r.args[1].value, Usize)
    ensures |text| <= MaxValue(Usize) ==> r.args[1].value == |text|
  {
    var base := StringConst(text);
    var data := AddressOf(base, PointerType(TypeOf(base)));
    WrapInRange(|text|, Usize);
    WrapIdentityIffInRange(|text|, Usize);
    var size := IntConst(SizeType, Wrap(|text|, Usize));
    Constructor(be.compileTy(tyty), false, [data, size], -1)
  }

  /** A byte-string literal of front-end type `&[u8; N]` becomes the address
      of an array constructor whose k-th element is the k-th byte as a
      `char` constant. Any other type is an internal error. */
  method CompileByteStringLiteral(text: seq<Byte>, tyty: Ty, be: Backend) returns (r: Outcome<Tree>)
    ensures r.Ice? <==> !(tyty.RefTy? && tyty.base.ArrayTy?)
    ensures r.Ok? ==>
      var arrayTy := be.compileTy(tyty.base);
      && r.value.AddressOf? && r.value.ty == PointerType(arrayTy)
      && IndexedArray(r.value.operand, arrayTy, seq(|text|, k requires 0 <= k < |text| => CharConst(SignedChar(text[k]))))
  {
    if !tyty.RefTy? {
      return Ice("byte string literal is not a reference");
    }
    if !tyty.base.ArrayTy? {
      return Ice("byte string literal does not reference an array");
    }
    var vals: seq<Tree> := [];
    var indexes: seq<nat> := [];
    var i := 0;
    while i < |text|
      invariant 0 <= i <= |text|
      invariant |vals| == i && |indexes| == i
      invariant forall k :: 0 <= k < i ==> vals[k] == CharConst(SignedChar(text[k])) && indexes[k] == k
    {
      vals := vals + [CharConst(SignedChar(text[i]))];
      indexes := indexes + [i];
      i := i + 1;
    }
    var arrayTy := be.compileTy(tyty.base);
    var constructed := ArrayConstructor(arrayTy, indexes, vals);
    return Ok(AddressOf(constructed, PointerType(arrayTy)));
  }
}
