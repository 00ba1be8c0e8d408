# Expression lowering of the GCC Rust front end, modelled in Dafny

gccrs lowers the type-checked high-level IR (HIR) of a Rust crate to GCC
trees. `CompileExpr` does this for expressions. This project models the
parts of it that decide *what* is built:

- literals, and the integer range check;
- the autoref/autoderef/indirection/unsize adjustments the type checker records;
- dynamic dispatch through a trait object's vtable;
- method-address resolution;
- call, method-call, operator-overload and range construction;
- array expressions;
- the decomposition of a match on a tuple into nested single-column matches;
- the emission of a match as a switch over a stack of open statement blocks.

GCC trees are modelled by the `Ir.Tree` and `Ir.Stmt` datatypes. The type
context, name resolver, HIR mappings, path probe and item compilers are
modelled by maps (`Tables.Tables`) and by the total functions of a
`Collaborators.Backend` value. They are passed in and never interpreted.

A failed `rust_assert` or `gcc_assert`, a `gcc_unreachable`, an out-of-range `.at()`, a
`rust_fatal_error` and undefined behaviour all become the `Ice` (internal
compiler error) outcome, not a precondition. A `requires` on an
operation only restates what its caller has already checked (the kind of
expression, the kind of type, a well-formed `Context`).
Where the source returns `error_mark_node`, the model returns `ErrorMark`.
Diagnostics the source reports with `rust_error_at`/`sorry_at` are returned
alongside the tree, or appended to the context's diagnostics.

Files:

- `types.dfy`: the TyTy kinds, and the integer type table (width and signedness, bounds, truncation).
- `ir.dfy`: GCC trees and statements.
- `hir.dfy`: match expressions and patterns.
- `collaborators.dfy`: the collaborators.
- `tables.dfy`: the lookup tables.
- `literals.dfy`, `adjustments.dfy`, `dispatch.dfy`, `method_resolution.dfy`, `calls.dfy` and `arrays.dfy`: one file per group of operations.
- `tuple_match.dfy`: `organize_tuple_patterns` and `simplify_tuple_match`.
- `match_lowering.dfy`: `visit(MatchExpr)` over a `Context` class holding the block stack.

The loops of the source are methods with loop invariants, each proved equal to
a specification function. The properties of those functions are lemmas.

## Model

| member | source | states |
|---|---|---|
| Types.WrapInRange | gcc/rust/backend/rust-compile-expr.cc:1288-1289 | truncating a value to an integer type always lands inside the type's bounds |
| Types.WrapIdentityIffInRange | gcc/rust/backend/rust-compile-expr.cc:1218-1225 | truncation to the type leaves a value unchanged exactly when it lies between the type's minimum and maximum, so converting after the range check keeps the parsed value |
| Literals.CompileBoolLiteral | gcc/rust/backend/rust-compile-expr.cc:1186-1194 | a boolean literal is the constant true exactly when its text is `true` |
| Literals.ParseDecimalText | gcc/rust/backend/rust-compile-expr.cc:1206-1210 | the base-10 reader recovers every integer from its decimal text, negative ones included |
| Literals.LeadingSpaceIgnored | gcc/rust/backend/rust-compile-expr.cc:1206 | leading white space never changes what the base-10 reader yields |
| Literals.CompileIntegerLiteral | gcc/rust/backend/rust-compile-expr.cc:1197-1226 | unreadable text gives the error mark with a bad-number diagnostic; a value outside [min, max] of the type gives the error mark with an overflow diagnostic naming the type; otherwise the result is the constant holding exactly the parsed value, with no diagnostic (both directions) |
| Literals.UnsignedLiteralBounds | gcc/rust/backend/rust-compile-expr.cc:1212-1225 | `300` overflows `u8` and is the constant 300 of `u16` |
| Literals.SignedLiteralBounds | gcc/rust/backend/rust-compile-expr.cc:1212-1225 | `-1` is rejected for `u8` and is the constant -1 of `i8` |
| Literals.SignedChar | gcc/rust/backend/rust-compile-expr.cc:1276 | a byte read as the host's signed `char` lies in [-128, 128), keeps bytes below 128, and truncates back to the byte |
| Literals.CompileCharLiteral | gcc/rust/backend/rust-compile-expr.cc:1269-1278 | a character literal is a wide-character constant of its first byte: equal to it below 128, negative from 128 on |
| Literals.CompileByteLiteral | gcc/rust/backend/rust-compile-expr.cc:1281-1290 | a byte literal is an integer constant of its type that lies in the type's bounds, and for `u8` it is the byte itself |
| Literals.CompileStringLiteral | gcc/rust/backend/rust-compile-expr.cc:1293-1318 | a string literal is the two-field record {address of the string constant, byte length as a `usize` constant}; the length is exact whenever it fits `usize` |
| Literals.CompileByteStringLiteral | gcc/rust/backend/rust-compile-expr.cc:1321-1352 | a non-`&[T; N]` type is an internal error; otherwise the result is the address of an array constructor pairing index k with the char constant of byte k read as a signed `char`, for every k below the text length |
| Adjustments.DerefStep | gcc/rust/backend/rust-compile-expr.cc:1624-1657 | an overloaded dereference without an overload is an internal error; otherwise it is a one-argument call of the compiled `deref` item, passing the expression borrowed unless the receiver adjustment is an error |
| Adjustments.UnsizeStep | gcc/rust/backend/rust-compile-expr.cc:1672-1703 | unsizing succeeds exactly for an array with a constant domain unsized to a slice type, and yields {address of the array, max-min+1 of its domain as a `usize`} of the slice type |
| Adjustments.RefStep | gcc/rust/backend/rust-compile-expr.cc:1593-1602 | a reference adjustment leaves the value unchanged exactly when it is a slice; otherwise it takes its address at the expected type |
| Adjustments.Step | gcc/rust/backend/rust-compile-expr.cc:1588-1617 | reference steps never fail and leave exactly slices unchanged; after a reference (of a non-slice), an indirection or a successful unsizing, the tree has the compiled expected type |
| Adjustments.AdjustAppend | gcc/rust/backend/rust-compile-expr.cc:1585-1620 | applying a list `a + b` is applying `a` and then `b` to its result, unless `a` holds an error adjustment, in which case `b` is never applied |
| Adjustments.RefsKeepSlice | gcc/rust/backend/rust-compile-expr.cc:1593-1602 | any run of reference adjustments leaves a slice unchanged |
| Adjustments.ResolveAdjustments | gcc/rust/backend/rust-compile-expr.cc:1581-1621 | the loop applies the adjustments strictly in list order, each to the previous result, and an error adjustment returns the error mark at once (equals the fold `Adjust`) |
| Dispatch.SlotSearch | gcc/rust/backend/rust-compile-expr.cc:949-964 | a slot found is below the number of trait object items |
| Dispatch.SlotSearchFirstMatch | gcc/rust/backend/rust-compile-expr.cc:949-967 | the slot found is the first item whose function id is the method's, every earlier item being a non-matching function; nothing is found exactly when every item is a non-matching function |
| Dispatch.FindSlot | gcc/rust/backend/rust-compile-expr.cc:949-964 | the counting loop over the object items computes `SlotSearch` |
| Dispatch.DynObject | gcc/rust/backend/rust-compile-expr.cc:969-982 | a receiver of reference type is dereferenced to its base type; any other is used as is |
| Dispatch.DynCallee | gcc/rust/backend/rust-compile-expr.cc:944-1000 | no matching item gives the error mark; otherwise the result is a virtual call of the trait's function type through field 1 (the vtable) of the trait object at the first matching slot |
| Dispatch.FnAddrFromDyn | gcc/rust/backend/rust-compile-expr.cc:944-1000 | `get_fn_addr_from_dyn` computes `DynCallee` |
| Dispatch.ReceiverFromDyn | gcc/rust/backend/rust-compile-expr.cc:1003-1027 | the receiver passed is field 0 of the trait object (`DynObject`), which is dereferenced to its base type first when the receiver is a reference |
| Dispatch.SameObject | gcc/rust/backend/rust-compile-expr.cc:944-1027 | a virtual call reads the vtable of the same trait object whose field 0 is passed as receiver, at a slot below the item count that holds the called method |
| MethodResolution.ResolveMethodTarget | gcc/rust/backend/rust-compile-expr.cc:1030-1124 | a compiled function wins; then an impl item; then the probe of the receiver's root: no candidate falls back to the trait item, which must be optional, and one impl candidate of function type is compiled with its substitution; anything else (no trait item, several candidates) is an internal error (both directions) |
| Calls.CoercedAt | gcc/rust/backend/rust-compile-expr.cc:698-721 | argument i is lowered and converted to expected type i; a missing expected type or argument type is an internal error |
| Calls.VariantIndex | gcc/rust/backend/rust-compile-expr.cc:690-692 | the variant position found is the first with the id; none is found exactly when no variant has it |
| Calls.ConstructedVariant | gcc/rust/backend/rust-compile-expr.cc:676-693 | a struct must have exactly one variant and gets discriminator -1; an enum's variant is the one recorded for the callee, numbered by its position |
| Calls.FieldArguments | gcc/rust/backend/rust-compile-expr.cc:697-722 | each call argument converted to the field at its position, in order; fewer fields than arguments or an untyped argument is an internal error |
| Calls.AdtConstructor | gcc/rust/backend/rust-compile-expr.cc:665-744 | a constructor's arguments are the converted call arguments in order, preceded for an enum by the folded discriminant, so an enum has one argument more; it carries the enum flag and the variant's discriminator |
| Calls.CallArgument | gcc/rust/backend/rust-compile-expr.cc:787-820 | a variadic function's arguments beyond its parameters are passed unconverted; every other argument is converted to its parameter's type |
| Calls.CallArguments | gcc/rust/backend/rust-compile-expr.cc:787-820 | the whole argument list, one entry per argument in order, as `CallArgument` says (both directions of when it succeeds) |
| Calls.FunctionCall | gcc/rust/backend/rust-compile-expr.cc:746-826 | a function call applies the lowered callee to the arguments; more arguments than parameters implies a variadic callee |
| Calls.VisitCall | gcc/rust/backend/rust-compile-expr.cc:655-826 | an untyped callee reports an unknown type and yields the error mark; a function-typed callee gives exactly `FunctionCall`'s call and an ADT-typed one exactly `AdtConstructor`'s constructor, with no diagnostic; any other callee is an internal error (the assertion at :671) |
| Calls.MethodArguments | gcc/rust/backend/rust-compile-expr.cc:913-937 | method argument i is converted to parameter i+1 (both directions of when it succeeds) |
| Calls.VisitMethodCall | gcc/rust/backend/rust-compile-expr.cc:829-941 | an unresolved name reports and yields the error mark; a resolved call succeeds exactly when all its lookups, the callee, the receiver adjustments and every argument succeed (`MethodCallLowers`), and then passes the adjusted receiver first, then each argument converted to the parameter after it, to the vtable entry or resolved method address |
| Calls.ResolveOperatorOverload | gcc/rust/backend/rust-compile-expr.cc:1127-1183 | an overloaded operator succeeds exactly when its lookups, method resolution and the adjustments of the left operand succeed (`OverloadLowers`), and is then the call of the resolved method address with the adjusted left operand, then the right operand when present (two arguments exactly for binary operators) |
| Calls.VisitRange | gcc/rust/backend/rust-compile-expr.cc:1833-1937 | a bound lowering to the error mark makes the range the error mark; otherwise the range type's record holds the bounds present, `from` before `to` |
| Arrays.DomainLengthExact | gcc/rust/backend/rust-compile-expr.cc:1520-1530 | the element count of a domain is max-min+1 whenever that fits the index type and 64 bits |
| Arrays.ArrayValueExpr | gcc/rust/backend/rust-compile-expr.cc:1474-1491 | the array constructor pairs index k with the k-th lowered element, for every k |
| Arrays.ArrayCopiedExpr | gcc/rust/backend/rust-compile-expr.cc:1494-1578 | a type that is not an array is an internal error (the assertion at :1498); otherwise (`CopiedArray`) no domain gives the error mark; a variable capacity or a non-constant count is reported and gives the error mark; in a constant context the constructor holds one copy of the lowered value per domain element at indexes 0..len-1, elsewhere a run-time initialisation of the array |
| Arrays.VisitArray | gcc/rust/backend/rust-compile-expr.cc:1432-1471 | an untyped array expression, or one whose array type is not a TyTy array, is an internal error; a type not compiling to an array gives the error mark; a value list gives the indexed constructor of its lowered elements; a repeat `[v; n]` gives what `CopiedArray` says for the compiled array type |
| TupleMatch.RestPattern | gcc/rust/backend/rust-compile-expr.cc:242-257 | the remaining sub-patterns become a tuple pattern, unless exactly one remains, which is used alone |
| TupleMatch.Contribution | gcc/rust/backend/rust-compile-expr.cc:203-286 | a case contributes nothing when its first pattern is a wildcard or has ranged items; a missing pattern, a first pattern that is not a tuple or a tuple with no sub-pattern is an internal error; otherwise it contributes its first sub-pattern and a case with the same body matching the rest |
| TupleMatch.InsertLookup | gcc/rust/backend/rust-compile-expr.cc:269-279 | adding a case under a key appends it to that key's group and to no other, keeping keys distinct and groups non-empty |
| TupleMatch.Organized | gcc/rust/backend/rust-compile-expr.cc:194-293 | there are never more groups than cases |
| TupleMatch.OrganizedOk | gcc/rust/backend/rust-compile-expr.cc:196-222 | grouping fails exactly when some case's contribution is an internal error |
| TupleMatch.OrganizedGroups | gcc/rust/backend/rust-compile-expr.cc:199-201 | the groups have distinct keys and are non-empty, and the group of any first sub-pattern is exactly the contributions of the cases starting with it, in case order |
| TupleMatch.WildcardDropped | gcc/rust/backend/rust-compile-expr.cc:214-216 | removing a case whose first pattern is a wildcard does not change the grouping |
| TupleMatch.OrganizedByAddress | gcc/rust/backend/rust-compile-expr.cc:201-279 | the grouping as written, whose lookup never finds a freshly cloned key: never more groups than cases |
| TupleMatch.AddressKeyedSingletons | gcc/rust/backend/rust-compile-expr.cc:269-279 | as written, every contributing case opens a group of its own: there are exactly as many groups as contributing cases, and group i holds the i-th contribution alone |
| TupleMatch.AddressKeyedGroupsRepeat | gcc/rust/backend/rust-compile-expr.cc:269-279 | two cases with the same first sub-pattern end up in two groups with equal keys as written, and in one group of two cases when grouped by pattern equality |
| TupleMatch.OrganizeTuplePatterns | gcc/rust/backend/rust-compile-expr.cc:194-293 | the loop over the cases computes `Organized` |
| TupleMatch.Remaining | gcc/rust/backend/rust-compile-expr.cc:322-335 | the tail of the scrutinee is smaller than the scrutinee, so the recursion ends |
| TupleMatch.Simplified | gcc/rust/backend/rust-compile-expr.cc:297-408 | a non-tuple scrutinee is returned unchanged; a tuple of at most one element or a failed grouping is an internal error; otherwise the match on the head has one arm per group, keyed by its first sub-pattern, whose body is the match on the tail |
| TupleMatch.SimplifiedArms | gcc/rust/backend/rust-compile-expr.cc:341-386 | the arm keys are distinct, each arm's body is the simplified match on the tail over exactly the cases with that key, and every key some case has gets an arm |
| TupleMatch.SimplifyTupleMatch | gcc/rust/backend/rust-compile-expr.cc:297-408 | the recursive method computes `Simplified` |
| MatchLowering.Context.PushBlock | gcc/rust/backend/rust-compile-expr.cc:589-592 | opens an empty innermost block |
| MatchLowering.Context.PopBlock | gcc/rust/backend/rust-compile-expr.cc:640 | returns the innermost block's statements and closes it |
| MatchLowering.Context.AddStatements | gcc/rust/backend/rust-compile-expr.cc:645-646 | appends statements to the innermost block only |
| MatchLowering.Context.FreshLabel | gcc/rust/backend/rust-compile-expr.cc:603-604 | every label made is new |
| MatchLowering.Context.FreshTemp | gcc/rust/backend/rust-compile-expr.cc:491-493 | every temporary made is new |
| MatchLowering.Context.Bind | gcc/rust/backend/rust-compile-expr.cc:615-616 | adds pattern bindings after those in scope |
| MatchLowering.Context.Report | gcc/rust/backend/rust-compile-expr.cc:469-470 | adds a diagnostic after those reported |
| MatchLowering.MatchLowering | gcc/rust/backend/rust-compile-expr.cc:411-652 | an untyped scrutinee or match gives the error mark and emits nothing; a rejected scrutinee type is an internal error; a float scrutinee is reported; a typed match ends with the switch and the end label, and has a temporary declared first and used as its value exactly when it is not unit |
| MatchLowering.EmitSubject | gcc/rust/backend/rust-compile-expr.cc:497-573 | the scrutinee's statements go to the innermost block; the switch tests the scrutinee, the discriminant field of an enum, or the head of a decomposed tuple |
| MatchLowering.EmitArm | gcc/rust/backend/rust-compile-expr.cc:597-636 | one arm appends its case labels, body, assignment of the result and jump to the end, and adds its patterns' bindings |
| MatchLowering.EmitArms | gcc/rust/backend/rust-compile-expr.cc:595-637 | the arms loop fails exactly when an arm has no pattern; otherwise the innermost block becomes the switch body of all arms, arm i labelled end+1+i |
| MatchLowering.EmitNextArm | gcc/rust/backend/rust-compile-expr.cc:597-636 | one iteration extends the emitted arms by the next one |
| MatchLowering.EmitSwitch | gcc/rust/backend/rust-compile-expr.cc:575-646 | the arms are emitted into a block of their own, which becomes the body of the switch appended to the enclosing block, followed by the end label; enclosing blocks are untouched |
| MatchLowering.DeclareResult | gcc/rust/backend/rust-compile-expr.cc:481-495 | a non-unit match declares a fresh temporary of its compiled type in the innermost block |
| MatchLowering.EmitBody | gcc/rust/backend/rust-compile-expr.cc:497-646 | the scrutinee's statements, then the switch and the end label, are appended |
| MatchLowering.EmitTyped | gcc/rust/backend/rust-compile-expr.cc:481-651 | with both types known, the emitted statements, bindings, labels, temporaries and value are those of `TypedLowering` |
| MatchLowering.CompileMatch | gcc/rust/backend/rust-compile-expr.cc:411-652 | the context ends up with exactly what `MatchLowering` says appended to its innermost block, bindings and diagnostics, the enclosing blocks unchanged |
| MatchLowering.ArmControl | gcc/rust/backend/rust-compile-expr.cc:597-636 | an arm whose body transfers no control dispatches through its case labels and then jumps to the end |
| MatchLowering.SwitchControl | gcc/rust/backend/rust-compile-expr.cc:595-637 | the control flow of the switch body is, arm after arm in source order, one case label per pattern for label end+1+i, then the jump to the end |
| MatchLowering.LastArmControl | gcc/rust/backend/rust-compile-expr.cc:595-637 | the switch body's control flow grows by the last arm's labels and jump |
| MatchLowering.ArmsOfGroups | gcc/rust/backend/rust-compile-expr.cc:371-385 | the arms of a decomposed match dispatch one case label per group key |
| MatchLowering.TupleMatchLowering | gcc/rust/backend/rust-compile-expr.cc:520-553 | a tuple match uses one label per group plus the end label, and its switch dispatches each distinct first sub-pattern to its own arm, then to the end |
| MatchLowering.ScalarMatchLowering | gcc/rust/backend/rust-compile-expr.cc:497-519 | a match on a primitive or an enum switches on the scrutinee's value, or on the first field of its first field for an enum; it uses one label per arm plus the end label, and its switch dispatches the patterns of arm i to label end+1+i, each arm then jumping to the end |

## Left out

- `compile_float_literal` (rust-compile-expr.cc:1229-1266) is floating point, rounded by MPFR.
- `type_cast_expression` (:1355-1429) delegates entirely to GCC's conversion and folding.
- The operator visitors (arithmetic, compound assignment, negation, borrow, dereference; :42-186) are left out; only `resolve_operator_overload` is modelled.
- `visit(IdentifierExpr)` (:1706-1831) and `visit(ArrayIndexExpr)` (:1940-2009) are left out.
- Tree construction, folding and GCC's own checks are left out: trees are datatype constructors, `fold_expr` is the `Folded` wrapper, and a constant is what `Ir.IsConstant` says.
- The type resolver, the path probe, the item compilers, `coercion_site`, the pattern case-label and binding compilers, and the lowering of sub-expressions are parameters (`Collaborators.Backend`). Their results are uninterpreted. The rust-compile-*.h headers and the compilers they declare are not part of this model.
- `Context` keeps only what match lowering uses: the block stack, fresh labels and temporaries, bindings and diagnostics. Scope handling, location data and the function context are left out. A binding is recorded in `bindings`, not as a statement.
- Arm guards are not modelled, and neither are the several patterns of an arm beyond the first when grouping tuple cases. The source ignores both.
- Tuple items given as a range (`RANGED`, :282-286) contribute nothing, as in the source.
- `simplify_tuple_match` overwrites the match in place (:530-531) and then compiles the head again (:549-551). The model computes the decomposed match as a new value. It emits the first compilation's statements and then the head's, and takes the head as the value tested and bound.
- The order of the groups: the source orders them by the address of freshly cloned patterns, which the model does not know. It keeps them in order of first appearance and states nothing else about group order.
- `TupleMatch.Simplified`: the decomposition (and so `SimplifiedArms`, `SimplifyTupleMatch`, `MatchLowering.TupleMatchLowering` and the lowering of tuple matches) uses the grouping by pattern equality of the Findings row (`TupleMatch.Organized`), not the address-keyed grouping of :201-279, which gives one outer arm per contributing case with repeated keys (`TupleMatch.AddressKeyedSingletons`).
- The debug `printf` output is left out (:400-404, :535-539, :594, :609, :618).
- rust-macro-builtins.cc is not part of this model (file I/O and parser wrappers).
- The torture test match_tuple1.rs is not proved end to end. Its result depends on the wildcard arm, which the decomposition drops.
- Fatal errors are `Ice` outcomes. `rust_fatal_error` ("reverse lookup failure") ends compilation, which the model does not distinguish from an internal error.
- An expression whose lowering only reports with `rust_error_at` and returns (unknown type, unresolved method call) is assumed to leave `translated` at the error mark. The initial value of `translated` is set in a header that is not part of this model.
- `MatchLowering.MatchLowering`: the emitted statements of an arm body come from the collaborator, so control flow inside nested matches is not followed. `TupleMatchLowering` assumes that the bodies of the decomposed match's arms transfer no control at the level of the switch.
- `Types.PointerBits`: the target is assumed to be 64-bit, so `usize`, `isize` and the size type are 64 bits wide. This fixes the bounds of `usize`/`isize` literals and the width to which `Literals.CompileStringLiteral` truncates the length (:1310-1314).
- `Adjustments.Step`: unsizing assumes a 64-bit host-wide integer for the domain length (`Ir.DomainLength`).
- A trait item lookup that fails and a trait item that is not a function both become the same `Ice` outcome in `MethodResolution.ResolveMethodTarget`.
- The host's `char` is taken to be signed (x86 and most targets). On hosts where it is unsigned, character, byte and byte-string literals would not sign-extend.
- `Arrays.ArrayCopiedExpr`: the block pushed and popped around a non-constant array initialisation (:1562-1572) is not modelled. The result is an opaque `ArrayInit` tree.

## Findings

| source | as written | input that shows it | evidently intended | confidence | as-written member | corrected member |
|---|---|---|---|---|---|---|
| gcc/rust/backend/rust-compile-expr.cc:201 | the grouping map is keyed by `std::unique_ptr<HIR::Pattern>` and every key is a fresh clone (:212, :232), so `map.find (first)` (:269) compares addresses and never finds an earlier case; every contributing case gets a group of its own | `match (a, b) { (A, 1) => x, (A, 2) => y }`: the decomposition has two outer arms both keyed `A`, so the second arm can never be reached | group cases by their first sub-pattern, as the comments at :189-192 and :337-340 describe, with one outer arm per distinct first sub-pattern | not executed | TupleMatch.OrganizedByAddress, TupleMatch.AddressKeyedSingletons, TupleMatch.AddressKeyedGroupsRepeat | TupleMatch.Organized, TupleMatch.OrganizedGroups |
