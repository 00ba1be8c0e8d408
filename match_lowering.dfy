/** Lowering of a match expression to a switch statement: an optional
    temporary for the match's value, the scrutinee, then a switch whose
    body holds, arm by arm, a case label per pattern, the arm's body, the
    assignment of its value to the temporary and a jump to the end label,
    which follows the switch. */
module MatchLowering {
  import opened Types
  import opened Ir
  import opened Hir
  import opened Collaborators
  import opened Tables
  import opened TupleMatch

  /** The part of the compilation context match lowering uses: the stack of
      open statement blocks (statements go to the innermost, the last), the
      counters that make labels and temporaries fresh, the pattern bindings
      in scope and the diagnostics reported. */
  class Context {
    var blocks: seq<seq<Stmt>>
    var nextLabel: nat
    var nextTemp: nat
    var bindings: seq<Binding>
    var diagnostics: seq<Diagnostic>

    predicate Valid()
      reads this
    {
      |blocks| > 0
    }

    /** The blocks that enclose the innermost one. */
    function Enclosing(): seq<seq<Stmt>>
      reads this
      requires Valid()
    {
      blocks[..|blocks| - 1]
    }

    /** The statements of the innermost open block. */
    function Innermost(): seq<Stmt>
      reads this
      requires Valid()
    {
      blocks[|blocks| - 1]
    }

    /** A context with the function body as its only open block. */
    constructor()
      ensures Valid() && blocks == [[]]
      ensures nextLabel == 0 && nextTemp == 0 && bindings == [] && diagnostics == []
    {
      blocks := [[]];
      nextLabel := 0;
      nextTemp := 0;
      bindings := [];
      diagnostics := [];
    }

    /** Context::push_block: opens a new innermost block. */
    method PushBlock()
      modifies this`blocks
      ensures blocks == old(blocks) + [[]]
    {
      blocks := blocks + [[]];
    }

    /** Context::pop_block: closes the innermost block and returns its
      statements. */
    method PopBlock() returns (body: seq<Stmt>)
      requires |blocks| > 1
      modifies this`blocks
      ensures body == old(Innermost())
      ensures blocks == old(Enclosing())
    {
      body := blocks[|blocks| - 1];
      blocks := blocks[..|blocks| - 1];
    }

    /** Context::add_statement, for a run of statements: appends them to the
      innermost block. */
    method AddStatements(stmts: seq<Stmt>)
      requires Valid()
      modifies this`blocks
      ensures Valid() && |blocks| == old(|blocks|)
      ensures Enclosing() == old(Enclosing())
      ensures Innermost() == old(Innermost()) + stmts
    {
      blocks := blocks[..|blocks| - 1] + [blocks[|blocks| - 1] + stmts];
    }

    /** A new artificial label. */
    method FreshLabel() returns (name: nat)
      modifies this`nextLabel
      ensures name == old(nextLabel) && nextLabel == name + 1
    {
      name := nextLabel;
      nextLabel := nextLabel + 1;
    }

    /** A new temporary variable. */
    method FreshTemp() returns (tmp: nat)
      modifies this`nextTemp
      ensures tmp == old(nextTemp) && nextTemp == tmp + 1
    {
      tmp := nextTemp;
      nextTemp := nextTemp + 1;
    }

    /** Brings pattern bindings into scope. */
    method Bind(bs: seq<Binding>)
      modifies this`bindings
      ensures bindings == old(bindings) + bs
    {
      bindings := bindings + bs;
    }

    /** Reports a diagnostic. */
    method Report(d: Diagnostic)
      modifies this`diagnostics
      ensures diagnostics == old(diagnostics) + [d]
    {
      diagnostics := diagnostics + [d];
    }
  }

  /** The scrutinee types lowering accepts: a primitive other than `!`, an
      enum with at least one variant, or a tuple. */
  predicate ScrutineeTypeOk(ty: Ty) {
    || (IsPrimitive(ty) && !ty.NeverTy?)
    || (ty.AdtTy? && ty.adt.isEnum && |ty.adt.variants| > 0)
    || ty.TupleTy?
  }

  /** The diagnostic for a match on floating-point values, which case labels
      cannot express. */
  const FloatMatch := NotYetSupported("match on floating-point types")

  /** What lowering the scrutinee yields: its statements, the value patterns
      bind to, the value the switch tests and the arms to emit. */
  datatype Subject = Subject(stmts: seq<Stmt>, value: Tree, qualifier: Tree, arms: seq<Case>)

  /** The scrutinee is compiled; an enum is switched on the discriminant in
      the first field of its first field. A tuple expression scrutinee turns
      the match into its decomposition, whose first element is compiled and
      switched on and whose arms are emitted instead. A tuple-typed
      scrutinee that is not a tuple expression has no value to switch on. */
  function LowerSubject(m: Expr, ty: Ty, be: Backend): Outcome<Subject>
    requires m.MatchExpr? && ScrutineeTypeOk(ty)
  {
    var first := be.lowerExpr(m.scrutinee);
    if IsPrimitive(ty) then Ok(Subject(first.stmts, first.value, first.value, m.cases))
    else if ty.AdtTy? then Ok(Subject(first.stmts, first.value, FieldRef(FieldRef(first.value, 0), 0), m.cases))
    else if !m.scrutinee.TupleExpr? then Ice("tuple scrutinee that is not a tuple expression")
    else
      match Simplified(m)
      case Ice(why) => Ice(why)
      case Ok(outer) =>
        var head := be.lowerExpr(outer.scrutinee);
        Ok(Subject(first.stmts + head.stmts, head.value, head.value, outer.cases))
  }

  /** One case label per pattern, all for the arm's label. */
  function CaseLabels(patterns: seq<Pattern>, name: nat, be: Backend): seq<Stmt> {
    seq(|patterns|, k requires 0 <= k < |patterns| => CaseLabel(be.caseRange(patterns[k]), name))
  }

  /** The bindings the patterns introduce, pattern by pattern. */
  function PatternBindings(patterns: seq<Pattern>, value: Tree, be: Backend): seq<Binding> {
    if patterns == [] then []
    else PatternBindings(patterns[..|patterns| - 1], value, be) + be.bindings(patterns[|patterns| - 1], value)
  }

  /** The statements of one arm: its case labels, its body's statements, the
      assignment of the body's value to the result temporary if there is
      one, and the jump to the end label. */
  function ArmBlock(c: Case, caseLabel: nat, result: Option<Tree>, end: nat, be: Backend): seq<Stmt> {
    var body := be.lowerExpr(c.body);
    CaseLabels(c.patterns, caseLabel, be) + body.stmts
      + (if result.Some? then [Assign(result.value, body.value)] else [])
      + [Goto(end)]
  }

  /** The switch body: the arms in order, arm i labelled end + 1 + i. */
  function SwitchBody(arms: seq<Case>, end: nat, result: Option<Tree>, be: Backend): seq<Stmt> {
    if arms == [] then []
    else SwitchBody(arms[..|arms| - 1], end, result, be) + ArmBlock(arms[|arms| - 1], end + |arms|, result, end, be)
  }

  /** The bindings of all arms, in order. */
  function ArmBindings(arms: seq<Case>, value: Tree, be: Backend): seq<Binding> {
    if arms == [] then []
    else ArmBindings(arms[..|arms| - 1], value, be) + PatternBindings(arms[|arms| - 1].patterns, value, be)
  }

  predicate EveryArmHasPattern(arms: seq<Case>) {
    forall i :: 0 <= i < |arms| ==> |arms[i].patterns| > 0
  }

  /** Everything lowering a match adds to the context: the statements
      appended to the innermost block, the bindings, the diagnostics, the
      number of labels and temporaries used, and the value of the match. */
  datatype Emission = Emission(
    stmts: seq<Stmt>,
    bindings: seq<Binding>,
    diagnostics: seq<Diagnostic>,
    labels: nat,
    temps: nat,
    result: Tree)

  /** The temporary holding the value of a match of type `ety`: none for
      the unit type. */
  function ResultTemp(ety: Ty, tmp: nat, be: Backend): Option<Tree> {
    if be.isUnit(ety) then None else Some(TempRef(tmp, be.compileTy(ety)))
  }

  /** The declaration of that temporary, if there is one. */
  function ResultDecl(ety: Ty, tmp: nat, be: Backend): seq<Stmt> {
    if be.isUnit(ety) then [] else [TempDecl(tmp, be.compileTy(ety))]
  }

  /** The switch over the arms, followed by the definition of the end label. */
  function SwitchStmts(subject: Subject, end: nat, result: Option<Tree>, be: Backend): seq<Stmt> {
    [Switch(subject.qualifier, SwitchBody(subject.arms, end, result, be)), LabelDef(end)]
  }

  /** Lowering once both types are known: the result temporary, the
      scrutinee and the switch, with no diagnostics of its own. */
  function TypedLowering(m: Expr, sty: Ty, ety: Ty, be: Backend, end: nat, tmp: nat): Outcome<Emission>
    requires m.MatchExpr? && ScrutineeTypeOk(sty)
  {
    var result := ResultTemp(ety, tmp, be);
    match LowerSubject(m, sty, be)
    case Ice(why) => Ice(why)
    case Ok(subject) =>
      if !EveryArmHasPattern(subject.arms) then Ice("match arm without a pattern")
      else
        Ok(Emission(
          ResultDecl(ety, tmp, be) + (subject.stmts + SwitchStmts(subject, end, result, be)),
          ArmBindings(subject.arms, subject.value, be),
          [],
          |subject.arms| + 1,
          if result.Some? then 1 else 0,
          if result.Some? then result.value else ErrorMark))
  }

  /** CompileExpr::visit(MatchExpr) as a function of the first fresh label
      `end` and the first fresh temporary `tmp`. A scrutinee or match without
      a type yields the error mark and emits nothing; a scrutinee type not
      accepted, an undecomposable tuple scrutinee and an arm without a
      pattern are internal errors. A match of non-unit type declares a
      temporary first, assigns it in every arm and has it as its value. */
  function MatchLowering(m: Expr, t: Tables, be: Backend, end: nat, tmp: nat): (r: Outcome<Emission>)
    requires m.MatchExpr?
    ensures m.scrutinee.id !in t.types ==> r == Ok(Emission([], [], [], 0, 0, ErrorMark))
    ensures m.scrutinee.id in t.types && !ScrutineeTypeOk(t.types[m.scrutinee.id]) ==> r.Ice?
    ensures r.Ok? && m.scrutinee.id in t.types ==>
      && r.value.diagnostics == (if t.types[m.scrutinee.id].FloatTy? then [FloatMatch] else [])
      && (m.id !in t.types ==> r.value == Emission([], [], r.value.diagnostics, 0, 0, ErrorMark))
    ensures r.Ok? && m.scrutinee.id in t.types && m.id in t.types ==>
      var ety := t.types[m.id];
      var e := r.value;
      && |e.stmts| >= 2
      && e.stmts[|e.stmts| - 2].Switch?
      && e.stmts[|e.stmts| - 1] == LabelDef(end)
      && e.labels >= 1
      && (be.isUnit(ety) ==> e.result == ErrorMark && e.temps == 0)
      && (!be.isUnit(ety) ==>
            && e.temps == 1
            && e.stmts[0] == TempDecl(tmp, be.compileTy(ety))
            && e.result == TempRef(tmp, be.compileTy(ety)))
  {
    if m.scrutinee.id !in t.types then Ok(Emission([], [], [], 0, 0, ErrorMark))
    else
      var sty := t.types[m.scrutinee.id];
      if !ScrutineeTypeOk(sty) then Ice("scrutinee type cannot be switched on")
      else
        var diagnostics := if sty.FloatTy? then [FloatMatch] else [];
        if m.id !in t.types then Ok(Emission([], [], diagnostics, 0, 0, ErrorMark))
        else
          match TypedLowering(m, sty, t.types[m.id], be, end, tmp)
          case Ice(why) => Ice(why)
          case Ok(e) => Ok(e.(diagnostics := diagnostics))
  }

  /** The scrutinee part of CompileExpr::visit(MatchExpr): its statements
      go to the innermost block. */
  method EmitSubject(ctx: Context, m: Expr, ty: Ty, be: Backend) returns (r: Outcome<Subject>)
    requires m.MatchExpr? && ScrutineeTypeOk(ty) && ctx.Valid()
    modifies ctx`blocks
    ensures r == LowerSubject(m, ty, be)
    ensures ctx.Valid() && |ctx.blocks| == old(|ctx.blocks|)
    ensures ctx.Enclosing() == old(ctx.Enclosing())
    ensures r.Ok? ==> ctx.Innermost() == old(ctx.Innermost()) + r.value.stmts
  {
    var first := be.lowerExpr(m.scrutinee);
    ctx.AddStatements(first.stmts);
    if IsPrimitive(ty) {
      return Ok(Subject(first.stmts, first.value, first.value, m.cases));
    } else if ty.AdtTy? {
      return Ok(Subject(first.stmts, first.value, FieldRef(FieldRef(first.value, 0), 0), m.cases));
    } else if !m.scrutinee.TupleExpr? {
      return Ice("tuple scrutinee that is not a tuple expression");
    }
    var outer := SimplifyTupleMatch(m);
    if outer.Ice? {
      return Ice(outer.why);
    }
    var head := be.lowerExpr(outer.value.scrutinee);
    ctx.AddStatements(head.stmts);
    return Ok(Subject(first.stmts + head.stmts, head.value, head.value, outer.value.cases));
  }

  /** One arm of CompileExpr::visit(MatchExpr): a case label per pattern
      with its bindings, the body, the assignment to the result temporary
      and the jump to the end label. */
  method EmitArm(ctx: Context, kase: Case, name: nat, value: Tree, result: Option<Tree>, end: nat, be: Backend)
    requires ctx.Valid()
    modifies ctx`blocks, ctx`bindings
    ensures ctx.Valid() && |ctx.blocks| == old(|ctx.blocks|)
    ensures ctx.Enclosing() == old(ctx.Enclosing())
    ensures ctx.Innermost() == old(ctx.Innermost()) + ArmBlock(kase, name, result, end, be)
    ensures ctx.bindings == old(ctx.bindings) + PatternBindings(kase.patterns, value, be)
  {
    var k := 0;
    while k < |kase.patterns|
      invariant 0 <= k <= |kase.patterns|
      invariant ctx.Valid() && |ctx.blocks| == old(|ctx.blocks|)
      invariant ctx.Enclosing() == old(ctx.Enclosing())
      invariant ctx.Innermost() == old(ctx.Innermost()) + CaseLabels(kase.patterns[..k], name, be)
      invariant ctx.bindings == old(ctx.bindings) + PatternBindings(kase.patterns[..k], value, be)
    {
      assert CaseLabels(kase.patterns[..k + 1], name, be)
        == CaseLabels(kase.patterns[..k], name, be) + [CaseLabel(be.caseRange(kase.patterns[k]), name)];
      assert kase.patterns[..k + 1][..k] == kase.patterns[..k];
      ctx.AddStatements([CaseLabel(be.caseRange(kase.patterns[k]), name)]);
      ctx.Bind(be.bindings(kase.patterns[k], value));
      k := k + 1;
    }
    assert kase.patterns[..k] == kase.patterns;
    var body := be.lowerExpr(kase.body);
    ctx.AddStatements(body.stmts);
    if result.Some? {
      ctx.AddStatements([Assign(result.value, body.value)]);
    }
    ctx.AddStatements([Goto(end)]);
  }

  /** The arms of CompileExpr::visit(MatchExpr), arm i labelled
      end + 1 + i, appended to the innermost block. Fails, leaving the
      context unspecified, at the first arm without a pattern. */
  method EmitArms(ctx: Context, arms: seq<Case>, end: nat, value: Tree, result: Option<Tree>, be: Backend)
    returns (ok: bool)
    requires ctx.Valid() && ctx.Innermost() == [] && ctx.nextLabel == end + 1
    modifies ctx`blocks, ctx`bindings, ctx`nextLabel
    ensures ok <==> EveryArmHasPattern(arms)
    ensures ok ==>
      && ctx.Valid() && |ctx.blocks| == old(|ctx.blocks|)
      && ctx.Enclosing() == old(ctx.Enclosing())
      && ctx.Innermost() == SwitchBody(arms, end, result, be)
      && ctx.nextLabel == end + 1 + |arms|
      && ctx.bindings == old(ctx.bindings) + ArmBindings(arms, value, be)
  {
    ghost var enclosing := ctx.Enclosing();
    ghost var bindings := ctx.bindings;
    var i := 0;
    assert arms[..0] == [];
    while i < |arms|
      invariant 0 <= i <= |arms|
      invariant ArmsEmitted(ctx, arms, i, end, value, result, be, enclosing, bindings)
    {
      if |arms[i].patterns| == 0 {
        assert !EveryArmHasPattern(arms) by {
          assert |arms[i].patterns| == 0;
        }
        return false;
      }
      EmitNextArm(ctx, arms, i, end, value, result, be, enclosing, bindings);
      i := i + 1;
    }
    assert arms[..i] == arms;
    return true;
  }

  /** The first `i` arms are in the innermost block, which sits on the given
      enclosing blocks, and their bindings follow the given ones. */
  ghost predicate ArmsEmitted(ctx: Context, arms: seq<Case>, i: nat, end: nat, value: Tree, result: Option<Tree>,
                              be: Backend, enclosing: seq<seq<Stmt>>, bindings: seq<Binding>)
    reads ctx
  {
    && i <= |arms|
    && ctx.Valid()
    && ctx.Enclosing() == enclosing
    && ctx.Innermost() == SwitchBody(arms[..i], end, result, be)
    && ctx.nextLabel == end + 1 + i
    && ctx.bindings == bindings + ArmBindings(arms[..i], value, be)
    && EveryArmHasPattern(arms[..i])
  }

  /** One iteration of the arms loop of CompileExpr::visit(MatchExpr). */
  method EmitNextArm(ctx: Context, arms: seq<Case>, i: nat, end: nat, value: Tree, result: Option<Tree>,
                     be: Backend, ghost enclosing: seq<seq<Stmt>>, ghost bindings: seq<Binding>)
    requires i < |arms| && |arms[i].patterns| > 0
    requires ArmsEmitted(ctx, arms, i, end, value, result, be, enclosing, bindings)
    modifies ctx`blocks, ctx`bindings, ctx`nextLabel
    ensures ArmsEmitted(ctx, arms, i + 1, end, value, result, be, enclosing, bindings)
  {
    var name := ctx.FreshLabel();
    ghost var bound := ctx.bindings;
    EmitArm(ctx, arms[i], name, value, result, end, be);
    ArmsStep(arms, i, end, value, result, be);
    assert ctx.bindings == bindings + ArmBindings(arms[..i + 1], value, be) by {
      assert bound == bindings + ArmBindings(arms[..i], value, be);
    }
  }

  /** One more arm extends the switch body, the bindings and the arms
      checked to have a pattern. */
  lemma ArmsStep(arms: seq<Case>, i: nat, end: nat, value: Tree, result: Option<Tree>, be: Backend)
    requires i < |arms|
    ensures SwitchBody(arms[..i + 1], end, result, be)
      == SwitchBody(arms[..i], end, result, be) + ArmBlock(arms[i], end + 1 + i, result, end, be)
    ensures ArmBindings(arms[..i + 1], value, be)
      == ArmBindings(arms[..i], value, be) + PatternBindings(arms[i].patterns, value, be)
    ensures EveryArmHasPattern(arms[..i]) && |arms[i].patterns| > 0 ==> EveryArmHasPattern(arms[..i + 1])
  {
    assert arms[..i + 1][..i] == arms[..i];
  }

  /** The switch of CompileExpr::visit(MatchExpr): the end label, the arms
      emitted into a block of their own, then the switch on the subject's
      qualifier over that block, then the end label's definition. */
  method EmitSwitch(ctx: Context, subject: Subject, result: Option<Tree>, be: Backend) returns (ok: bool)
    requires ctx.Valid()
    modifies ctx`blocks, ctx`bindings, ctx`nextLabel
    ensures ok <==> EveryArmHasPattern(subject.arms)
    ensures ok ==>
      var end := old(ctx.nextLabel);
      && ctx.Valid() && |ctx.blocks| == old(|ctx.blocks|)
      && ctx.Enclosing() == old(ctx.Enclosing())
      && ctx.Innermost() == old(ctx.Innermost()) + SwitchStmts(subject, end, result, be)
      && ctx.nextLabel == end + |subject.arms| + 1
      && ctx.bindings == old(ctx.bindings) + ArmBindings(subject.arms, subject.value, be)
  {
    ghost var outerBlocks := ctx.blocks;
    var end := ctx.FreshLabel();
    ctx.PushBlock();
    assert ctx.Innermost() == [];
    ok := EmitArms(ctx, subject.arms, end, subject.value, result, be);
    if !ok {
      return;
    }
    assert ctx.Enclosing() == outerBlocks;
    var switchBody := ctx.PopBlock();
    ctx.AddStatements([Switch(subject.qualifier, switchBody), LabelDef(end)]);
  }

  /** The temporary of CompileExpr::visit(MatchExpr), declared in the
      innermost block when the match has a value. */
  method DeclareResult(ctx: Context, ety: Ty, be: Backend) returns (result: Option<Tree>)
    requires ctx.Valid()
    modifies ctx`blocks, ctx`nextTemp
    ensures result == ResultTemp(ety, old(ctx.nextTemp), be)
    ensures ctx.nextTemp == old(ctx.nextTemp) + |ResultDecl(ety, old(ctx.nextTemp), be)|
    ensures ctx.Valid() && |ctx.blocks| == old(|ctx.blocks|)
    ensures ctx.Enclosing() == old(ctx.Enclosing())
    ensures ctx.Innermost() == old(ctx.Innermost()) + ResultDecl(ety, old(ctx.nextTemp), be)
  {
    if be.isUnit(ety) {
      assert ctx.Innermost() + [] == ctx.Innermost();
      return None;
    }
    var blockType := be.compileTy(ety);
    var tmp := ctx.FreshTemp();
    ctx.AddStatements([TempDecl(tmp, blockType)]);
    return Some(TempRef(tmp, blockType));
  }

  /** CompileExpr::visit(MatchExpr) once both types are known. */
  method EmitTyped(ctx: Context, m: Expr, sty: Ty, ety: Ty, be: Backend) returns (r: Outcome<Tree>)
    requires m.MatchExpr? && ScrutineeTypeOk(sty) && ctx.Valid()
    modifies ctx`blocks, ctx`bindings, ctx`nextLabel, ctx`nextTemp
    ensures r.Ice? <==> TypedLowering(m, sty, ety, be, old(ctx.nextLabel), old(ctx.nextTemp)).Ice?
    ensures r.Ok? ==>
      var e := TypedLowering(m, sty, ety, be, old(ctx.nextLabel), old(ctx.nextTemp)).value;
      && r.value == e.result
      && ctx.Valid() && |ctx.blocks| == old(|ctx.blocks|)
      && ctx.Enclosing() == old(ctx.Enclosing())
      && ctx.Innermost() == old(ctx.Innermost()) + e.stmts
      && ctx.nextLabel == old(ctx.nextLabel) + e.labels
      && ctx.nextTemp == old(ctx.nextTemp) + e.temps
      && ctx.bindings == old(ctx.bindings) + e.bindings
  {
    ghost var tmp0 := ctx.nextTemp;
    ghost var top := ctx.Innermost();
    ghost var decl := ResultDecl(ety, tmp0, be);
    var result := DeclareResult(ctx, ety, be);
    ghost var end := ctx.nextLabel;
    var subject, ok := EmitBody(ctx, m, sty, result, be);
    if subject.Ice? {
      return Ice(subject.why);
    }
    if !ok {
      TypedLoweringIce(m, sty, ety, be, end, tmp0, subject.value);
      return Ice("match arm without a pattern");
    }
    AppendAssoc(top, decl, subject.value.stmts, SwitchStmts(subject.value, end, result, be));
    TypedLoweringOk(m, sty, ety, be, end, tmp0, subject.value);
    return Ok(if result.Some? then result.value else ErrorMark);
  }

  /** The scrutinee and the switch of CompileExpr::visit(MatchExpr). */
  method EmitBody(ctx: Context, m: Expr, sty: Ty, result: Option<Tree>, be: Backend)
    returns (subject: Outcome<Subject>, ok: bool)
    requires m.MatchExpr? && ScrutineeTypeOk(sty) && ctx.Valid()
    modifies ctx`blocks, ctx`bindings, ctx`nextLabel
    ensures subject == LowerSubject(m, sty, be)
    ensures subject.Ok? ==> (ok <==> EveryArmHasPattern(subject.value.arms))
    ensures subject.Ok? && ok ==>
      && ctx.Valid() && |ctx.blocks| == old(|ctx.blocks|)
      && ctx.Enclosing() == old(ctx.Enclosing())
      && ctx.Innermost() == old(ctx.Innermost()) + subject.value.stmts
           + SwitchStmts(subject.value, old(ctx.nextLabel), result, be)
      && ctx.nextLabel == old(ctx.nextLabel) + |subject.value.arms| + 1
      && ctx.bindings == old(ctx.bindings) + ArmBindings(subject.value.arms, subject.value.value, be)
  {
    subject := EmitSubject(ctx, m, sty, be);
    if subject.Ice? {
      return subject, false;
    }
    ok := EmitSwitch(ctx, subject.value, result, be);
  }

  lemma AppendAssoc(a: seq<Stmt>, b: seq<Stmt>, c: seq<Stmt>, d: seq<Stmt>)
    ensures a + b + c + d == a + (b + (c + d))
  {
  }

  lemma TypedLoweringIce(m: Expr, sty: Ty, ety: Ty, be: Backend, end: nat, tmp: nat, subject: Subject)
    requires m.MatchExpr? && ScrutineeTypeOk(sty)
    requires LowerSubject(m, sty, be) == Ok(subject) && !EveryArmHasPattern(subject.arms)
    ensures TypedLowering(m, sty, ety, be, end, tmp).Ice?
  {
  }

  lemma TypedLoweringOk(m: Expr, sty: Ty, ety: Ty, be: Backend, end: nat, tmp: nat, subject: Subject)
    requires m.MatchExpr? && ScrutineeTypeOk(sty)
    requires LowerSubject(m, sty, be) == Ok(subject) && EveryArmHasPattern(subject.arms)
    ensures var result := ResultTemp(ety, tmp, be);
      TypedLowering(m, sty, ety, be, end, tmp) == Ok(Emission(
        ResultDecl(ety, tmp, be) + (subject.stmts + SwitchStmts(subject, end, result, be)),
        ArmBindings(subject.arms, subject.value, be),
        [],
        |subject.arms| + 1,
        |ResultDecl(ety, tmp, be)|,
        if result.Some? then result.value else ErrorMark))
  {
  }

  /** CompileExpr::visit(MatchExpr): the statements are appended to the
      context's innermost block in the order the source emits them. */
  method CompileMatch(ctx: Context, m: Expr, t: Tables, be: Backend) returns (r: Outcome<Tree>)
    requires m.MatchExpr? && ctx.Valid()
    modifies ctx
    ensures r.Ice? <==> MatchLowering(m, t, be, old(ctx.nextLabel), old(ctx.nextTemp)).Ice?
    ensures r.Ok? ==>
      var e := MatchLowering(m, t, be, old(ctx.nextLabel), old(ctx.nextTemp)).value;
      && r.value == e.result
      && ctx.Valid() && |ctx.blocks| == old(|ctx.blocks|)
      && ctx.Enclosing() == old(ctx.Enclosing())
      && ctx.Innermost() == old(ctx.Innermost()) + e.stmts
      && ctx.nextLabel == old(ctx.nextLabel) + e.labels
      && ctx.nextTemp == old(ctx.nextTemp) + e.temps
      && ctx.bindings == old(ctx.bindings) + e.bindings
      && ctx.diagnostics == old(ctx.diagnostics) + e.diagnostics
  {
    if m.scrutinee.id !in t.types {
      assert ctx.Innermost() + [] == ctx.Innermost();
      return Ok(ErrorMark);
    }
    var sty := t.types[m.scrutinee.id];
    if !ScrutineeTypeOk(sty) {
      return Ice("scrutinee type cannot be switched on");
    }
    if sty.FloatTy? {
      ctx.Report(FloatMatch);
    }
    if m.id !in t.types {
      assert ctx.Innermost() + [] == ctx.Innermost();
      return Ok(ErrorMark);
    }
    r := EmitTyped(ctx, m, sty, t.types[m.id], be);
  }

  /** The statements that transfer control: case labels and jumps. */
  function Control(stmts: seq<Stmt>): seq<Stmt> {
    if stmts == [] then []
    else
      var last := stmts[|stmts| - 1];
      Control(stmts[..|stmts| - 1]) + (if last.CaseLabel? || last.Goto? then [last] else [])
  }

  lemma {:induction false} ControlAppend(a: seq<Stmt>, b: seq<Stmt>)
    ensures Control(a + b) == Control(a) + Control(b)
  {
    if b != [] {
      assert (a + b)[..|a + b| - 1] == a + b[..|b| - 1];
      ControlAppend(a, b[..|b| - 1]);
    } else {
      assert a + b == a;
    }
  }

  lemma {:induction false} ControlOfControl(stmts: seq<Stmt>)
    requires forall i :: 0 <= i < |stmts| ==> stmts[i].CaseLabel? || stmts[i].Goto?
    ensures Control(stmts) == stmts
  {
    if stmts != [] {
      ControlOfControl(stmts[..|stmts| - 1]);
    }
  }

  /** Reference definition of how control flows through the switch: for
      each arm from the first, its case labels, all for its own label, then
      a jump to the end. */
  function Skeleton(arms: seq<Case>, firstLabel: nat, end: nat, be: Backend): seq<Stmt> {
    if arms == [] then []
    else CaseLabels(arms[0].patterns, firstLabel, be) + [Goto(end)] + Skeleton(arms[1..], firstLabel + 1, end, be)
  }

  lemma {:induction false} SkeletonSnoc(arms: seq<Case>, firstLabel: nat, end: nat, be: Backend)
    requires arms != []
    ensures Skeleton(arms, firstLabel, end, be)
      == Skeleton(arms[..|arms| - 1], firstLabel, end, be)
         + CaseLabels(arms[|arms| - 1].patterns, firstLabel + |arms| - 1, be) + [Goto(end)]
  {
    if |arms| > 1 {
      SkeletonSnoc(arms[1..], firstLabel + 1, end, be);
      assert arms[1..][..|arms| - 2] == arms[..|arms| - 1][1..];
    }
  }

  /** The control flow of one arm whose body transfers none: its case
      labels, then the jump to the end. */
  lemma ArmControl(c: Case, name: nat, result: Option<Tree>, end: nat, be: Backend)
    requires Control(be.lowerExpr(c.body).stmts) == []
    ensures Control(ArmBlock(c, name, result, end, be)) == CaseLabels(c.patterns, name, be) + [Goto(end)]
  {
    var body := be.lowerExpr(c.body);
    var labels := CaseLabels(c.patterns, name, be);
    var assign := if result.Some? then [Assign(result.value, body.value)] else [];
    var exit := [Goto(end)];
    assert ArmBlock(c, name, result, end, be) == labels + body.stmts + assign + exit;
    assert Control(labels + body.stmts) == labels by {
      ControlAppend(labels, body.stmts);
      ControlOfControl(labels);
      assert labels + [] == labels;
    }
    assert Control(labels + body.stmts + assign) == labels by {
      ControlAppend(labels + body.stmts, assign);
      NoControl(assign);
      assert labels + [] == labels;
    }
    ControlAppend(labels + body.stmts + assign, exit);
    ControlOfControl(exit);
  }

  /** Statements none of which is a case label or a jump transfer no control. */
  lemma {:induction false} NoControl(stmts: seq<Stmt>)
    requires forall i :: 0 <= i < |stmts| ==> !stmts[i].CaseLabel? && !stmts[i].Goto?
    ensures Control(stmts) == []
  {
    if stmts != [] {
      NoControl(stmts[..|stmts| - 1]);
    }
  }

  /** When the arms' bodies transfer no control at the level of the switch
      body (a nested match keeps its labels inside its own switch), the
      switch body dispatches every pattern of arm i to label end + 1 + i,
      arm after arm in source order, and every arm then jumps to the end. */
  lemma {:induction false} SwitchControl(arms: seq<Case>, end: nat, result: Option<Tree>, be: Backend)
    requires forall c :: c in arms ==> Control(be.lowerExpr(c.body).stmts) == []
    ensures Control(SwitchBody(arms, end, result, be)) == Skeleton(arms, end + 1, end, be)
  {
    if arms != [] {
      var n := |arms|;
      SwitchControl(arms[..n - 1], end, result, be);
      LastArmControl(arms, end, result, be);
      SkeletonSnoc(arms, end + 1, end, be);
    }
  }

  /** The control flow of a switch body grows by that of its last arm. */
  lemma LastArmControl(arms: seq<Case>, end: nat, result: Option<Tree>, be: Backend)
    requires arms != [] && Control(be.lowerExpr(arms[|arms| - 1].body).stmts) == []
    ensures Control(SwitchBody(arms, end, result, be))
      == Control(SwitchBody(arms[..|arms| - 1], end, result, be))
         + CaseLabels(arms[|arms| - 1].patterns, end + |arms|, be) + [Goto(end)]
  {
    var n := |arms|;
    var init := SwitchBody(arms[..n - 1], end, result, be);
    var block := ArmBlock(arms[n - 1], end + n, result, end, be);
    ControlAppend(init, block);
    ArmControl(arms[n - 1], end + n, result, end, be);
  }

  /** The skeleton of a decomposed tuple match: one case label per group,
      for its first sub-pattern. */
  function GroupSkeleton(gs: seq<Group>, firstLabel: nat, end: nat, be: Backend): seq<Stmt> {
    if gs == [] then []
    else [CaseLabel(be.caseRange(gs[0].key), firstLabel), Goto(end)] + GroupSkeleton(gs[1..], firstLabel + 1, end, be)
  }

  lemma {:induction false} ArmsOfGroups(arms: seq<Case>, gs: seq<Group>, firstLabel: nat, end: nat, be: Backend)
    requires |arms| == |gs|
    requires forall i :: 0 <= i < |gs| ==> arms[i].patterns == [gs[i].key]
    ensures Skeleton(arms, firstLabel, end, be) == GroupSkeleton(gs, firstLabel, end, be)
  {
    if arms != [] {
      ArmsOfGroups(arms[1..], gs[1..], firstLabel + 1, end, be);
      assert CaseLabels(arms[0].patterns, firstLabel, be) == [CaseLabel(be.caseRange(gs[0].key), firstLabel)];
    }
  }

  /** A match on a primitive or an enum switches on the scrutinee's value,
      or on the discriminant in the first field of its first field; it uses
      one label per arm plus the end label, and its switch dispatches the
      patterns of arm i to label end+1+i, each arm then jumping to the end. */
  lemma ScalarMatchLowering(m: Expr, t: Tables, be: Backend, end: nat, tmp: nat)
    requires m.MatchExpr? && m.scrutinee.id in t.types && m.id in t.types
    requires !t.types[m.scrutinee.id].TupleTy?
    requires MatchLowering(m, t, be, end, tmp).Ok?
    requires forall c :: c in m.cases ==> Control(be.lowerExpr(c.body).stmts) == []
    ensures var e := MatchLowering(m, t, be, end, tmp).value;
      var value := be.lowerExpr(m.scrutinee).value;
      && e.labels == |m.cases| + 1
      && e.stmts[|e.stmts| - 2].cond
         == (if t.types[m.scrutinee.id].AdtTy? then FieldRef(FieldRef(value, 0), 0) else value)
      && Control(e.stmts[|e.stmts| - 2].body) == Skeleton(m.cases, end + 1, end, be)
  {
    var result := ResultTemp(t.types[m.id], tmp, be);
    SwitchControl(m.cases, end, result, be);
  }

  /** A match on a tuple expression is emitted as its decomposition: one
      label per group of the cases plus the end label, and a switch on the
      first element whose control flow is one case label per distinct first
      sub-pattern, each followed by the jump to the end. */
  lemma TupleMatchLowering(m: Expr, t: Tables, be: Backend, end: nat, tmp: nat)
    requires m.MatchExpr? && m.scrutinee.TupleExpr?
    requires m.scrutinee.id in t.types && t.types[m.scrutinee.id].TupleTy? && m.id in t.types
    requires MatchLowering(m, t, be, end, tmp).Ok?
    requires Simplified(m).Ok? ==>
      forall c :: c in Simplified(m).value.cases ==> Control(be.lowerExpr(c.body).stmts) == []
    ensures Organized(m.cases).Ok?
    ensures var e := MatchLowering(m, t, be, end, tmp).value;
      && e.labels == |Organized(m.cases).value| + 1
      && Control(e.stmts[|e.stmts| - 2].body) == GroupSkeleton(Organized(m.cases).value, end + 1, end, be)
  {
    var ety := t.types[m.id];
    var result := ResultTemp(ety, tmp, be);
    var outer := Simplified(m).value;
    var gs := Organized(m.cases).value;
    SwitchControl(outer.cases, end, result, be);
    ArmsOfGroups(outer.cases, gs, end + 1, end, be);
  }
}
