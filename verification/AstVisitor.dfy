/** The program level: statements one after another against one shared context. */
module AstVisitor {
  import opened Wrappers
  import opened Graph
  import opened Ast
  import opened Registry
  import opened NodeIds
  import opened CompilationContext
  import opened Denotation
  import opened ProgramMeaning
  import opened Lowering
  import opened ExpressionCompiler
  import opened Statements
  import opened SlotTexts

  /** The statement mentions and assigns only names the compiler never generates. */
  ghost predicate StmtOk(reg: Registry, st: Stmt) {
    match st
    case Assign(targets, e) => NamesOk(reg, e) && forall t :: t in targets ==> TargetOk(reg, t, IsConstructorCall(e))
    case ExprStmt(e) => NamesOk(reg, e)
  }

  method VisitAssign(ctx: Context, st: Stmt, ghost w: World) returns (r: Result<bool>)
    requires Represented(ctx.registry, ctx.S(), w) && PlainRegistry(ctx.registry) && StmtOk(ctx.registry, st)
    requires st.Assign?
    modifies ctx
    ensures Stated(ctx.registry, ctx.S(), r, DenoteStmt(ctx.registry, Folded, st, w))
    ensures r.Ok? && Textless(old(ctx.algorithms)) && AddsNoSlots(ctx.registry) && SlotlessStmt(ctx.registry, st) ==>
              Textless(ctx.algorithms)
  {
    hide Represented, PlainRegistry, NamesOk, TargetOk, AssignConstructor, AssignExpression, Textless, AddsNoSlots,
         SlotlessCall;
    if |st.targets| != 1 { return Err; }
    var target := st.targets[0];
    assert target in st.targets;
    if target.Attribute? { return Err; }
    if IsConstructorCall(st.rhs) {
      r := HandleConstructorAssignment(ctx, target, st.rhs, w);
    } else {
      r := HandleNonConstructorAssignment(ctx, target, st.rhs, w);
    }
  }

  method VisitExprStmt(ctx: Context, st: Stmt, ghost w: World) returns (r: Result<bool>)
    requires Represented(ctx.registry, ctx.S(), w) && PlainRegistry(ctx.registry) && StmtOk(ctx.registry, st)
    requires st.ExprStmt?
    modifies ctx
    ensures Stated(ctx.registry, ctx.S(), r, DenoteStmt(ctx.registry, Folded, st, w))
    ensures r.Ok? && Textless(old(ctx.algorithms)) && AddsNoSlots(ctx.registry) && SlotlessStmt(ctx.registry, st) ==>
              Textless(ctx.algorithms)
  {
    hide Represented, Ready, Steps, PlainRegistry, NamesOk, Instantiation.ParseMeans, DenoteParse, FeedSink,
         NodeIds.PlainWords, Textless, AddsNoSlots, SlotsInSchema, SlotlessCall;
    if !IsConstructorCall(st.expr) { return Err; }
    ghost var reg, s0 := ctx.registry, ctx.S();
    RepresentedScope(reg, s0, w);
    var p := ParseConstructorAndFeeds(ctx, st.expr, !st.expr.func.Call?);
    if p.Err? { return Err; }
    StepsRepresented(reg, s0, ctx.S(), w);
    PlainParse(reg, Folded, st.expr, !st.expr.func.Call?, w.scope);
    StepsTextless(reg, s0, ctx.S());
    if SlotlessCall(reg, st.expr) { SlotlessParse(reg, Folded, st.expr, !st.expr.func.Call?, w.scope); }
    r := HandleSinkNode(ctx, p.value, DenoteParse(reg, Folded, st.expr, !st.expr.func.Call?, w.scope).value, w);
  }

  lemma {:induction false} ModulePrefix(reg: Registry, mode: Mode, m: Module, w: World, i: nat)
    requires i <= |m|
    ensures DenoteModule(reg, mode, m, w).Some? ==> DenoteModule(reg, mode, m[..i], w).Some?
  {
    if i < |m| {
      ModulePrefix(reg, mode, m[..|m| - 1], w, i);
      assert m[..|m| - 1][..i] == m[..i];
    } else {
      assert m[..i] == m;
    }
  }

  lemma ModuleStep(reg: Registry, mode: Mode, m: Module, w: World, i: nat)
    requires i < |m| && DenoteModule(reg, mode, m[..i], w).Some?
    ensures DenoteModule(reg, mode, m[..i + 1], w) ==
              DenoteStmt(reg, mode, m[i], DenoteModule(reg, mode, m[..i], w).value)
    ensures DenoteModule(reg, mode, m[..i + 1], w).None? ==> DenoteModule(reg, mode, m, w).None?
  {
    assert m[..i + 1][..i] == m[..i];
    ModulePrefix(reg, mode, m, w, i + 1);
  }

  /** No statement writes a slot text outside a schema. */
  ghost predicate SlotlessProgram(reg: Registry, m: Module) { forall st :: st in m ==> SlotlessStmt(reg, st) }

  /** The whole program: accepted exactly when it has a meaning, and then represented. */
  method VisitModule(ctx: Context, m: Module) returns (r: Result<bool>)
    requires ctx.S() == State([], map[], map[], {}, map[], map[]) && PlainRegistry(ctx.registry)
    requires forall st :: st in m ==> StmtOk(ctx.registry, st)
    modifies ctx
    ensures Stated(ctx.registry, ctx.S(), r, DenoteModule(ctx.registry, Folded, m, START))
    ensures r.Ok? && AddsNoSlots(ctx.registry) && SlotlessProgram(ctx.registry, m) ==> Textless(ctx.algorithms)
  {
    hide Represented, PlainRegistry, StmtOk, DenoteStmt, DenoteModule, AddsNoSlots, SlotlessStmt, TextIds;
    ghost var reg := ctx.registry;
    EmptyRepresented(reg, m);
    for i := 0 to |m|
      invariant DenoteModule(reg, Folded, m[..i], START).Some?
      invariant Represented(reg, ctx.S(), DenoteModule(reg, Folded, m[..i], START).value)
      invariant AddsNoSlots(reg) && SlotlessProgram(reg, m) ==> Textless(ctx.algorithms)
    {
      ghost var w := DenoteModule(reg, Folded, m[..i], START).value;
      ModuleStep(reg, Folded, m, START, i);
      assert m[i] in m;
      match m[i] {
        case Assign(_, _) => r := VisitAssign(ctx, m[i], w);
        case ExprStmt(_) => r := VisitExprStmt(ctx, m[i], w);
      }
      if r.Err? { return; }
    }
    assert m[..|m|] == m;
    r := Ok(true);
  }

  lemma EmptyRepresented(reg: Registry, m: Module)
    ensures DenoteModule(reg, Folded, m[..0], START) == Some(START)
    ensures Represented(reg, State([], map[], map[], {}, map[], map[]), START)
  {
  }
}
