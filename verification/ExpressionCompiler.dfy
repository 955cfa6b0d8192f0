/**
 Lowering of expressions to nodes.  Every visit succeeds exactly when the expression has a
 meaning, and then the handle it returns stands for that meaning.
 */
module ExpressionCompiler {
  import opened Wrappers
  import opened Graph
  import opened Ast
  import opened Registry
  import opened NodeIds
  import opened CompilationContext
  import opened Denotation
  import opened Lowering
  import opened TypeChecker
  import opened Instantiation
  import opened BooleanChain

  /** An option is not written like a reference to a node of the program, nor as a slot that nothing can fill. */
  predicate PlainArg(reg: Registry, e: Expr, slots: bool) {
    match e
    case Constant(StrC(s)) => NamesNoNode(reg, s) && (slots || !SlotText(s))
    case Name(id) => NamesNoNode(reg, id) && (slots || !SlotText(id))
    case _ => true
  }

  predicate PlainKeywords(reg: Registry, kind: string, ks: seq<Keyword>) {
    forall i :: 0 <= i < |ks| ==>
      PlainArg(reg, ks[i].arg, kind in reg.components ==> reg.components[kind].inputs != [])
  }

  /** No variable of the expression has the form of a generated id, and options are plain. */
  ghost predicate NamesOk(reg: Registry, e: Expr) {
    match e
    case Name(id) => !Reserved(reg, id)
    case Attribute(base, _) => NamesOk(reg, base)
    case Call(func, args, keywords) =>
      && (if func.Name? then PlainKeywords(reg, func.id, keywords) else NamesOk(reg, func))
      && (forall i :: 0 <= i < |args| ==> NamesOk(reg, args[i]))
      && (forall i :: 0 <= i < |keywords| ==> NamesOk(reg, keywords[i].arg))
    case BinOp(_, l, r) => NamesOk(reg, l) && NamesOk(reg, r)
    case Compare(first, _, others) => NamesOk(reg, first) && forall i :: 0 <= i < |others| ==> NamesOk(reg, others[i])
    case BoolOp(_, values) => forall i :: 0 <= i < |values| ==> NamesOk(reg, values[i])
    case UnaryOp(_, x) => NamesOk(reg, x)
    case IfExp(c, t, f) => NamesOk(reg, c) && NamesOk(reg, t) && NamesOk(reg, f)
    case Subscript(value, _) => NamesOk(reg, value)
    case _ => true
  }

  ghost function Want(reg: Registry, e: Expr, s: State): Option<Den> {
    Denote(reg, Folded, e, ScopeOf(reg, s))
  }

  // ------------------------------------------------------------------------ literals

  /** An option that cannot name a node. */
  predicate Constantly(kind: string, key: string, o: OptionValue) { o.Number? || Verbatim(kind, key) }

  ghost predicate AllConstant(kind: string, options: map<string, OptionValue>) {
    forall key :: key in options ==> Constantly(kind, key, options[key])
  }

  lemma OneOption(kind: string, key: string, o: OptionValue, v: Valuation)
    requires Constantly(kind, key, o)
    ensures AllConstant(kind, map[key := o])
    ensures OptionsMeaning(kind, map[key := o], v) == map[key := Raw(o)]
  {
  }

  lemma ConstantOptions(kind: string, options: map<string, OptionValue>, inputs: Inputs, v: Valuation)
    requires AllConstant(kind, options)
    ensures OptionsMeaning(kind, options, v) == OptionsMeaning(kind, options, map[])
    ensures OptionIds(Node(kind, "", Plain(options).options, inputs, None, None)) == {}
  {
    var n := Node(kind, "", options, inputs, None, None);
    if d :| d in OptionIds(n) {
      var key := NamingOption(n, d);
    }
  }

  /** Create a complete node: fresh id, options without references, operands already lowered. */
  method Complete(ctx: Context, base: string, kind: string, options: map<string, OptionValue>, inputs: Inputs,
                  tracked: Option<DataType>, bound: bool)
    returns (id: Id)
    requires Ready(ctx.registry, ctx.S()) && PlainRegistry(ctx.registry) && IsBase(ctx.registry, base)
    requires !IsSink(ctx.registry, kind) && Wireable(inputs, ctx.val.Keys) && AllConstant(kind, options)
    modifies ctx
    ensures Steps(ctx.registry, old(ctx.S()), ctx.S())
    ensures id in ctx.val && Tracked(ctx.S(), id) == tracked
    ensures ctx.val[id] ==
              Apply(kind, OptionsMeaning(kind, options, map[]), InputsMeaning(inputs, old(ctx.val)), None, None)
  {
    hide Core, Bound, Grows, PlainRegistry, IsSink, IsBase, Wireable, OptionsMeaning, InputsMeaning, OptionIds;
    ghost var s0 := ctx.S();
    ConstantOptions(kind, options, inputs, ctx.val);
    id := Emit(ctx, base, kind, Plain(options), inputs, tracked, bound);
    StepsTo(ctx.registry, s0, ctx.S());
  }

  lemma BuiltInIsNoSink(reg: Registry, kind: string)
    requires PlainRegistry(reg) && kind in BUILT_IN_KINDS
    ensures !IsSink(reg, kind)
  {
  }

  method Materialize(ctx: Context, base: string, kind: string, options: map<string, OptionValue>, tracked: DataType)
    returns (h: ValueHandle)
    requires Ready(ctx.registry, ctx.S()) && PlainRegistry(ctx.registry)
    requires base in BUILT_IN_BASES && kind in BUILT_IN_KINDS && AllConstant(kind, options)
    modifies ctx
    ensures Steps(ctx.registry, old(ctx.S()), ctx.S())
    ensures Represents(ctx.S(), h, Den(Apply(kind, OptionsMeaning(kind, options, map[]), map[], None, None), "result",
                                       Some(tracked)))
  {
    hide Ready, Steps, PlainRegistry, IsSink;
    NoInputs(ctx.val);
    BuiltInIsNoSink(ctx.registry, kind);
    var id := Complete(ctx, base, kind, options, map[], Some(tracked), true);
    h := ValueHandle(id, "result");
  }

  method MaterializeNumber(ctx: Context, value: real) returns (h: ValueHandle)
    requires Ready(ctx.registry, ctx.S()) && PlainRegistry(ctx.registry)
    modifies ctx
    ensures Steps(ctx.registry, old(ctx.S()), ctx.S())
    ensures Represents(ctx.S(), h, Literal(DoubleC(value)))
  {
    hide Ready, Steps, PlainRegistry, Represents;
    OneOption("number", "value", Number(value), map[]);
    h := Materialize(ctx, "number", "number", map["value" := Number(value)], Decimal);
  }

  method MaterializeBoolean(ctx: Context, value: bool) returns (h: ValueHandle)
    requires Ready(ctx.registry, ctx.S()) && PlainRegistry(ctx.registry)
    modifies ctx
    ensures Steps(ctx.registry, old(ctx.S()), ctx.S())
    ensures Represents(ctx.S(), h, Literal(BoolC(value)))
  {
    hide Ready, Steps, PlainRegistry, Represents;
    var kind := if value then "bool_true" else "bool_false";
    assert OptionsMeaning(kind, map[], map[]) == map[];
    h := Materialize(ctx, kind, kind, map[], Boolean);
  }

  method VisitConstant(ctx: Context, c: Const) returns (h: ValueHandle)
    requires Ready(ctx.registry, ctx.S()) && PlainRegistry(ctx.registry)
    modifies ctx
    ensures Steps(ctx.registry, old(ctx.S()), ctx.S())
    ensures Represents(ctx.S(), h, Literal(c))
  {
    hide Ready, Steps, PlainRegistry, Represents;
    match c
    case IntC(i) => h := MaterializeNumber(ctx, i as real);
    case DoubleC(d) => h := MaterializeNumber(ctx, d);
    case BoolC(b) => h := MaterializeBoolean(ctx, b);
    case StrC(s) =>
      OneOption("text", "value", Text(s), map[]);
      h := Materialize(ctx, "text", "text", map["value" := Text(s)], StringType);
    case NoneC =>
      assert OptionsMeaning("null_number", map[], map[]) == map[];
      h := Materialize(ctx, "null", "null_number", map[], NumberType);
  }

  // --------------------------------------------------------------------------- names

  method VisitName(ctx: Context, id: string) returns (r: Result<ValueHandle>)
    requires Ready(ctx.registry, ctx.S()) && PlainRegistry(ctx.registry) && !Reserved(ctx.registry, id)
    modifies ctx
    ensures Lowered(ctx.registry, old(ctx.S()), ctx.S(), r,
                    DenoteName(ctx.registry, id, ScopeOf(ctx.registry, old(ctx.S()))))
  {
    if id == "true" || id == "false" {
      hide Ready, Grows, PlainRegistry, Represents;
      var h := MaterializeBoolean(ctx, id == "true");
      return Ok(h);
    }
    hide PlainRegistry, Grows;
    StepsRefl(ctx.registry, ctx.S());
    hide Core;
    if id !in ctx.varToBinding { return Err; }
    match ctx.varToBinding[id]
    case NodeHandle(h) => return Ok(h);
    case ComponentName(kind) =>
      if kind in LITERAL_KINDS { return Ok(ValueHandle(id, "result")); }
      if kind !in ctx.registry.components { return Err; }
      var outputs := ctx.registry.components[kind].outputs;
      if |outputs| != 1 { return Err; }
      return Ok(ValueHandle(id, outputs[0].id));
  }

  /** The fallback to an unbound node of that name never applies to a user's variable. */
  lemma LookupIsBound(reg: Registry, s: State, id: string)
    requires Ready(reg, s) && !Reserved(reg, id) && id in s.lookup
    ensures id in s.bindings
  {
    assert s.nodes[s.lookup[id]] in s.nodes;
  }

  /** `name.handle` must name an output or an input of the variable's component. */
  method ResolveHandle(ctx: Context, id: string, handle: string) returns (r: Result<ValueHandle>)
    requires Ready(ctx.registry, ctx.S()) && !Reserved(ctx.registry, id)
    ensures Lowered(ctx.registry, ctx.S(), ctx.S(), r,
                    DenoteHandle(ctx.registry, id, handle, ScopeOf(ctx.registry, ctx.S())))
  {
    StepsRefl(ctx.registry, ctx.S());
    if id !in ctx.varToBinding || ctx.varToBinding[id].NodeHandle? { return Err; }
    var kind := ctx.varToBinding[id].kind;
    if kind !in ctx.registry.components { return Err; }
    if handle !in HandlesOf(ctx.registry.components[kind]) { return Err; }
    r := Ok(ValueHandle(id, handle));
  }

  // ----------------------------------------------------------------------- operators

  method VisitExpr(ctx: Context, e: Expr) returns (r: Result<ValueHandle>)
    requires Ready(ctx.registry, ctx.S()) && PlainRegistry(ctx.registry) && NamesOk(ctx.registry, e)
    modifies ctx
    ensures Lowered(ctx.registry, old(ctx.S()), ctx.S(), r, Want(ctx.registry, e, old(ctx.S())))
    decreases e, 3
  {
    match e
    case Name(id) => r := VisitName(ctx, id);
    case Constant(c) =>
      var h := VisitConstant(ctx, c);
      r := Ok(h);
    case Attribute(base, attr) => r := VisitAttribute(ctx, e);
    case Call(_, _, _) => r := VisitCall(ctx, e);
    case BinOp(_, _, _) => r := VisitBinOp(ctx, e);
    case Compare(_, _, _) => r := VisitCompare(ctx, e);
    case BoolOp(_, _) => r := VisitBoolOp(ctx, e);
    case UnaryOp(_, _) => r := VisitUnaryOp(ctx, e);
    case IfExp(_, _, _) => r := VisitIfExp(ctx, e);
    case Subscript(_, _) => r := VisitSubscript(ctx, e);
    case _ => r := Err;
  }

  method VisitAttribute(ctx: Context, e: Expr) returns (r: Result<ValueHandle>)
    requires Ready(ctx.registry, ctx.S()) && PlainRegistry(ctx.registry) && NamesOk(ctx.registry, e) && e.Attribute?
    modifies ctx
    ensures Lowered(ctx.registry, old(ctx.S()), ctx.S(), r, Want(ctx.registry, e, old(ctx.S())))
    decreases e, 2
  {
    if e.base.Name? {
      r := ResolveHandle(ctx, e.base.id, e.attr);
    } else {
      var base := VisitExpr(ctx, e.base);
      if base.Err? { return Err; }
      r := Ok(ValueHandle(base.value.nodeId, e.attr));
    }
  }

  /** Both operands of an operator, lowered and converted. */
  method Operands(ctx: Context, whole: Expr, left: Expr, right: Expr, c: Component) returns (r: Result<Inputs>)
    requires Ready(ctx.registry, ctx.S()) && PlainRegistry(ctx.registry)
    requires NamesOk(ctx.registry, left) && NamesOk(ctx.registry, right) && left < whole && right < whole
    modifies ctx
    ensures var a, b := Want(ctx.registry, left, old(ctx.S())), Want(ctx.registry, right, old(ctx.S()));
            && (r.Ok? <==> a.Some? && b.Some? && OperandInputs(ctx.registry, c, a.value, b.value).Some?)
            && (r.Ok? ==> Steps(ctx.registry, old(ctx.S()), ctx.S()) && Wireable(r.value, ctx.val.Keys)
                          && InputsMeaning(r.value, ctx.val) == OperandInputs(ctx.registry, c, a.value, b.value).value)
    decreases whole, 1
  {
    ghost var reg, s0 := ctx.registry, ctx.S();
    var a := VisitExpr(ctx, left);
    if a.Err? { return Err; }
    ghost var s1 := ctx.S();
    StepsScope(reg, s0, s1);
    var b := VisitExpr(ctx, right);
    if b.Err? || |c.inputs| != 2 { return Err; }
    ghost var s2 := ctx.S();
    ghost var da, db := Want(reg, left, s0).value, Want(reg, right, s0).value;
    StepsRepresent(reg, s1, s2, a.value, da);
    StepsTrans(reg, s0, s1, s2);
    r := ConvertOperands(ctx, c, a.value, b.value, da, db);
    if r.Ok? { StepsTrans(reg, s0, s2, ctx.S()); }
  }

  method ConvertOperands(ctx: Context, c: Component, a: ValueHandle, b: ValueHandle, ghost da: Den, ghost db: Den)
    returns (r: Result<Inputs>)
    requires Ready(ctx.registry, ctx.S()) && PlainRegistry(ctx.registry) && |c.inputs| == 2
    requires Represents(ctx.S(), a, da) && Represents(ctx.S(), b, db)
    modifies ctx
    ensures r.Ok? <==> OperandInputs(ctx.registry, c, da, db).Some?
    ensures r.Ok? ==> Steps(ctx.registry, old(ctx.S()), ctx.S()) && Wireable(r.value, ctx.val.Keys)
                      && InputsMeaning(r.value, ctx.val) == OperandInputs(ctx.registry, c, da, db).value
  {
    hide Ready, Grows, Represents, PlainRegistry, Coerce;
    ghost var reg, s0 := ctx.registry, ctx.S();
    var left, right := InputNames(c)[0], InputNames(c)[1];
    var x := Cast(ctx, a, InputType(c.inputs, left), da);
    if x.Err? { return Err; }
    ghost var s1 := ctx.S();
    StepsRepresent(reg, s0, s1, b, db);
    var y := Cast(ctx, b, InputType(c.inputs, right), db);
    if y.Err? { return Err; }
    ghost var s2 := ctx.S();
    ghost var dx, dy := Coerce(reg, da, InputType(c.inputs, left)).value,
                        Coerce(reg, db, InputType(c.inputs, right)).value;
    StepsRepresent(reg, s1, s2, x.value, dx);
    StepsTrans(reg, s0, s1, s2);
    WireBoth(reg, s2, left, x.value, dx, right, y.value, dy);
    r := Ok(AddRef(AddRef(map[], left, RefTo(x.value)), right, RefTo(y.value)));
  }

  lemma WireBoth(reg: Registry, s: State, left: string, x: ValueHandle, dx: Den, right: string, y: ValueHandle, dy: Den)
    requires Ready(reg, s) && Represents(s, x, dx) && Represents(s, y, dy)
    ensures var inputs := AddRef(AddRef(map[], left, RefTo(x)), right, RefTo(y));
            Wireable(inputs, s.val.Keys) &&
            InputsMeaning(inputs, s.val) == Wire(Wire(map[], left, ValueOf(dx)), right, ValueOf(dy))
  {
    NoInputs(s.val);
    WireHandle(reg, s, map[], left, x, dx);
    WireHandle(reg, s, AddRef(map[], left, RefTo(x)), right, y, dy);
  }

  /** CastTo in a context where every variable is bound. */
  method Cast(ctx: Context, h: ValueHandle, target: DataType, ghost d: Den) returns (r: Result<ValueHandle>)
    requires Ready(ctx.registry, ctx.S()) && PlainRegistry(ctx.registry) && Represents(ctx.S(), h, d)
    modifies ctx
    ensures Lowered(ctx.registry, old(ctx.S()), ctx.S(), r, Coerce(ctx.registry, d, target))
  {
    hide Represents, PlainRegistry, Coerce;
    r := CastTo(ctx, h, target, d);
    StepsTo(ctx.registry, old(ctx.S()), ctx.S());
  }

  lemma OperatorIsNoSink(reg: Registry, op: BinOpType)
    requires PlainRegistry(reg)
    ensures !IsSink(reg, BinOpKind(op)) && BinOpKind(op) in BUILT_IN_BASES
  {
  }

  /** The operator's node is pushed first and completed once its operands are known. */
  method VisitBinOp(ctx: Context, e: Expr) returns (r: Result<ValueHandle>)
    requires Ready(ctx.registry, ctx.S()) && PlainRegistry(ctx.registry) && NamesOk(ctx.registry, e) && e.BinOp?
    modifies ctx
    ensures Lowered(ctx.registry, old(ctx.S()), ctx.S(), r, Want(ctx.registry, e, old(ctx.S())))
    decreases e, 2
  {
    hide Ready, Grows, PlainRegistry, IsSink, OperandInputs, ScopeOf, Wireable;
    ghost var reg, s0 := ctx.registry, ctx.S();
    var kind := BinOpKind(e.op);
    OperatorIsNoSink(reg, e.op);
    if kind !in ctx.registry.components { return Err; }
    var c := ctx.registry.components[kind];
    var id, t := Reserve(ctx, kind, kind);
    ghost var sp := ctx.S();
    ReservingReady(reg, s0, sp, Node(kind, id, map[], map[], None, None));
    var inputs := Operands(ctx, e, e.left, e.right, c);
    if inputs.Err? { return Err; }
    FinishReserved(reg, s0, sp, Node(kind, id, map[], map[], None, None), ctx.S(), inputs.value, BinOpTracked(kind));
    ctx.Fill(t, inputs.value, BinOpTracked(kind));
    r := Ok(ValueHandle(id, FirstOutput(c)));
  }

  lemma ReservingReady(reg: Registry, s0: State, s: State, p: Node)
    requires Reserving(reg, s0, s, p)
    ensures Ready(reg, s) && |s.nodes| == |s0.nodes| + 1
  {
  }

  method VisitCompare(ctx: Context, e: Expr) returns (r: Result<ValueHandle>)
    requires Ready(ctx.registry, ctx.S()) && PlainRegistry(ctx.registry) && NamesOk(ctx.registry, e) && e.Compare?
    modifies ctx
    ensures Lowered(ctx.registry, old(ctx.S()), ctx.S(), r, Want(ctx.registry, e, old(ctx.S())))
    decreases e, 2
  {
    hide Ready, Grows, PlainRegistry, IsSink, OperandInputs, ScopeOf, Wireable;
    ghost var reg, s0 := ctx.registry, ctx.S();
    if |e.ops| != 1 || |e.comparators| != 1 || !IsComparison(e.ops[0]) { return Err; }
    var kind := BinOpKind(e.ops[0]);
    OperatorIsNoSink(reg, e.ops[0]);
    if kind !in ctx.registry.components { return Err; }
    var c := ctx.registry.components[kind];
    var inputs := Operands(ctx, e, e.first, e.comparators[0], c);
    if inputs.Err? { return Err; }
    ghost var s1 := ctx.S();
    NoOptions();
    var id := Complete(ctx, kind, kind, map[], inputs.value, Some(Boolean), false);
    StepsTrans(reg, s0, s1, ctx.S());
    r := Ok(ValueHandle(id, FirstOutput(c)));
  }

  /** -x is (-1) * x; +x is x. */
  method VisitUnaryOp(ctx: Context, e: Expr) returns (r: Result<ValueHandle>)
    requires Ready(ctx.registry, ctx.S()) && PlainRegistry(ctx.registry) && NamesOk(ctx.registry, e) && e.UnaryOp?
    modifies ctx
    ensures Lowered(ctx.registry, old(ctx.S()), ctx.S(), r, Want(ctx.registry, e, old(ctx.S())))
    decreases e, 2
  {
    match e.unOp
    case UAdd => r := VisitExpr(ctx, e.operand);
    case USub => r := VisitNegation(ctx, e);
    case Not => r := VisitNot(ctx, e);
  }

  method VisitNegation(ctx: Context, e: Expr) returns (r: Result<ValueHandle>)
    requires Ready(ctx.registry, ctx.S()) && PlainRegistry(ctx.registry) && NamesOk(ctx.registry, e)
    requires e.UnaryOp? && e.unOp == USub
    modifies ctx
    ensures Lowered(ctx.registry, old(ctx.S()), ctx.S(), r, Want(ctx.registry, e, old(ctx.S())))
    decreases e, 1
  {
    hide Ready, Grows, PlainRegistry, IsSink, ScopeOf, Wireable, Represents;
    ghost var reg, s0 := ctx.registry, ctx.S();
    var minusOne := MaterializeNumber(ctx, -1.0);
    ghost var s1 := ctx.S();
    StepsScope(reg, s0, s1);
    var x := VisitExpr(ctx, e.operand);
    if x.Err? { return Err; }
    ghost var s2, d := ctx.S(), Want(reg, e.operand, s0).value;
    StepsTrans(reg, s0, s1, s2);
    StepsRepresent(reg, s1, s2, minusOne, Literal(DoubleC(-1.0)));
    WireBoth(reg, s2, "SLOT0", minusOne, Literal(DoubleC(-1.0)), "SLOT1", x.value, d);
    WireTwo("SLOT0", ValueOf(Literal(DoubleC(-1.0))), "SLOT1", ValueOf(d));
    var inputs := AddRef(AddRef(map[], "SLOT0", RefTo(minusOne)), "SLOT1", RefTo(x.value));
    BuiltInIsNoSink(reg, "mul");
    NoOptions();
    var id := Complete(ctx, "mul", "mul", map[], inputs, Some(Decimal), false);
    StepsTrans(reg, s0, s2, ctx.S());
    r := Ok(ValueHandle(id, "result"));
    Stands(ctx.S(), r.value, Negate(d));
  }

  lemma NoOptions()
    ensures OptionsMeaning("mul", map[], map[]) == map[]
  {
  }

  lemma Stands(s: State, h: ValueHandle, d: Den)
    requires h.nodeId in s.val && s.val[h.nodeId] == d.node && h.handle == d.handle && Tracked(s, h.nodeId) == d.tracked
    ensures Represents(s, h, d)
  {
  }

  method VisitNot(ctx: Context, e: Expr) returns (r: Result<ValueHandle>)
    requires Ready(ctx.registry, ctx.S()) && PlainRegistry(ctx.registry) && NamesOk(ctx.registry, e)
    requires e.UnaryOp? && e.unOp == Not
    modifies ctx
    ensures Lowered(ctx.registry, old(ctx.S()), ctx.S(), r, Want(ctx.registry, e, old(ctx.S())))
    decreases e, 1
  {
    hide Ready, Grows, PlainRegistry, IsSink, ScopeOf, Wireable, Represents;
    ghost var reg, s0 := ctx.registry, ctx.S();
    if "logical_not" !in ctx.registry.components { return Err; }
    var x := VisitExpr(ctx, e.operand);
    if x.Err? { return Err; }
    ghost var s1, d := ctx.S(), Want(reg, e.operand, s0).value;
    WireSlot(reg, s1, x.value, d);
    BuiltInIsNoSink(reg, "logical_not");
    NoOptions();
    var id := Complete(ctx, "logical_not", "logical_not", map[], AddRef(map[], "SLOT", RefTo(x.value)), Some(Boolean),
                       false);
    StepsTrans(reg, s0, s1, ctx.S());
    r := Ok(ValueHandle(id, FirstOutput(ctx.registry.components["logical_not"])));
    Stands(ctx.S(), r.value, LogicalNot(reg, d).value);
  }

  lemma WireSlot(reg: Registry, s: State, x: ValueHandle, d: Den)
    requires Ready(reg, s) && Represents(s, x, d)
    ensures Wireable(AddRef(map[], "SLOT", RefTo(x)), s.val.Keys)
    ensures InputsMeaning(AddRef(map[], "SLOT", RefTo(x)), s.val) == map["SLOT" := Args([ValueOf(d)])]
  {
    NoInputs(s.val);
    WireHandle(reg, s, map[], "SLOT", x, d);
    WireOne("SLOT", ValueOf(d));
  }

  method VisitIfExp(ctx: Context, e: Expr) returns (r: Result<ValueHandle>)
    requires Ready(ctx.registry, ctx.S()) && PlainRegistry(ctx.registry) && NamesOk(ctx.registry, e) && e.IfExp?
    modifies ctx
    ensures Lowered(ctx.registry, old(ctx.S()), ctx.S(), r, Want(ctx.registry, e, old(ctx.S())))
    decreases e, 2
  {
    hide Ready, Grows, PlainRegistry, IsSink, ScopeOf, Wireable, Represents;
    ghost var reg, s0 := ctx.registry, ctx.S();
    var c := VisitExpr(ctx, e.test);
    if c.Err? { return Err; }
    ghost var s1 := ctx.S();
    StepsScope(reg, s0, s1);
    var t := VisitExpr(ctx, e.body);
    if t.Err? { return Err; }
    ghost var s2 := ctx.S();
    StepsTrans(reg, s0, s1, s2);
    StepsScope(reg, s0, s2);
    var f := VisitExpr(ctx, e.orelse);
    if f.Err? { return Err; }
    ghost var s3 := ctx.S();
    StepsTrans(reg, s0, s2, s3);
    ghost var dc, dt, df := Want(reg, e.test, s0).value, Want(reg, e.body, s0).value, Want(reg, e.orelse, s0).value;
    StepsTrans(reg, s1, s2, s3);
    StepsRepresent(reg, s1, s3, c.value, dc);
    StepsRepresent(reg, s2, s3, t.value, dt);
    r := EmitSelect(ctx, c.value, t.value, f.value, dc, dt, df);
    if r.Ok? { StepsTrans(reg, s0, s3, ctx.S()); }
  }

  lemma WireBranches(reg: Registry, s: State, c: ValueHandle, t: ValueHandle, f: ValueHandle, dc: Den, dt: Den, df: Den)
    requires Ready(reg, s) && Represents(s, c, dc) && Represents(s, t, dt) && Represents(s, f, df)
    ensures var inputs := AddRef(AddRef(AddRef(map[], "condition", RefTo(c)), "true", RefTo(t)), "false", RefTo(f));
            Wireable(inputs, s.val.Keys)
            && InputsMeaning(inputs, s.val) ==
                 map["condition" := Args([ValueOf(dc)]), "true" := Args([ValueOf(dt)]), "false" := Args([ValueOf(df)])]
  {
    hide Ready, Represents, Wireable, InputsMeaning, AddRef, Wire, RefTo;
    WireBoth(reg, s, "condition", c, dc, "true", t, dt);
    WireTwo("condition", ValueOf(dc), "true", ValueOf(dt));
    WireThird(reg, s, AddRef(AddRef(map[], "condition", RefTo(c)), "true", RefTo(t)), f, df);
    WireFresh(map["condition" := Args([ValueOf(dc)]), "true" := Args([ValueOf(dt)])], "false", ValueOf(df));
  }

  lemma WireThird(reg: Registry, s: State, inputs: Inputs, f: ValueHandle, df: Den)
    requires Ready(reg, s) && Represents(s, f, df) && Wireable(inputs, s.val.Keys)
    ensures Wireable(AddRef(inputs, "false", RefTo(f)), s.val.Keys)
    ensures InputsMeaning(AddRef(inputs, "false", RefTo(f)), s.val) ==
              Wire(InputsMeaning(inputs, s.val), "false", ValueOf(df))
  {
    WireHandle(reg, s, inputs, "false", f, df);
  }

  lemma WireFresh(inputs: map<string, Args>, name: string, x: Value)
    requires name !in inputs
    ensures Wire(inputs, name, x) == inputs[name := Args([x])]
  {
    assert [] + [x] == [x];
  }

  lemma SelectIsNoSink(reg: Registry, t: DataType, f: DataType)
    requires PlainRegistry(reg)
    ensures !IsSink(reg, SelectKind(t, f))
  {
  }

  method EmitSelect(ctx: Context, c: ValueHandle, t: ValueHandle, f: ValueHandle, ghost dc: Den, ghost dt: Den,
                    ghost df: Den)
    returns (r: Result<ValueHandle>)
    requires Ready(ctx.registry, ctx.S()) && PlainRegistry(ctx.registry)
    requires Represents(ctx.S(), c, dc) && Represents(ctx.S(), t, dt) && Represents(ctx.S(), f, df)
    modifies ctx
    ensures Lowered(ctx.registry, old(ctx.S()), ctx.S(), r, Select(ctx.registry, dc, dt, df))
  {
    hide Core, Grows, Bound, PlainRegistry, IsSink, Wireable, Represents, SelectKind;
    TypeAgrees(ctx, t, dt);
    TypeAgrees(ctx, f, df);
    var kind := SelectKind(OutputTypeAt(ctx, t), OutputTypeAt(ctx, f));
    if kind !in ctx.registry.components { return Err; }
    WireBranches(ctx.registry, ctx.S(), c, t, f, dc, dt, df);
    SelectIsNoSink(ctx.registry, OutputTypeAt(ctx, t), OutputTypeAt(ctx, f));
    NoOptions();
    var inputs := AddRef(AddRef(AddRef(map[], "condition", RefTo(c)), "true", RefTo(t)), "false", RefTo(f));
    var id := Complete(ctx, "ifexp", kind, map[], inputs, None, false);
    r := Ok(ValueHandle(id, FirstOutput(ctx.registry.components[kind])));
    Stands(ctx.S(), r.value, Select(ctx.registry, dc, dt, df).value);
  }

  lemma NamesOfSubscript(reg: Registry, e: Expr)
    requires NamesOk(reg, e) && e.Subscript?
    ensures NamesOk(reg, e.value)
  {
  }

  /** value[k] lags value by k rows; k must be a nonzero integer literal, possibly negated. */
  method VisitSubscript(ctx: Context, e: Expr) returns (r: Result<ValueHandle>)
    requires Ready(ctx.registry, ctx.S()) && PlainRegistry(ctx.registry) && NamesOk(ctx.registry, e) && e.Subscript?
    modifies ctx
    ensures Lowered(ctx.registry, old(ctx.S()), ctx.S(), r, Want(ctx.registry, e, old(ctx.S())))
    decreases e, 2
  {
    hide Ready, Grows, PlainRegistry, IsSink, ScopeOf, Represents, NamesOk, Lag;
    NamesOfSubscript(ctx.registry, e);
    var period := 0;
    match e.slice {
      case Constant(IntC(k)) => period := k;
      case UnaryOp(USub, Constant(IntC(k))) => period := -k;
      case _ => return Err;
    }
    if period == 0 { return Err; }
    ghost var reg, s0 := ctx.registry, ctx.S();
    var x := VisitExpr(ctx, e.value);
    if x.Err? { return Err; }
    ghost var s1, d := ctx.S(), Want(reg, e.value, s0).value;
    r := EmitLag(ctx, x.value, period, d);
    if r.Ok? { StepsTrans(reg, s0, s1, ctx.S()); }
  }

  lemma LagIsNoSink(reg: Registry, t: DataType)
    requires PlainRegistry(reg)
    ensures !IsSink(reg, LagKind(t))
  {
  }

  method EmitLag(ctx: Context, x: ValueHandle, period: int, ghost d: Den) returns (r: Result<ValueHandle>)
    requires Ready(ctx.registry, ctx.S()) && PlainRegistry(ctx.registry) && Represents(ctx.S(), x, d)
    modifies ctx
    ensures Lowered(ctx.registry, old(ctx.S()), ctx.S(), r, Lag(ctx.registry, d, period))
  {
    hide Core, Grows, Bound, PlainRegistry, IsSink, Wireable, Represents, LagKind;
    TypeAgrees(ctx, x, d);
    var source := OutputTypeAt(ctx, x);
    var kind := LagKind(source);
    if kind !in ctx.registry.components { return Err; }
    WireSlot(ctx.registry, ctx.S(), x, d);
    LagIsNoSink(ctx.registry, source);
    OneOption(kind, "period", Number(period as real), map[]);
    var id := Complete(ctx, "lag", kind, map["period" := Number(period as real)],
                       AddRef(map[], "SLOT", RefTo(x)), Some(source), true);
    r := Ok(ValueHandle(id, "result"));
    Stands(ctx.S(), r.value, Lag(ctx.registry, d, period).value);
  }

  // ------------------------------------------------------------------ boolean chains

  /** The operands' meanings converted to Boolean. */
  ghost function Truths(reg: Registry, whole: Expr, es: seq<Expr>, sc: Scope): Option<seq<Den>>
    requires forall i :: 0 <= i < |es| ==> es[i] < whole
  {
    var ds :- DenoteAll(reg, Folded, whole, es, sc);
    CoerceAll(reg, ds, Boolean)
  }

  lemma {:induction false} CoerceAllLength(reg: Registry, ds: seq<Den>, target: DataType)
    ensures CoerceAll(reg, ds, target).Some? ==> |CoerceAll(reg, ds, target).value| == |ds|
  {
    if ds != [] { CoerceAllLength(reg, ds[..|ds| - 1], target); }
  }

  lemma {:induction false} DenoteAllLength(reg: Registry, whole: Expr, es: seq<Expr>, sc: Scope)
    requires forall i :: 0 <= i < |es| ==> es[i] < whole
    ensures DenoteAll(reg, Folded, whole, es, sc).Some? ==> |DenoteAll(reg, Folded, whole, es, sc).value| == |es|
  {
    if es != [] { DenoteAllLength(reg, whole, es[..|es| - 1], sc); }
  }

  lemma TruthsStep(reg: Registry, whole: Expr, es: seq<Expr>, sc: Scope, i: nat)
    requires i < |es| && forall k :: 0 <= k < |es| ==> es[k] < whole
    requires Truths(reg, whole, es[..i], sc).Some?
    ensures var d := Denote(reg, Folded, es[i], sc);
            Truths(reg, whole, es[..i + 1], sc)
            == if d.None? || Coerce(reg, d.value, Boolean).None? then None
               else Some(Truths(reg, whole, es[..i], sc).value + [Coerce(reg, d.value, Boolean).value])
  {
    assert es[..i + 1][..i] == es[..i];
    var d := Denote(reg, Folded, es[i], sc);
    if d.Some? {
      var ds := DenoteAll(reg, Folded, whole, es[..i], sc).value;
      assert (ds + [d.value])[..|ds|] == ds;
    }
  }

  lemma {:induction false} TruthsPrefix(reg: Registry, whole: Expr, es: seq<Expr>, sc: Scope, i: nat)
    requires i <= |es| && forall k :: 0 <= k < |es| ==> es[k] < whole
    requires Truths(reg, whole, es[..i], sc).None?
    ensures Truths(reg, whole, es, sc).None?
    decreases |es| - i
  {
    if i == |es| {
      assert es[..i] == es;
    } else {
      if Truths(reg, whole, es[..i + 1], sc).Some? {
        PrefixOfTruths(reg, whole, es, sc, i);
      }
      TruthsPrefix(reg, whole, es, sc, i + 1);
    }
  }

  lemma PrefixOfTruths(reg: Registry, whole: Expr, es: seq<Expr>, sc: Scope, i: nat)
    requires i < |es| && forall k :: 0 <= k < |es| ==> es[k] < whole
    ensures Truths(reg, whole, es[..i + 1], sc).Some? ==> Truths(reg, whole, es[..i], sc).Some?
  {
    assert es[..i + 1][..i] == es[..i];
    if Truths(reg, whole, es[..i + 1], sc).Some? {
      var ds := DenoteAll(reg, Folded, whole, es[..i], sc).value;
      var d := Denote(reg, Folded, es[i], sc).value;
      assert DenoteAll(reg, Folded, whole, es[..i + 1], sc).value == ds + [d];
      assert (ds + [d])[..|ds + [d]| - 1] == ds;
    }
  }

  /** Each operand is lowered and converted before the next one. */
  method VisitOperands(ctx: Context, whole: Expr, es: seq<Expr>) returns (r: Result<seq<ValueHandle>>)
    requires Ready(ctx.registry, ctx.S()) && PlainRegistry(ctx.registry)
    requires forall i :: 0 <= i < |es| ==> es[i] < whole && NamesOk(ctx.registry, es[i])
    modifies ctx
    ensures var want := Truths(ctx.registry, whole, es, ScopeOf(ctx.registry, old(ctx.S())));
            && (r.Ok? <==> want.Some?)
            && (r.Ok? ==> Steps(ctx.registry, old(ctx.S()), ctx.S()) && AllRepresent(ctx.S(), r.value, want.value))
    decreases whole, 1
  {
    hide Ready, Grows, PlainRegistry, NamesOk, Represents, Truths, ScopeOf, Coerce, Denote, Steps;
    ghost var reg, s0 := ctx.registry, ctx.S();
    ghost var sc := ScopeOf(reg, s0);
    var handles := [];
    StepsRefl(reg, s0);
    NoTruths(reg, whole, es, sc);
    for i := 0 to |es|
      invariant Truths(reg, whole, es[..i], sc).Some?
      invariant Steps(reg, s0, ctx.S()) && AllRepresent(ctx.S(), handles, Truths(reg, whole, es[..i], sc).value)
    {
      ghost var s1 := ctx.S();
      StepsScope(reg, s0, s1);
      StepsReady(reg, s0, s1);
      TruthsStep(reg, whole, es, sc, i);
      var x := VisitExpr(ctx, es[i]);
      if x.Err? {
        TruthsPrefix(reg, whole, es, sc, i + 1);
        return Err;
      }
      ghost var s2, d := ctx.S(), Denote(reg, Folded, es[i], sc).value;
      StepsReady(reg, s1, s2);
      var h := Cast(ctx, x.value, Boolean, d);
      if h.Err? {
        TruthsPrefix(reg, whole, es, sc, i + 1);
        return Err;
      }
      StepsTrans(reg, s1, s2, ctx.S());
      StepsAllRepresent(reg, s1, ctx.S(), handles, Truths(reg, whole, es[..i], sc).value);
      StepsTrans(reg, s0, s1, ctx.S());
      handles := handles + [h.value];
    }
    assert es[..|es|] == es;
    r := Ok(handles);
  }

  lemma StepsReady(reg: Registry, s0: State, s1: State)
    requires Steps(reg, s0, s1)
    ensures Ready(reg, s1)
  {
  }

  lemma NoTruths(reg: Registry, whole: Expr, es: seq<Expr>, sc: Scope)
    requires forall i :: 0 <= i < |es| ==> es[i] < whole
    ensures Truths(reg, whole, es[..0], sc) == Some([])
  {
  }

  /** `a and b and ...`, `a or b or ...`. */
  method VisitBoolOp(ctx: Context, e: Expr) returns (r: Result<ValueHandle>)
    requires Ready(ctx.registry, ctx.S()) && PlainRegistry(ctx.registry) && NamesOk(ctx.registry, e) && e.BoolOp?
    modifies ctx
    ensures Lowered(ctx.registry, old(ctx.S()), ctx.S(), r, Want(ctx.registry, e, old(ctx.S())))
    decreases e, 2
  {
    hide Ready, Grows, PlainRegistry, IsSink, ScopeOf, Represents, CoerceAll, AllRepresent, Nest;
    if |e.values| < 2 { return Err; }
    ghost var reg, s0 := ctx.registry, ctx.S();
    var handles := VisitOperands(ctx, e, e.values);
    if handles.Err? { return Err; }
    ghost var s1, ds := ctx.S(), Truths(reg, e, e.values, ScopeOf(reg, s0)).value;
    var kind := if e.boolOp == And then "logical_and" else "logical_or";
    ConnectiveIsNoSink(reg, kind);
    TruthsLength(reg, e, e.values, ScopeOf(reg, s0));
    BooleanChain.Lengths(s1, handles.value, ds);
    var h := BuildChain(ctx, kind, handles.value, ds);
    StepsTrans(reg, s0, s1, ctx.S());
    r := Ok(h);
  }

  lemma ConnectiveIsNoSink(reg: Registry, kind: string)
    requires PlainRegistry(reg) && kind in {"logical_and", "logical_or"}
    ensures !IsSink(reg, kind) && IsBase(reg, kind)
  {
  }

  lemma TruthsLength(reg: Registry, whole: Expr, es: seq<Expr>, sc: Scope)
    requires forall i :: 0 <= i < |es| ==> es[i] < whole
    ensures Truths(reg, whole, es, sc).Some? ==> |Truths(reg, whole, es, sc).value| == |es|
  {
    DenoteAllLength(reg, whole, es, sc);
    if DenoteAll(reg, Folded, whole, es, sc).Some? {
      CoerceAllLength(reg, DenoteAll(reg, Folded, whole, es, sc).value, Boolean);
    }
  }

  // --------------------------------------------------------------------------- calls

  lemma {:induction false} AllPrefix(reg: Registry, whole: Expr, es: seq<Expr>, sc: Scope, i: nat)
    requires i <= |es| && forall k :: 0 <= k < |es| ==> es[k] < whole
    ensures DenoteAll(reg, Folded, whole, es, sc).Some? ==> DenoteAll(reg, Folded, whole, es[..i], sc).Some?
  {
    if i < |es| {
      AllPrefix(reg, whole, es[..|es| - 1], sc, i);
      assert es[..|es| - 1][..i] == es[..i];
    } else {
      assert es[..i] == es;
    }
  }

  lemma AllStep(reg: Registry, whole: Expr, es: seq<Expr>, sc: Scope, i: nat)
    requires i < |es| && forall k :: 0 <= k < |es| ==> es[k] < whole
    requires DenoteAll(reg, Folded, whole, es[..i], sc).Some?
    ensures var d := Denote(reg, Folded, es[i], sc);
            if d.None? then DenoteAll(reg, Folded, whole, es, sc).None?
            else DenoteAll(reg, Folded, whole, es[..i + 1], sc)
                 == Some(DenoteAll(reg, Folded, whole, es[..i], sc).value + [d.value])
  {
    assert es[..i + 1][..i] == es[..i];
    AllPrefix(reg, whole, es, sc, i + 1);
  }

  /** Arguments, left to right. */
  method VisitAll(ctx: Context, whole: Expr, es: seq<Expr>) returns (r: Result<seq<ValueHandle>>)
    requires Ready(ctx.registry, ctx.S()) && PlainRegistry(ctx.registry)
    requires forall i :: 0 <= i < |es| ==> es[i] < whole && NamesOk(ctx.registry, es[i])
    modifies ctx
    ensures var want := DenoteAll(ctx.registry, Folded, whole, es, ScopeOf(ctx.registry, old(ctx.S())));
            && (r.Ok? <==> want.Some?)
            && (r.Ok? ==> Steps(ctx.registry, old(ctx.S()), ctx.S()) && AllRepresent(ctx.S(), r.value, want.value))
    decreases whole, 0
  {
    hide Ready, Grows, PlainRegistry, NamesOk, Represents, DenoteAll, ScopeOf;
    ghost var reg, s0 := ctx.registry, ctx.S();
    ghost var sc := ScopeOf(reg, s0);
    var handles := [];
    StepsRefl(reg, s0);
    NoneDenoted(reg, whole, es, sc);
    for i := 0 to |es|
      invariant DenoteAll(reg, Folded, whole, es[..i], sc).Some?
      invariant Steps(reg, s0, ctx.S()) &&
                AllRepresent(ctx.S(), handles, DenoteAll(reg, Folded, whole, es[..i], sc).value)
    {
      ghost var s1 := ctx.S();
      StepsScope(reg, s0, s1);
      AllStep(reg, whole, es, sc, i);
      var x := VisitExpr(ctx, es[i]);
      if x.Err? { return Err; }
      StepsAllRepresent(reg, s1, ctx.S(), handles, DenoteAll(reg, Folded, whole, es[..i], sc).value);
      StepsTrans(reg, s0, s1, ctx.S());
      handles := handles + [x.value];
    }
    assert es[..|es|] == es;
    r := Ok(handles);
  }

  lemma NoneDenoted(reg: Registry, whole: Expr, es: seq<Expr>, sc: Scope)
    requires forall i :: 0 <= i < |es| ==> es[i] < whole
    ensures DenoteAll(reg, Folded, whole, es[..0], sc) == Some([])
  {
  }

  lemma {:induction false} KeywordsPrefix(reg: Registry, whole: Expr, ks: seq<Keyword>, sc: Scope, i: nat)
    requires i <= |ks| && forall k :: 0 <= k < |ks| ==> ks[k].arg < whole
    ensures DenoteKeywords(reg, Folded, whole, ks, sc).Some? ==> DenoteKeywords(reg, Folded, whole, ks[..i], sc).Some?
  {
    if i < |ks| {
      KeywordsPrefix(reg, whole, ks[..|ks| - 1], sc, i);
      assert ks[..|ks| - 1][..i] == ks[..i];
    } else {
      assert ks[..i] == ks;
    }
  }

  lemma KeywordsStep(reg: Registry, whole: Expr, ks: seq<Keyword>, sc: Scope, i: nat)
    requires i < |ks| && forall k :: 0 <= k < |ks| ==> ks[k].arg < whole
    requires DenoteKeywords(reg, Folded, whole, ks[..i], sc).Some?
    ensures var d := Denote(reg, Folded, ks[i].arg, sc);
            if d.None? then DenoteKeywords(reg, Folded, whole, ks, sc).None?
            else DenoteKeywords(reg, Folded, whole, ks[..i + 1], sc)
                 == Some(DenoteKeywords(reg, Folded, whole, ks[..i], sc).value[ks[i].key := d.value])
  {
    assert ks[..i + 1][..i] == ks[..i];
    KeywordsPrefix(reg, whole, ks, sc, i + 1);
  }

  lemma NoKeywords(reg: Registry, whole: Expr, ks: seq<Keyword>, sc: Scope)
    requires forall i :: 0 <= i < |ks| ==> ks[i].arg < whole
    ensures DenoteKeywords(reg, Folded, whole, ks[..0], sc) == Some(map[])
  {
  }

  ghost predicate EachRepresents(s: State, hs: map<string, ValueHandle>, ds: map<string, Den>) {
    hs.Keys == ds.Keys && forall k :: k in hs ==> Represents(s, hs[k], ds[k])
  }

  lemma StepsEachRepresents(reg: Registry, a: State, b: State, hs: map<string, ValueHandle>, ds: map<string, Den>)
    requires Steps(reg, a, b) && EachRepresents(a, hs, ds)
    ensures EachRepresents(b, hs, ds)
  {
    forall k | k in hs ensures Represents(b, hs[k], ds[k]) {
      StepsRepresent(reg, a, b, hs[k], ds[k]);
    }
  }

  /** Keyword arguments in order; a repeated key overwrites. */
  method VisitKeywords(ctx: Context, whole: Expr, ks: seq<Keyword>) returns (r: Result<map<string, ValueHandle>>)
    requires Ready(ctx.registry, ctx.S()) && PlainRegistry(ctx.registry)
    requires forall i :: 0 <= i < |ks| ==> ks[i].arg < whole && NamesOk(ctx.registry, ks[i].arg)
    modifies ctx
    ensures var want := DenoteKeywords(ctx.registry, Folded, whole, ks, ScopeOf(ctx.registry, old(ctx.S())));
            && (r.Ok? <==> want.Some?)
            && (r.Ok? ==> Steps(ctx.registry, old(ctx.S()), ctx.S()) && EachRepresents(ctx.S(), r.value, want.value))
    decreases whole, 0
  {
    hide Ready, Grows, PlainRegistry, NamesOk, Represents, DenoteKeywords, ScopeOf;
    ghost var reg, s0 := ctx.registry, ctx.S();
    ghost var sc := ScopeOf(reg, s0);
    var handles := map[];
    StepsRefl(reg, s0);
    NoKeywords(reg, whole, ks, sc);
    for i := 0 to |ks|
      invariant DenoteKeywords(reg, Folded, whole, ks[..i], sc).Some?
      invariant Steps(reg, s0, ctx.S()) &&
                EachRepresents(ctx.S(), handles, DenoteKeywords(reg, Folded, whole, ks[..i], sc).value)
    {
      ghost var s1 := ctx.S();
      StepsScope(reg, s0, s1);
      KeywordsStep(reg, whole, ks, sc, i);
      var x := VisitExpr(ctx, ks[i].arg);
      if x.Err? { return Err; }
      StepsEachRepresents(reg, s1, ctx.S(), handles, DenoteKeywords(reg, Folded, whole, ks[..i], sc).value);
      StepsTrans(reg, s0, s1, ctx.S());
      handles := handles[ks[i].key := x.value];
    }
    assert ks[..|ks|] == ks;
    r := Ok(handles);
  }

  /** The literal a node stands for. */
  function LiteralOf(n: Node): Option<OptionValue> {
    if n.kind == "number" then
      (if "value" in n.options && n.options["value"].Number? then Some(n.options["value"]) else None)
    else if n.kind == "bool_true" || n.kind == "bool_false" then Some(Flag(n.kind == "bool_true"))
    else None
  }

  lemma LiteralOfTerm(n: Node, v: Valuation)
    ensures NodeLiteral(NodeValue(n, v)) == LiteralOf(n)
  {
    if "value" in n.options {
      var m := OptionMeaning(n.kind, "value", n.options["value"], v);
      assert NodeValue(n, v).options["value"] == m;
    }
  }

  /** A variable bound to a handle leads to a node in the table. */
  lemma LiteralNode(reg: Registry, s: State, id: string)
    requires Ready(reg, s) && !Reserved(reg, id) && id in s.bindings && s.bindings[id].NodeHandle?
    ensures var at := s.bindings[id].at.nodeId;
            && at in s.lookup && s.lookup[at] < |s.nodes|
            && OptionLiteral(reg, Name(id), ScopeOf(reg, s)) == LiteralOf(s.nodes[s.lookup[at]])
  {
    var at := s.bindings[id].at.nodeId;
    assert at in s.val && id in ScopeOf(reg, s);
    var n := s.nodes[s.lookup[at]];
    assert n in s.nodes && Finished(s, n);
    LiteralOfTerm(n, s.val);
  }

  lemma BareWord(reg: Registry, s: State, id: string)
    requires id in s.bindings ==> s.bindings[id].ComponentName?
    ensures OptionLiteral(reg, Name(id), ScopeOf(reg, s)) == Some(Text(id))
  {
  }

  /** An option given by name: a variable bound to a literal node, or a bare word. */
  method ParseOptionName(ctx: Context, id: string) returns (r: Result<OptionValue>)
    requires Ready(ctx.registry, ctx.S()) && !Reserved(ctx.registry, id)
    ensures var want := OptionLiteral(ctx.registry, Name(id), ScopeOf(ctx.registry, ctx.S()));
            (r.Ok? <==> want.Some?) && (r.Ok? ==> r.value == want.value)
  {
    hide Ready, ScopeOf, OptionLiteral;
    if id !in ctx.varToBinding || ctx.varToBinding[id].ComponentName? {
      BareWord(ctx.registry, ctx.S(), id);
      return Ok(Text(id));
    }
    LiteralNode(ctx.registry, ctx.S(), id);
    var n := ctx.algorithms[ctx.nodeLookup[ctx.varToBinding[id].at.nodeId]];
    if n.kind == "number" {
      r := if "value" in n.options && n.options["value"].Number? then Ok(n.options["value"]) else Err;
    } else if n.kind == "bool_true" || n.kind == "bool_false" {
      r := Ok(Flag(n.kind == "bool_true"));
    } else {
      r := Err;
    }
  }

  method ParseLiteralOrPrimitive(ctx: Context, e: Expr) returns (r: Result<OptionValue>)
    requires Ready(ctx.registry, ctx.S()) && NamesOk(ctx.registry, e)
    ensures var want := OptionLiteral(ctx.registry, e, ScopeOf(ctx.registry, ctx.S()));
            (r.Ok? <==> want.Some?) && (r.Ok? ==> r.value == want.value)
  {
    match e
    case Call(_, _, _) =>
      var custom := ctx.registry.literalCall(e);
      r := if custom.Some? then Ok(custom.value) else Err;
    case Constant(IntC(i)) => r := Ok(Number(i as real));
    case Constant(DoubleC(d)) => r := Ok(Number(d));
    case Constant(BoolC(b)) => r := Ok(Flag(b));
    case Constant(StrC(s)) => r := Ok(Text(s));
    case Constant(NoneC) => r := Ok(Text(""));
    case Name(id) => r := ParseOptionName(ctx, id);
    case _ => r := Err;
  }

  lemma {:induction false} ParamsPrefix(reg: Registry, kind: string, ks: seq<Keyword>, sc: Scope, i: nat)
    requires kind in reg.components && i <= |ks|
    ensures Params(reg, kind, ks, sc).Some? ==> Params(reg, kind, ks[..i], sc).Some?
  {
    if i < |ks| {
      ParamsPrefix(reg, kind, ks[..|ks| - 1], sc, i);
      assert ks[..|ks| - 1][..i] == ks[..i];
    } else {
      assert ks[..i] == ks;
    }
  }

  lemma ParamsStep(reg: Registry, kind: string, ks: seq<Keyword>, sc: Scope, i: nat)
    requires kind in reg.components && i < |ks| && Params(reg, kind, ks[..i], sc).Some?
    ensures var special := ks[i].key == "timeframe" || ks[i].key == "session";
            var o := if special then SpecialLiteral(ks[i].arg) else OptionLiteral(reg, ks[i].arg, sc);
            if o.None? || (!special && ks[i].key !in reg.components[kind].options) then Params(reg, kind, ks, sc).None?
            else Params(reg, kind, ks[..i + 1], sc) == Some(Params(reg, kind, ks[..i], sc).value[ks[i].key := o.value])
  {
    assert ks[..i + 1][..i] == ks[..i];
    ParamsPrefix(reg, kind, ks, sc, i + 1);
  }

  /** Constructor keywords: options the component declares, plus timeframe and session. */
  method ParseParams(ctx: Context, kind: string, ks: seq<Keyword>) returns (r: Result<map<string, OptionValue>>)
    requires Ready(ctx.registry, ctx.S()) && kind in ctx.registry.components
    requires forall i :: 0 <= i < |ks| ==> NamesOk(ctx.registry, ks[i].arg)
    ensures var want := Params(ctx.registry, kind, ks, ScopeOf(ctx.registry, ctx.S()));
            (r.Ok? <==> want.Some?) && (r.Ok? ==> r.value == want.value)
  {
    hide Ready, NamesOk, OptionLiteral, ScopeOf;
    ghost var reg, sc := ctx.registry, ScopeOf(ctx.registry, ctx.S());
    var params := map[];
    for i := 0 to |ks|
      invariant Params(reg, kind, ks[..i], sc) == Some(params)
    {
      ParamsStep(reg, kind, ks, sc, i);
      var key := ks[i].key;
      if key == "timeframe" || key == "session" {
        match ks[i].arg
        case Constant(StrC(s)) => params := params[key := Text(s)];
        case Name(id) => params := params[key := Text(id)];
        case _ => return Err;
      } else {
        if key !in ctx.registry.components[kind].options { return Err; }
        var o := ParseLiteralOrPrimitive(ctx, ks[i].arg);
        if o.Err? { return Err; }
        params := params[key := o.value];
      }
    }
    assert ks[..|ks|] == ks;
    r := Ok(params);
  }

  ghost function WantParse(reg: Registry, e: Expr, single: bool, s: State): Option<Parsed>
    requires e.Call?
  {
    DenoteParse(reg, Folded, e, single, ScopeOf(reg, s))
  }

  lemma NoFeedsMean(s: State, p: ParsedCall, d: Parsed)
    requires p.kind == d.kind && p.params == d.params && p.feeds == [] && d.feeds == []
    ensures ParseMeans(s, p, d)
  {
  }

  lemma ArgsMean(s: State, p: ParsedCall, d: Parsed, args: seq<ValueHandle>, ds: seq<Den>)
    requires p.kind == d.kind && p.params == d.params && p.feeds == [Feed(args, map[])]
    requires d.feeds == [FeedDen(ds, map[])]
    requires AllRepresent(s, args, ds)
    ensures ParseMeans(s, p, d)
  {
  }

  /** One more feed step after those already parsed. */
  lemma FeedAdded(reg: Registry, s1: State, s2: State, p: ParsedCall, d: Parsed, args: seq<ValueHandle>, ds: seq<Den>,
                  kwargs: map<string, ValueHandle>, kd: map<string, Den>)
    requires Steps(reg, s1, s2) && ParseMeans(s1, p, d) && AllRepresent(s2, args, ds) && EachRepresents(s2, kwargs, kd)
    ensures ParseMeans(s2, p.(feeds := p.feeds + [Feed(args, kwargs)]), d.(feeds := d.feeds + [FeedDen(ds, kd)]))
  {
    hide Ready, Grows, Represents;
    FeedsStaySteps(reg, s1, s2, p.feeds, d.feeds);
  }

  lemma FeedsStaySteps(reg: Registry, s1: State, s2: State, fs: seq<Feed>, fds: seq<FeedDen>)
    requires Steps(reg, s1, s2) && FeedsMean(s1, fs, fds)
    ensures FeedsMean(s2, fs, fds)
  {
    FeedsStay(reg, s1, s2, -1, fs, fds);
  }

  /** A chain of calls: constructor keywords first, then one feed step per further call. */
  method ParseConstructorAndFeeds(ctx: Context, e: Expr, single: bool) returns (r: Result<ParsedCall>)
    requires Ready(ctx.registry, ctx.S()) && PlainRegistry(ctx.registry) && NamesOk(ctx.registry, e) && e.Call?
    modifies ctx
    ensures var want := WantParse(ctx.registry, e, single, old(ctx.S()));
            && (r.Ok? <==> want.Some?)
            && (r.Ok? ==> Steps(ctx.registry, old(ctx.S()), ctx.S()) && ParseMeans(ctx.S(), r.value, want.value))
    decreases e, 1, 1
  {
    hide Ready, Grows, PlainRegistry, Represents, ParseMeans, AllRepresent, EachRepresents, ScopeOf;
    match e.func
    case Name(kind) => r := ParseConstructor(ctx, e, kind, single);
    case Call(_, _, _) => r := ParseFeed(ctx, e);
    case _ => r := Err;
  }

  /** The innermost call: options by keyword, or inputs when it declares no options. */
  method ParseConstructor(ctx: Context, e: Expr, kind: string, single: bool) returns (r: Result<ParsedCall>)
    requires Ready(ctx.registry, ctx.S()) && PlainRegistry(ctx.registry) && NamesOk(ctx.registry, e)
    requires e.Call? && e.func == Name(kind)
    modifies ctx
    ensures var want := WantParse(ctx.registry, e, single, old(ctx.S()));
            && (r.Ok? <==> want.Some?)
            && (r.Ok? ==> Steps(ctx.registry, old(ctx.S()), ctx.S()) && ParseMeans(ctx.S(), r.value, want.value))
    decreases e, 1, 0
  {
    hide Ready, Grows, PlainRegistry, Represents, ParseMeans, AllRepresent, ScopeOf, Params, DenoteAll;
    ghost var reg, s0 := ctx.registry, ctx.S();
    if kind !in ctx.registry.components { return Err; }
    var params := ParseParams(ctx, kind, e.keywords);
    if params.Err? { return Err; }
    if e.args == [] {
      StepsRefl(reg, s0);
      r := Ok(ParsedCall(kind, params.value, []));
      NoFeedsMean(ctx.S(), r.value, WantParse(reg, e, single, s0).value);
      return;
    }
    if ctx.registry.components[kind].options != {} || !single { return Err; }
    var args := VisitAll(ctx, e, e.args);
    if args.Err? { return Err; }
    r := Ok(ParsedCall(kind, params.value, [Feed(args.value, map[])]));
    ArgsMean(ctx.S(), r.value, WantParse(reg, e, single, s0).value, args.value,
             DenoteAll(reg, Folded, e, e.args, ScopeOf(reg, s0)).value);
  }

  /** A further call: its arguments feed the component. */
  method ParseFeed(ctx: Context, e: Expr) returns (r: Result<ParsedCall>)
    requires Ready(ctx.registry, ctx.S()) && PlainRegistry(ctx.registry) && NamesOk(ctx.registry, e)
    requires e.Call? && e.func.Call?
    modifies ctx
    ensures forall single ::
              var want := WantParse(ctx.registry, e, single, old(ctx.S()));
              && (r.Ok? <==> want.Some?)
              && (r.Ok? ==> Steps(ctx.registry, old(ctx.S()), ctx.S()) && ParseMeans(ctx.S(), r.value, want.value))
    decreases e, 1, 0
  {
    hide Ready, Grows, PlainRegistry, Represents, ParseMeans, AllRepresent, EachRepresents, ScopeOf, DenoteAll,
         DenoteKeywords;
    ghost var reg, s0 := ctx.registry, ctx.S();
    ghost var sc := ScopeOf(reg, s0);
    var inner := ParseConstructorAndFeeds(ctx, e.func, false);
    if inner.Err? { return Err; }
    ghost var s1, d := ctx.S(), WantParse(reg, e.func, false, s0).value;
    StepsScope(reg, s0, s1);
    var args := VisitAll(ctx, e, e.args);
    if args.Err? { return Err; }
    ghost var s2, ds := ctx.S(), DenoteAll(reg, Folded, e, e.args, sc).value;
    StepsScope(reg, s1, s2);
    var kwargs := VisitKeywords(ctx, e, e.keywords);
    if kwargs.Err? { return Err; }
    ghost var s3, kd := ctx.S(), DenoteKeywords(reg, Folded, e, e.keywords, sc).value;
    StepsAllRepresent(reg, s2, s3, args.value, ds);
    StepsTrans(reg, s1, s2, s3);
    FeedAdded(reg, s1, s3, inner.value, d, args.value, ds, kwargs.value, kd);
    StepsTrans(reg, s0, s1, s3);
    r := Ok(inner.value.(feeds := inner.value.feeds + [Feed(args.value, kwargs.value)]));
  }

  lemma {:induction false} PlainParamsWritten(reg: Registry, kind: string, ks: seq<Keyword>, sc: Scope)
    requires PlainRegistry(reg) && kind in reg.components && PlainKeywords(reg, kind, ks)
    requires Params(reg, kind, ks, sc).Some?
    ensures PlainWords(reg, kind, Params(reg, kind, ks, sc).value)
  {
    hide Refers, SlotText, PlainConfig;
    if ks != [] {
      var k := ks[|ks| - 1];
      PlainParamsWritten(reg, kind, ks[..|ks| - 1], sc);
      assert PlainArg(reg, k.arg, reg.components[kind].inputs != []);
      EmptyIsPlain();
    }
  }

  lemma EmptyIsPlain()
    ensures !Refers("") && !SlotText("")
  {
  }

  /** The parameters of a call are as plain as its keywords. */
  lemma {:induction false} PlainParse(reg: Registry, mode: Mode, e: Expr, single: bool, sc: Scope)
    requires PlainRegistry(reg) && NamesOk(reg, e) && e.Call? && DenoteParse(reg, mode, e, single, sc).Some?
    ensures var d := DenoteParse(reg, mode, e, single, sc).value; PlainWords(reg, d.kind, d.params)
    decreases e
  {
    hide PlainRegistry, PlainWords, PlainKeywords, Params, DenoteAll, DenoteKeywords;
    match e.func
    case Name(kind) => PlainParamsWritten(reg, kind, e.keywords, sc);
    case Call(_, _, _) => PlainParse(reg, mode, e.func, false, sc);
    case _ =>
  }

  /** A component call used as a value: exactly one output. */
  method VisitCall(ctx: Context, e: Expr) returns (r: Result<ValueHandle>)
    requires Ready(ctx.registry, ctx.S()) && PlainRegistry(ctx.registry) && NamesOk(ctx.registry, e) && e.Call?
    modifies ctx
    ensures Lowered(ctx.registry, old(ctx.S()), ctx.S(), r, Want(ctx.registry, e, old(ctx.S())))
    decreases e, 2
  {
    hide Ready, Grows, PlainRegistry, Represents, ParseMeans, ScopeOf, Invoke, NamesOk, PlainWords;
    ghost var reg, s0 := ctx.registry, ctx.S();
    var p := ParseConstructorAndFeeds(ctx, e, !e.func.Call?);
    if p.Err? { return Err; }
    ghost var s1, d := ctx.S(), WantParse(reg, e, !e.func.Call?, s0).value;
    PlainParse(reg, Folded, e, !e.func.Call?, ScopeOf(reg, s0));
    r := InvokeInline(ctx, p.value, d);
    if r.Ok? { StepsTrans(reg, s0, s1, ctx.S()); }
  }

  method InvokeInline(ctx: Context, p: ParsedCall, ghost d: Parsed) returns (r: Result<ValueHandle>)
    requires Ready(ctx.registry, ctx.S()) && PlainRegistry(ctx.registry)
    requires d.kind in ctx.registry.components && ParseMeans(ctx.S(), p, d)
    requires PlainWords(ctx.registry, d.kind, d.params)
    modifies ctx
    ensures Lowered(ctx.registry, old(ctx.S()), ctx.S(), r, Invoke(ctx.registry, d))
  {
    hide Core, Bound, Grows, PlainRegistry, Represents, Calling, Wiring, FeedsMean, WireFeeds, IsSink, IsBase,
         PlainWords;
    ghost var reg, s0 := ctx.registry, ctx.S();
    var c := ctx.registry.components[p.kind];
    if c.outputs == [] { return Err; }
    var id := ctx.UniqueNodeId(p.kind);
    var cfg := ctx.registry.configure(p.kind, p.params);
    if cfg.None? { return Err; }
    var n := Node(p.kind, id, cfg.value.options, map[], cfg.value.timeframe, cfg.value.session);
    ghost var u := ctx.S();
    ComponentCall(reg, p.kind, p.params);
    CallingKeeps(reg, s0, p.kind, n, true);
    CallWiring(reg, s0, u, n, true, p.feeds, d.feeds);
    var t := |ctx.algorithms|;
    ctx.Enter(n, true);
    ghost var e := ctx.S();
    var wired := WireAllFeeds(ctx, t, c, p.feeds, e, n, d.feeds);
    if wired.Err? || |c.outputs| != 1 { return Err; }
    CallDone(reg, s0, u, n, ctx.S(), WireFeeds(reg, c, map[], d.feeds).value);
    ctx.Complete(t);
    r := Ok(ValueHandle(id, c.outputs[0].id));
    Stands(ctx.S(), r.value, Invoke(reg, d).value);
  }

  lemma ComponentCall(reg: Registry, kind: string, params: map<string, OptionValue>)
    requires PlainRegistry(reg) && kind in reg.components && PlainWords(reg, kind, params)
    ensures IsBase(reg, kind)
    ensures reg.components[kind].outputs != [] ==> !IsSink(reg, kind)
    ensures reg.configure(kind, params).Some? ==> NamesNothing(kind, reg.configure(kind, params).value.options)
  {
    if reg.configure(kind, params).Some? {
      assert PlainConfig(reg, reg.components[kind], kind, params, reg.configure(kind, params).value.options);
    }
  }
}
