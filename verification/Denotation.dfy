/**
 What an EpochScript program means, independently of how it is lowered: every expression denotes
 a term, or nothing when the compiler must reject it.
 */
module Denotation {
  import opened Wrappers
  import opened Graph
  import opened Ast
  import opened Registry
  import opened ConstantFolder

  /** One output of a term, with the output type recorded for "result" if any. */
  datatype Den = Den(node: Value, handle: string, tracked: Option<DataType>)

  function ValueOf(d: Den): Value { Output(d.node, "#" + d.handle) }

  function KindOf(v: Value): string { if v.Apply? then v.kind else "" }

  // -------------------------------------------------------------------------- types

  const LITERAL_KINDS := {"number", "bool_true", "bool_false", "text", "null"}
  const BOOLEAN_OPERATORS := {"lt", "gt", "lte", "gte", "eq", "neq", "logical_and", "logical_or"}
  const ARITHMETIC_OPERATORS := {"add", "sub", "mul", "div"}

  /** Declared output type, then built-in knowledge of operators and literals, then Any. */
  function KindType(reg: Registry, kind: string, handle: string): DataType {
    if kind in reg.components && OutputType(reg.components[kind].outputs, handle).Some?
    then OutputType(reg.components[kind].outputs, handle).value
    else if kind in BOOLEAN_OPERATORS || kind == "logical_not" then Boolean
    else if kind in ARITHMETIC_OPERATORS || kind == "number" then Decimal
    else if kind == "bool_true" || kind == "bool_false" then Boolean
    else if kind == "text" then StringType
    else Any
  }

  function HandleType(reg: Registry, kind: string, tracked: Option<DataType>, handle: string): DataType {
    if handle == "result" && tracked.Some? then tracked.value else KindType(reg, kind, handle)
  }

  function TypeOf(reg: Registry, d: Den): DataType { HandleType(reg, KindOf(d.node), d.tracked, d.handle) }

  predicate Numeric(t: DataType) { t == NumberType || t == Decimal || t == Integer }

  predicate Compatible(source: DataType, target: DataType) {
    || source == Any || target == Any || source == target
    || (Numeric(source) && Numeric(target))
  }

  /** The transform that converts between incompatible types, when one exists. */
  function CastKind(source: DataType, target: DataType): Option<string> {
    if source == Boolean && Numeric(target) then
      Some(if target == Integer then "static_cast_to_integer" else "static_cast_to_decimal")
    else if Numeric(source) && target == Boolean then Some("static_cast_to_boolean")
    else if source == Boolean && target == StringType then Some("stringify")
    else None
  }

  /** A built-in node without options. */
  function Built(kind: string, inputs: map<string, Args>): Value { Apply(kind, map[], inputs, None, None) }

  function Coerce(reg: Registry, d: Den, target: DataType): Option<Den> {
    var source := TypeOf(reg, d);
    if Compatible(source, target) then Some(d)
    else
      var kind :- CastKind(source, target);
      Some(Den(Built(kind, map["SLOT" := Args([ValueOf(d)])]), "result", Some(target)))
  }

  // ---------------------------------------------------------------------- operators

  function BinOpKind(op: BinOpType): string {
    match op
    case Add => "add"
    case Sub => "sub"
    case Mult => "mul"
    case Div => "div"
    case Lt => "lt"
    case Gt => "gt"
    case LtE => "lte"
    case GtE => "gte"
    case Eq => "eq"
    case NotEq => "neq"
    case And => "logical_and"
    case Or => "logical_or"
    case Mod => "modulo"
    case Pow => "power_op"
  }

  predicate IsComparison(op: BinOpType) { op in {Lt, Gt, LtE, GtE, Eq, NotEq} }

  function BinOpTracked(kind: string): Option<DataType> {
    if kind in BOOLEAN_OPERATORS then Some(Boolean)
    else if kind in ARITHMETIC_OPERATORS then Some(Decimal)
    else None
  }

  function SelectKind(t: DataType, f: DataType): string {
    if t == StringType || f == StringType then "boolean_select_string"
    else if t == Timestamp || f == Timestamp then "boolean_select_timestamp"
    else if t == Boolean && f == Boolean then "boolean_select_boolean"
    else "boolean_select_number"
  }

  function LagKind(t: DataType): string {
    match t
    case StringType => "lag_string"
    case Boolean => "lag_boolean"
    case Timestamp => "lag_timestamp"
    case _ => "lag_number"
  }

  function FirstOutput(c: Component): string { if c.outputs == [] then "result" else c.outputs[0].id }

  /** `inputs[name].push_back(value)`. */
  function Wire(inputs: map<string, Args>, name: string, value: Value): map<string, Args> {
    inputs[name := Args((if name in inputs then inputs[name].values else []) + [value])]
  }

  function Literal(c: Const): Den {
    match c
    case IntC(i) => Den(Apply("number", map["value" := Raw(Number(i as real))], map[], None, None), "result",
                        Some(Decimal))
    case DoubleC(d) => Den(Apply("number", map["value" := Raw(Number(d))], map[], None, None), "result", Some(Decimal))
    case StrC(s) => Den(Apply("text", map["value" := Raw(Text(s))], map[], None, None), "result", Some(StringType))
    case BoolC(b) => Den(Built(if b then "bool_true" else "bool_false", map[]), "result", Some(Boolean))
    case NoneC => Den(Built("null_number", map[]), "result", Some(NumberType))
  }

  lemma {:induction false} DeclaredOutput(outputs: seq<OutputPort>, id: string)
    ensures OutputType(outputs, id).Some? <==> exists o :: o in outputs && o.id == id
  {
    if outputs != [] {
      DeclaredOutput(outputs[1..], id);
      assert outputs == [outputs[0]] + outputs[1..];
    }
  }

  /** A null literal's handle is an output of its component exactly when one is called "result". */
  lemma NullHandleDeclared(reg: Registry)
    requires "null_number" in reg.components && reg.components["null_number"].outputs != []
    ensures var outputs := reg.components["null_number"].outputs;
            && (OutputType(outputs, Literal(NoneC).handle).Some? <==> exists o :: o in outputs && o.id == "result")
            && (outputs == [OutputPort("value", NumberType)] ==> OutputType(outputs, Literal(NoneC).handle).None?)
  {
    DeclaredOutput(reg.components["null_number"].outputs, "result");
  }

  /** Both operands converted to what the operator's two inputs expect. */
  function OperandInputs(reg: Registry, c: Component, a: Den, b: Den): Option<map<string, Args>> {
    if |c.inputs| != 2 then None
    else
      var left, right := InputNames(c)[0], InputNames(c)[1];
      var x :- Coerce(reg, a, InputType(c.inputs, left));
      var y :- Coerce(reg, b, InputType(c.inputs, right));
      Some(Wire(Wire(map[], left, ValueOf(x)), right, ValueOf(y)))
  }

  function Binary(reg: Registry, kind: string, a: Den, b: Den, tracked: Option<DataType>): Option<Den> {
    if kind !in reg.components then None
    else
      var inputs :- OperandInputs(reg, reg.components[kind], a, b);
      Some(Den(Built(kind, inputs), FirstOutput(reg.components[kind]), tracked))
  }

  /** a and b and c  is  logical_and(a, logical_and(b, c)). */
  function Nest(kind: string, vs: seq<Value>): Value
    requires |vs| >= 2
  {
    var rest := if |vs| == 2 then vs[1] else Output(Nest(kind, vs[1..]), "#result");
    Built(kind, map["SLOT0" := Args([vs[0]]), "SLOT1" := Args([rest])])
  }

  function CoerceAll(reg: Registry, ds: seq<Den>, target: DataType): Option<seq<Den>> {
    if ds == [] then Some([])
    else
      var init :- CoerceAll(reg, ds[..|ds| - 1], target);
      var last :- Coerce(reg, ds[|ds| - 1], target);
      Some(init + [last])
  }

  function Values(ds: seq<Den>): seq<Value> { seq(|ds|, i requires 0 <= i < |ds| => ValueOf(ds[i])) }

  // -------------------------------------------------------------------------- scopes

  datatype Entry = Handle(den: Den) | Instance(node: Value)

  type Scope = map<string, Entry>

  /** The type checker tracks nothing for nodes created from constructor calls. */
  function OfInstance(node: Value, handle: string): Den { Den(node, handle, None) }

  function DenoteName(reg: Registry, id: string, sc: Scope): Option<Den> {
    if id == "true" then Some(Literal(BoolC(true)))
    else if id == "false" then Some(Literal(BoolC(false)))
    else if id !in sc then None
    else match sc[id]
      case Handle(d) => Some(d)
      case Instance(node) =>
        var kind := KindOf(node);
        if kind in LITERAL_KINDS then Some(OfInstance(node, "result"))
        else if kind !in reg.components || |reg.components[kind].outputs| != 1 then None
        else Some(OfInstance(node, reg.components[kind].outputs[0].id))
  }

  function HandlesOf(c: Component): set<string> {
    (set o | o in c.outputs :: o.id) + (set i | i in c.inputs :: SlotName(i.id))
  }

  /** `name.handle`: only component instances have handles. */
  function DenoteHandle(reg: Registry, id: string, handle: string, sc: Scope): Option<Den> {
    if id !in sc || sc[id].Handle? then None
    else
      var kind := KindOf(sc[id].node);
      if kind !in reg.components || handle !in HandlesOf(reg.components[kind]) then None
      else Some(OfInstance(sc[id].node, handle))
  }

  // ------------------------------------------------------------------------ lag slices

  /**
   How slices are read.  Constants are either already folded away, or still looked up where the slice
   stands; `Presumed` takes every slice to have some period.
   */
  datatype Mode = Folded | Source(math: Math, constants: Table) | Presumed

  /** What VisitSubscript itself understands. */
  function LiteralPeriod(slice: Expr): Option<int> {
    match slice
    case Constant(IntC(k)) => if k != 0 then Some(k) else None
    case UnaryOp(USub, Constant(IntC(k))) => if k != 0 then Some(-k) else None
    case _ => None
  }

  /** What the slice is for: any constant expression that evaluates to a nonzero integer. */
  function SourcePeriod(math: Math, slice: Expr, constants: Table): Option<int> {
    if !IsConstantExpression(slice, constants) then None
    else match EvaluateConstant(math, slice, constants)
      case Some(IntC(k)) => if k != 0 then Some(k) else None
      case _ => None
  }

  function Period(mode: Mode, slice: Expr): Option<int> {
    match mode
    case Folded => LiteralPeriod(slice)
    case Source(math, constants) => SourcePeriod(math, slice, constants)
    case Presumed => Some(1)
  }

  function Lag(reg: Registry, d: Den, period: int): Option<Den> {
    var kind := LagKind(TypeOf(reg, d));
    if kind !in reg.components then None
    else Some(Den(Apply(kind, map["period" := Raw(Number(period as real))], map["SLOT" := Args([ValueOf(d)])], None,
                        None),
                  "result", Some(TypeOf(reg, d))))
  }

  function Select(reg: Registry, c: Den, t: Den, f: Den): Option<Den> {
    var kind := SelectKind(TypeOf(reg, t), TypeOf(reg, f));
    if kind !in reg.components then None
    else Some(Den(Built(kind, map["condition" := Args([ValueOf(c)]), "true" := Args([ValueOf(t)]),
                                  "false" := Args([ValueOf(f)])]),
                  FirstOutput(reg.components[kind]), None))
  }

  function Negate(d: Den): Den {
    Den(Built("mul", map["SLOT0" := Args([ValueOf(Literal(DoubleC(-1.0)))]), "SLOT1" := Args([ValueOf(d)])]),
        "result", Some(Decimal))
  }

  function LogicalNot(reg: Registry, d: Den): Option<Den> {
    if "logical_not" !in reg.components then None
    else Some(Den(Built("logical_not", map["SLOT" := Args([ValueOf(d)])]),
                  FirstOutput(reg.components["logical_not"]), Some(Boolean)))
  }

  // ------------------------------------------------------------------ component calls

  predicate IsNumber(m: Meaning) { m.Raw? && m.raw.Number? }

  /** A literal node's value, when the variable is used as an option; a number node holds a number. */
  function NodeLiteral(node: Value): Option<OptionValue> {
    if !node.Apply? then None
    else if node.kind == "number" then
      (if "value" in node.options && IsNumber(node.options["value"]) then Some(node.options["value"].raw) else None)
    else if node.kind == "bool_true" then Some(Flag(true))
    else if node.kind == "bool_false" then Some(Flag(false))
    else None
  }

  function OptionLiteral(reg: Registry, e: Expr, sc: Scope): Option<OptionValue> {
    match e
    case Call(_, _, _) => reg.literalCall(e)
    case Constant(IntC(i)) => Some(Number(i as real))
    case Constant(DoubleC(d)) => Some(Number(d))
    case Constant(BoolC(b)) => Some(Flag(b))
    case Constant(StrC(s)) => Some(Text(s))
    case Constant(NoneC) => Some(Text(""))
    case Name(id) => if id in sc && sc[id].Handle? then NodeLiteral(sc[id].den.node) else Some(Text(id))
    case _ => None
  }

  function SpecialLiteral(e: Expr): Option<OptionValue> {
    match e
    case Constant(StrC(s)) => Some(Text(s))
    case Name(id) => Some(Text(id))
    case _ => None
  }

  /** Constructor keywords; a repeated key overwrites. */
  function Params(reg: Registry, kind: string, ks: seq<Keyword>, sc: Scope): Option<map<string, OptionValue>>
    requires kind in reg.components
  {
    if ks == [] then Some(map[])
    else
      var k := ks[|ks| - 1];
      var before :- Params(reg, kind, ks[..|ks| - 1], sc);
      if k.key == "timeframe" || k.key == "session" then
        var o :- SpecialLiteral(k.arg);
        Some(before[k.key := o])
      else if k.key !in reg.components[kind].options then None
      else
        var o :- OptionLiteral(reg, k.arg, sc);
        Some(before[k.key := o])
  }

  datatype FeedDen = FeedDen(args: seq<Den>, kwargs: map<string, Den>)

  datatype Parsed = Parsed(kind: string, params: map<string, OptionValue>, feeds: seq<FeedDen>)

  predicate KeywordFits(reg: Registry, c: Component, kwargs: map<string, Den>, k: string)
    requires k in kwargs
  {
    k in InputNames(c) && Coerce(reg, kwargs[k], InputType(c.inputs, k)).Some?
  }

  function KeywordValue(reg: Registry, c: Component, kwargs: map<string, Den>, k: string): Value
    requires k in kwargs && KeywordFits(reg, c, kwargs, k)
  {
    ValueOf(Coerce(reg, kwargs[k], InputType(c.inputs, k)).value)
  }

  function KeywordValues(reg: Registry, c: Component, kwargs: map<string, Den>, done: set<string>): map<string, Value>
    requires done <= kwargs.Keys && forall k {:trigger k in done} :: k in done ==> KeywordFits(reg, c, kwargs, k)
  {
    map k | k in done :: KeywordValue(reg, c, kwargs, k)
  }

  /** One value appended to each named input, whatever the order. */
  function WireEach(inputs: map<string, Args>, vs: map<string, Value>): map<string, Args> {
    map k | k in inputs.Keys + vs.Keys ::
      if k in vs then Args((if k in inputs then inputs[k].values else []) + [vs[k]]) else inputs[k]
  }

  /** Each keyword argument goes, converted, to the end of the input it names. */
  ghost function WireKeywords(reg: Registry, c: Component, inputs: map<string, Args>,
                              kwargs: map<string, Den>): Option<map<string, Args>>
  {
    if forall k {:trigger k in kwargs} :: k in kwargs ==> KeywordFits(reg, c, kwargs, k)
    then Some(WireEach(inputs, KeywordValues(reg, c, kwargs, kwargs.Keys)))
    else None
  }

  /** The input a positional argument goes to: extra ones all go to the last. */
  function SlotAt(names: seq<string>, i: nat): string
    requires names != []
  {
    if i < |names| then names[i] else names[|names| - 1]
  }

  function WirePositional(reg: Registry, c: Component, inputs: map<string, Args>,
                          args: seq<Den>): Option<map<string, Args>>
    requires c.inputs != []
  {
    if args == [] then Some(inputs)
    else
      var before :- WirePositional(reg, c, inputs, args[..|args| - 1]);
      var name := SlotAt(InputNames(c), |args| - 1);
      var d :- Coerce(reg, args[|args| - 1], InputType(c.inputs, name));
      Some(Wire(before, name, ValueOf(d)))
  }

  /** Positional arguments of a component without inputs are ignored. */
  ghost function WireFeed(reg: Registry, c: Component, inputs: map<string, Args>,
                          feed: FeedDen): Option<map<string, Args>>
  {
    var named :- WireKeywords(reg, c, inputs, feed.kwargs);
    if feed.args == [] || c.inputs == [] then Some(named)
    else if |feed.args| > |c.inputs| && !c.inputs[|c.inputs| - 1].allowMultipleConnections then None
    else WirePositional(reg, c, named, feed.args)
  }

  ghost function WireFeeds(reg: Registry, c: Component, inputs: map<string, Args>,
                           feeds: seq<FeedDen>): Option<map<string, Args>>
  {
    if feeds == [] then Some(inputs)
    else
      var before :- WireFeeds(reg, c, inputs, feeds[..|feeds| - 1]);
      WireFeed(reg, c, before, feeds[|feeds| - 1])
  }

  function Configured(kind: string, options: map<string, Meaning>, inputs: map<string, Args>, cfg: Config): Value {
    var scalar := kind in SCALAR_KINDS;
    Apply(kind, options, inputs, if scalar then None else cfg.timeframe, if scalar then None else cfg.session)
  }

  /** A component call inside an expression; slot texts in options stay as they are. */
  ghost function Invoke(reg: Registry, p: Parsed): Option<Den>
    requires p.kind in reg.components
  {
    var c := reg.components[p.kind];
    if |c.outputs| != 1 then None
    else
      var cfg :- reg.configure(p.kind, p.params);
      var inputs :- WireFeeds(reg, c, map[], p.feeds);
      Some(OfInstance(Configured(p.kind, OptionsMeaning(p.kind, cfg.options, map[]), inputs, cfg), c.outputs[0].id))
  }

  // --------------------------------------------------------------------- expressions

  ghost function Denote(reg: Registry, mode: Mode, e: Expr, sc: Scope): Option<Den>
    decreases e, 2
  {
    match e
    case Name(id) => DenoteName(reg, id, sc)
    case Constant(c) => Some(Literal(c))
    case Attribute(base, attr) =>
      if base.Name? then DenoteHandle(reg, base.id, attr, sc)
      else
        var d :- Denote(reg, mode, base, sc);
        Some(d.(handle := attr))
    case Call(_, _, _) =>
      var p :- DenoteParse(reg, mode, e, !e.func.Call?, sc);
      Invoke(reg, p)
    case BinOp(op, l, r) =>
      var a :- Denote(reg, mode, l, sc);
      var b :- Denote(reg, mode, r, sc);
      Binary(reg, BinOpKind(op), a, b, BinOpTracked(BinOpKind(op)))
    case Compare(first, ops, others) =>
      if |ops| != 1 || |others| != 1 || !IsComparison(ops[0]) then None
      else
        var a :- Denote(reg, mode, first, sc);
        var b :- Denote(reg, mode, others[0], sc);
        Binary(reg, BinOpKind(ops[0]), a, b, Some(Boolean))
    case BoolOp(op, values) =>
      if |values| < 2 then None
      else
        var ds :- DenoteAll(reg, mode, e, values, sc);
        var bs :- CoerceAll(reg, ds, Boolean);
        if |bs| < 2 then None
        else Some(Den(Nest(if op == And then "logical_and" else "logical_or", Values(bs)), "result", Some(Boolean)))
    case UnaryOp(op, x) =>
      var d :- Denote(reg, mode, x, sc);
      (match op
       case UAdd => Some(d)
       case USub => Some(Negate(d))
       case Not => LogicalNot(reg, d))
    case IfExp(test, body, orelse) =>
      var c :- Denote(reg, mode, test, sc);
      var t :- Denote(reg, mode, body, sc);
      var f :- Denote(reg, mode, orelse, sc);
      Select(reg, c, t, f)
    case Subscript(value, slice) =>
      var period :- Period(mode, slice);
      var d :- Denote(reg, mode, value, sc);
      Lag(reg, d, period)
    case _ => None
  }

  ghost function DenoteAll(reg: Registry, mode: Mode, whole: Expr, es: seq<Expr>, sc: Scope): Option<seq<Den>>
    requires forall i :: 0 <= i < |es| ==> es[i] < whole
    decreases whole, 0, |es|
  {
    if es == [] then Some([])
    else
      var init :- DenoteAll(reg, mode, whole, es[..|es| - 1], sc);
      var last :- Denote(reg, mode, es[|es| - 1], sc);
      Some(init + [last])
  }

  ghost function DenoteKeywords(reg: Registry, mode: Mode, whole: Expr, ks: seq<Keyword>,
                                sc: Scope): Option<map<string, Den>>
    requires forall i :: 0 <= i < |ks| ==> ks[i].arg < whole
    decreases whole, 0, |ks|
  {
    if ks == [] then Some(map[])
    else
      var before :- DenoteKeywords(reg, mode, whole, ks[..|ks| - 1], sc);
      var last :- Denote(reg, mode, ks[|ks| - 1].arg, sc);
      Some(before[ks[|ks| - 1].key := last])
  }

  /** Constructor and feed steps of a call chain; `single` when the chain is one call. */
  ghost function DenoteParse(reg: Registry, mode: Mode, e: Expr, single: bool, sc: Scope): Option<Parsed>
    requires e.Call?
    ensures DenoteParse(reg, mode, e, single, sc).Some? ==>
              DenoteParse(reg, mode, e, single, sc).value.kind in reg.components
    decreases e, 1
  {
    match e.func
    case Name(kind) =>
      if kind !in reg.components then None
      else
        var params :- Params(reg, kind, e.keywords, sc);
        if e.args == [] then Some(Parsed(kind, params, []))
        else if reg.components[kind].options != {} || !single then None
        else
          var args :- DenoteAll(reg, mode, e, e.args, sc);
          Some(Parsed(kind, params, [FeedDen(args, map[])]))
    case Call(_, _, _) =>
      var inner :- DenoteParse(reg, mode, e.func, false, sc);
      var args :- DenoteAll(reg, mode, e, e.args, sc);
      var kwargs :- DenoteKeywords(reg, mode, e, e.keywords, sc);
      Some(inner.(feeds := inner.feeds + [FeedDen(args, kwargs)]))
    case _ => None
  }
}
