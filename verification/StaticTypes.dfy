/** Which expressions are accepted and what type they have, said on the expressions alone. */
module StaticTypes {
  import opened Wrappers
  import opened Graph
  import opened Ast
  import opened Registry
  import opened ConstantFolder
  import opened Denotation

  // --------------------------------------------------------------------- types and ports

  /** Component, handle and recorded type of what an expression stands for. */
  datatype Shape = Shape(kind: string, handle: string, tracked: Option<DataType>)

  /** The first output of this name. */
  predicate FirstPort(c: Component, handle: string, i: nat) {
    i < |c.outputs| && c.outputs[i].id == handle && forall j :: 0 <= j < i ==> c.outputs[j].id != handle
  }

  /** The last input of this name. */
  predicate LastInput(c: Component, name: string, i: nat) {
    && i < |c.inputs| && SlotName(c.inputs[i].id) == name
    && forall j :: i < j < |c.inputs| ==> SlotName(c.inputs[j].id) != name
  }

  /** Timestamps are typed like anything. */
  function Loosely(t: DataType): DataType { if t.Timestamp? then Any else t }

  ghost function PortType(c: Component, handle: string): Option<DataType> {
    if i: nat :| FirstPort(c, handle, i) then Some(Loosely(c.outputs[i].dataType)) else None
  }

  ghost function Wanted(c: Component, name: string): DataType {
    if i: nat :| LastInput(c, name, i) then Loosely(c.inputs[i].dataType) else Any
  }

  /** The recorded type, the declared one, or the one the component is known for. */
  ghost function ShapeType(reg: Registry, s: Shape): DataType {
    if s.handle == "result" && s.tracked.Some? then s.tracked.value
    else if s.kind in reg.components && PortType(reg.components[s.kind], s.handle).Some?
    then PortType(reg.components[s.kind], s.handle).value
    else if s.kind in {"lt", "gt", "lte", "gte", "eq", "neq", "logical_and", "logical_or", "logical_not",
                       "bool_true", "bool_false"}
    then Boolean
    else if s.kind in {"add", "sub", "mul", "div", "number"} then Decimal
    else if s.kind == "text" then StringType
    else Any
  }

  /** A value of the first type may be wired to an input of the second, converted if need be. */
  predicate Fits(source: DataType, target: DataType) {
    match (source, target)
    case (Any, _) => true
    case (_, Any) => true
    case (Timestamp, _) => target.Timestamp?
    case (StringType, _) => target.StringType?
    case (Boolean, _) => !target.Timestamp?
    case (_, _) => !target.Timestamp? && !target.StringType?
  }

  /** The component behind an operator. */
  function OperatorName(op: BinOpType): string {
    match op
    case Add => "add" case Sub => "sub" case Mult => "mul" case Div => "div" case Mod => "modulo" case Pow => "power_op"
    case Lt => "lt" case Gt => "gt" case LtE => "lte" case GtE => "gte" case Eq => "eq" case NotEq => "neq"
    case And => "logical_and" case Or => "logical_or"
  }

  // ------------------------------------------------------------------------- expressions

  /** The slice is a whole number other than zero. */
  predicate Sliced(mode: Mode, slice: Expr) {
    match mode
    case Presumed => true
    case Folded =>
      (match slice
       case Constant(IntC(k)) => k != 0
       case UnaryOp(USub, Constant(IntC(k))) => k != 0
       case _ => false)
    case Source(math, constants) =>
      && IsConstantExpression(slice, constants)
      && (match EvaluateConstant(math, slice, constants)
          case Some(IntC(k)) => k != 0
          case _ => false)
  }

  function ConstantShape(c: Const): Shape {
    match c
    case IntC(_) => Shape("number", "result", Some(Decimal))
    case DoubleC(_) => Shape("number", "result", Some(Decimal))
    case StrC(_) => Shape("text", "result", Some(StringType))
    case BoolC(b) => Shape(if b then "bool_true" else "bool_false", "result", Some(Boolean))
    case NoneC => Shape("null_number", "result", Some(NumberType))
  }

  function Kind(v: Value): string { if v.Apply? then v.kind else "" }

  /** A variable: an expression's value, or an instance with one output. */
  function VariableShape(reg: Registry, sc: Scope, id: string): Option<Shape> {
    if id == "true" || id == "false" then Some(ConstantShape(BoolC(id == "true")))
    else if id !in sc then None
    else
      match sc[id]
      case Handle(d) => Some(Shape(Kind(d.node), d.handle, d.tracked))
      case Instance(node) =>
        if Kind(node) in {"number", "bool_true", "bool_false", "text", "null"}
        then Some(Shape(Kind(node), "result", None))
        else if Kind(node) in reg.components && |reg.components[Kind(node)].outputs| == 1
        then Some(Shape(Kind(node), reg.components[Kind(node)].outputs[0].id, None))
        else None
  }

  /** A handle of an instance: one of its outputs or inputs. */
  ghost predicate HasHandle(c: Component, handle: string) {
    || (exists i :: 0 <= i < |c.outputs| && c.outputs[i].id == handle)
    || (exists i :: 0 <= i < |c.inputs| && SlotName(c.inputs[i].id) == handle)
  }

  ghost function MemberShape(reg: Registry, sc: Scope, id: string, handle: string): Option<Shape> {
    if id in sc && sc[id].Instance? && Kind(sc[id].node) in reg.components
       && HasHandle(reg.components[Kind(sc[id].node)], handle)
    then Some(Shape(Kind(sc[id].node), handle, None)) else None
  }

  /** The output an operator's value is read from. */
  function ValuePort(c: Component): string { if c.outputs == [] then "result" else c.outputs[0].id }

  function ResultType(op: BinOpType): Option<DataType> {
    match op
    case Add => Some(Decimal) case Sub => Some(Decimal) case Mult => Some(Decimal) case Div => Some(Decimal)
    case Mod => None case Pow => None
    case _ => Some(Boolean)
  }

  /** The component that chooses between values of two types. */
  function ChoiceName(a: DataType, b: DataType): string {
    match (a, b)
    case (StringType, _) => "boolean_select_string"
    case (_, StringType) => "boolean_select_string"
    case (Timestamp, _) => "boolean_select_timestamp"
    case (_, Timestamp) => "boolean_select_timestamp"
    case (Boolean, Boolean) => "boolean_select_boolean"
    case (_, _) => "boolean_select_number"
  }

  function DelayName(t: DataType): string {
    if t.StringType? then "lag_string"
    else if t.Boolean? then "lag_boolean"
    else if t.Timestamp? then "lag_timestamp"
    else "lag_number"
  }

  /** The component a call chain constructs, and its keywords. */
  function Callee(e: Expr): Option<(string, seq<Keyword>)> {
    if !e.Call? then None
    else if e.func.Name? then Some((e.func.id, e.keywords))
    else Callee(e.func)
  }

  ghost predicate Suits(reg: Registry, s: Option<Shape>, target: DataType) {
    s.Some? && Fits(ShapeType(reg, s.value), target)
  }

  /** An operator's value, when both operands suit its two inputs. */
  ghost function Pair(reg: Registry, op: BinOpType, a: Option<Shape>, b: Option<Shape>): Option<Shape> {
    var kind := OperatorName(op);
    if kind !in reg.components || |reg.components[kind].inputs| != 2 then None
    else
      var c := reg.components[kind];
      if Suits(reg, a, Wanted(c, SlotName(c.inputs[0].id))) && Suits(reg, b, Wanted(c, SlotName(c.inputs[1].id)))
      then Some(Shape(kind, ValuePort(c), ResultType(op))) else None
  }

  /** The input an argument goes to: the last one takes the surplus. */
  function PlaceOf(c: Component, i: nat): string
    requires c.inputs != []
  {
    SlotName(c.inputs[if i < |c.inputs| then i else |c.inputs| - 1].id)
  }

  /** Arguments in order, surplus ones only when the last input may have several. */
  ghost predicate TakesArgs(reg: Registry, c: Component, ss: seq<Option<Shape>>) {
    if ss == [] || c.inputs == [] then forall i :: 0 <= i < |ss| ==> ss[i].Some?
    else
      && (|ss| <= |c.inputs| || c.inputs[|c.inputs| - 1].allowMultipleConnections)
      && forall i :: 0 <= i < |ss| ==> Suits(reg, ss[i], Wanted(c, PlaceOf(c, i)))
  }

  predicate HasInput(c: Component, name: string) { exists i :: 0 <= i < |c.inputs| && SlotName(c.inputs[i].id) == name }

  /** No later keyword has the same name. */
  predicate LastKey(ks: seq<Keyword>, i: nat)
    requires i < |ks|
  {
    forall j :: i < j < |ks| ==> ks[j].key != ks[i].key
  }

  /** The last keyword of each name must name an input that it suits. */
  ghost predicate TakesKeys(reg: Registry, c: Component, ks: seq<Keyword>, ss: seq<Option<Shape>>)
    requires |ks| == |ss|
  {
    forall i :: 0 <= i < |ks| ==>
      && ss[i].Some?
      && (LastKey(ks, i) ==> HasInput(c, ks[i].key) && Suits(reg, ss[i], Wanted(c, ks[i].key)))
  }

  /** What a constructor keyword sets its option to. */
  ghost predicate Sets(reg: Registry, sc: Scope, c: Component, k: Keyword, o: OptionValue) {
    if k.key == "timeframe" || k.key == "session" then
      (match k.arg
       case Constant(StrC(s)) => o == Text(s)
       case Name(id) => o == Text(id)
       case _ => false)
    else
      && k.key in c.options
      && (match k.arg
          case Call(_, _, _) => reg.literalCall(k.arg) == Some(o)
          case Constant(IntC(i)) => o == Number(i as real)
          case Constant(DoubleC(d)) => o == Number(d)
          case Constant(BoolC(b)) => o == Flag(b)
          case Constant(StrC(s)) => o == Text(s)
          case Constant(NoneC) => o == Text("")
          case Name(id) => if id in sc && sc[id].Handle? then IsLiteral(sc[id].den.node, o) else o == Text(id)
          case _ => false)
  }

  ghost predicate Settable(reg: Registry, sc: Scope, c: Component, k: Keyword) { exists o :: Sets(reg, sc, c, k, o) }

  /** The literal a variable holds. */
  predicate IsLiteral(node: Value, o: OptionValue) {
    && node.Apply?
    && (match node.kind
        case "number" => o.Number? && "value" in node.options && node.options["value"] == Raw(o)
        case "bool_true" => o == Flag(true)
        case "bool_false" => o == Flag(false)
        case _ => false)
  }

  /** A chosen value, by the types of the branches. */
  ghost function Choice(reg: Registry, test: Option<Shape>, a: Option<Shape>, b: Option<Shape>): Option<Shape> {
    if test.None? || a.None? || b.None? then None
    else
      var kind := ChoiceName(ShapeType(reg, a.value), ShapeType(reg, b.value));
      if kind !in reg.components then None else Some(Shape(kind, ValuePort(reg.components[kind]), None))
  }

  ghost function Delayed(reg: Registry, s: Option<Shape>): Option<Shape> {
    if s.None? then None
    else
      var t := ShapeType(reg, s.value);
      if DelayName(t) !in reg.components then None else Some(Shape(DelayName(t), "result", Some(t)))
  }

  function Unary(reg: Registry, op: UnaryOpType, s: Option<Shape>): Option<Shape> {
    if s.None? then None
    else
      match op
      case UAdd => s
      case USub => Some(Shape("mul", "result", Some(Decimal)))
      case Not =>
        if "logical_not" !in reg.components then None
        else Some(Shape("logical_not", ValuePort(reg.components["logical_not"]), Some(Boolean)))
  }

  /** The value of a component with one output, once its options and what it is fed are right. */
  ghost function Called(reg: Registry, sc: Scope, kind: string, ks: seq<Keyword>, fed: bool): Option<Shape> {
    if kind !in reg.components || |reg.components[kind].outputs| != 1 || !fed then None
    else if Params(reg, kind, ks, sc).None? || reg.configure(kind, Params(reg, kind, ks, sc).value).None? then None
    else Some(Shape(kind, reg.components[kind].outputs[0].id, None))
  }

  /** What an expression stands for, when it is accepted. */
  ghost function Checked(reg: Registry, mode: Mode, sc: Scope, e: Expr): Option<Shape>
    decreases e, 2
  {
    match e
    case Name(id) => VariableShape(reg, sc, id)
    case Constant(c) => Some(ConstantShape(c))
    case Attribute(base, attr) =>
      if base.Name? then MemberShape(reg, sc, base.id, attr)
      else
        var s :- Checked(reg, mode, sc, base);
        Some(s.(handle := attr))
    case Call(func, _, _) =>
      var callee :- Callee(e);
      Called(reg, sc, callee.0, callee.1, Feeds(reg, mode, sc, e, !func.Call?))
    case BinOp(op, l, r) => Pair(reg, op, Checked(reg, mode, sc, l), Checked(reg, mode, sc, r))
    case Compare(first, ops, others) =>
      if |ops| != 1 || |others| != 1 || ops[0] !in {Lt, Gt, LtE, GtE, Eq, NotEq} then None
      else Pair(reg, ops[0], Checked(reg, mode, sc, first), Checked(reg, mode, sc, others[0]))
    case BoolOp(op, values) =>
      var ss := CheckedAll(reg, mode, sc, e, values);
      if |ss| < 2 || exists i :: 0 <= i < |ss| && !Suits(reg, ss[i], Boolean) then None
      else Some(Shape(if op == And then "logical_and" else "logical_or", "result", Some(Boolean)))
    case UnaryOp(op, x) => Unary(reg, op, Checked(reg, mode, sc, x))
    case IfExp(test, body, orelse) =>
      Choice(reg, Checked(reg, mode, sc, test), Checked(reg, mode, sc, body), Checked(reg, mode, sc, orelse))
    case Subscript(value, slice) => if Sliced(mode, slice) then Delayed(reg, Checked(reg, mode, sc, value)) else None
    case _ => None
  }

  ghost function CheckedAll(reg: Registry, mode: Mode, sc: Scope, whole: Expr, es: seq<Expr>): seq<Option<Shape>>
    requires forall i :: 0 <= i < |es| ==> es[i] < whole
    decreases whole, 0
  {
    seq(|es|, i requires 0 <= i < |es| => Checked(reg, mode, sc, es[i]))
  }

  ghost function CheckedKeys(reg: Registry, mode: Mode, sc: Scope, whole: Expr, ks: seq<Keyword>): seq<Option<Shape>>
    requires forall i :: 0 <= i < |ks| ==> ks[i].arg < whole
    decreases whole, 0
  {
    seq(|ks|, i requires 0 <= i < |ks| => Checked(reg, mode, sc, ks[i].arg))
  }

  /** A call chain that feeds its component; `single` when nothing is fed after the first call. */
  ghost predicate Feeds(reg: Registry, mode: Mode, sc: Scope, e: Expr, single: bool)
    requires e.Call?
    decreases e, 1
  {
    && Callee(e).Some? && Callee(e).value.0 in reg.components
    && var c := reg.components[Callee(e).value.0];
    if e.func.Name? then
      e.args == [] || (c.options == {} && single && TakesArgs(reg, c, CheckedAll(reg, mode, sc, e, e.args)))
    else
      && e.func.Call? && Feeds(reg, mode, sc, e.func, false)
      && TakesArgs(reg, c, CheckedAll(reg, mode, sc, e, e.args))
      && TakesKeys(reg, c, e.keywords, CheckedKeys(reg, mode, sc, e, e.keywords))
  }
}
