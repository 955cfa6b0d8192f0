/**
 What expressions compute, moment by moment.  Terms are read by the names of their components, and
 expressions directly, by their operators; an accepted expression means the same either way.
 */
module Evaluation {
  import opened Wrappers
  import opened Graph
  import opened Ast
  import opened Registry
  import opened ConstantFolder
  import opened Denotation
  import opened StaticTypes

  // ---------------------------------------------------------------------- data over time

  datatype Datum = Num(number: real) | Bit(bit: bool) | Str(text: string) | Nil

  type Series = imap<int, Datum>

  ghost function At(s: Series, t: int): Datum { if t in s then s[t] else Nil }

  predicate Moment(t: int) { true }

  ghost function Always(d: Datum): Series { imap t: int | Moment(t) :: d }

  /**
   What the operators leave open: components other than operators, texts that refer to nothing, and
   data of the wrong type.
   */
  datatype Host = Host(
    component: (string, map<string, Meaning>, map<string, seq<Series>>, Option<string>, Option<Session>, string)
      -> Series,
    reference: string -> Series,
    asNumber: Datum -> real,
    asBit: Datum -> bool,
    asText: bool -> string,
    overZero: real -> real,
    math: Math)

  ghost function Amount(host: Host, d: Datum): real { if d.Num? then d.number else host.asNumber(d) }

  ghost function Holds(host: Host, d: Datum): bool { if d.Bit? then d.bit else host.asBit(d) }

  ghost function Over(host: Host, x: real, y: real): real { if y == 0.0 then host.overZero(x) else x / y }

  // ------------------------------------------------------------------ reading of components

  /** The only series wired to an input. */
  ghost function Wired(ins: map<string, seq<Series>>, name: string): Series {
    if name in ins && ins[name] != [] then ins[name][0] else Always(Nil)
  }

  /** Names of the two inputs of an operator, in order of declaration. */
  function OperandNames(reg: Registry, kind: string): (string, string) {
    if kind in reg.components && |reg.components[kind].inputs| == 2 then
      (SlotName(reg.components[kind].inputs[0].id), SlotName(reg.components[kind].inputs[1].id))
    else ("SLOT0", "SLOT1")
  }

  /** What the two-place operators do at one moment, by name. */
  ghost function Combined(host: Host, kind: string, x: Datum, y: Datum): Datum {
    var a, b := Amount(host, x), Amount(host, y);
    match kind
    case "add" => Num(a + b)
    case "sub" => Num(a - b)
    case "mul" => Num(a * b)
    case "div" => Num(Over(host, a, b))
    case "modulo" => Num(host.math.fmod(a, b))
    case "power_op" => Num(host.math.pow(a, b))
    case "lt" => Bit(a < b)
    case "gt" => Bit(a > b)
    case "lte" => Bit(a <= b)
    case "gte" => Bit(a >= b)
    case "eq" => Bit(x == y)
    case "neq" => Bit(x != y)
    case "logical_and" => Bit(Holds(host, x) && Holds(host, y))
    case "logical_or" => Bit(Holds(host, x) || Holds(host, y))
    case _ => Nil
  }

  const TWO_PLACE := {
    "add", "sub", "mul", "div", "modulo", "power_op", "lt", "gt", "lte", "gte", "eq", "neq", "logical_and",
    "logical_or"
  }
  const SELECTS := {
    "boolean_select_string", "boolean_select_timestamp", "boolean_select_boolean", "boolean_select_number"
  }
  const LAGS := {"lag_string", "lag_boolean", "lag_timestamp", "lag_number"}

  ghost function ToNumber(d: Datum): Datum { if d.Bit? then Num(if d.bit then 1.0 else 0.0) else d }

  ghost function ToBit(d: Datum): Datum { if d.Num? then Bit(d.number != 0.0) else d }

  ghost function ToText(host: Host, d: Datum): Datum { if d.Bit? then Str(host.asText(d.bit)) else d }

  ghost function AsNumbers(s: Series): Series { imap t: int | Moment(t) :: ToNumber(At(s, t)) }

  ghost function AsBits(s: Series): Series { imap t: int | Moment(t) :: ToBit(At(s, t)) }

  ghost function AsTexts(host: Host, s: Series): Series { imap t: int | Moment(t) :: ToText(host, At(s, t)) }

  function NumberAt(options: map<string, Meaning>, key: string): real {
    if key in options && options[key].Raw? && options[key].raw.Number? then options[key].raw.number else 0.0
  }

  function TextAt(options: map<string, Meaning>, key: string): string {
    if key in options && options[key].Raw? && options[key].raw.Text? then options[key].raw.text else ""
  }

  /** What a component makes of its options and of the series wired to its inputs. */
  ghost function Operated(reg: Registry, host: Host, kind: string, options: map<string, Meaning>,
                          ins: map<string, seq<Series>>, timeframe: Option<string>, session: Option<Session>,
                          port: string): Series
  {
    if kind == "number" then Always(Num(NumberAt(options, "value")))
    else if kind == "text" then Always(Str(TextAt(options, "value")))
    else if kind == "bool_true" then Always(Bit(true))
    else if kind == "bool_false" then Always(Bit(false))
    else if kind == "null_number" then Always(Nil)
    else if kind in TWO_PLACE then
      (var (left, right) := OperandNames(reg, kind);
       imap t: int | Moment(t) :: Combined(host, kind, At(Wired(ins, left), t), At(Wired(ins, right), t)))
    else if kind == "logical_not" then imap t: int | Moment(t) :: Bit(!Holds(host, At(Wired(ins, "SLOT"), t)))
    else if kind in SELECTS then
      imap t: int | Moment(t) ::
        At(if Holds(host, At(Wired(ins, "condition"), t)) then Wired(ins, "true") else Wired(ins, "false"), t)
    else if kind in LAGS then imap t: int | Moment(t) :: At(Wired(ins, "SLOT"), t - NumberAt(options, "period").Floor)
    else if kind == "static_cast_to_integer" || kind == "static_cast_to_decimal" then AsNumbers(Wired(ins, "SLOT"))
    else if kind == "static_cast_to_boolean" then AsBits(Wired(ins, "SLOT"))
    else if kind == "stringify" then AsTexts(host, Wired(ins, "SLOT"))
    else host.component(kind, options, ins, timeframe, session, port)
  }

  /** The series a term stands for, read at one of its ports when it is a node. */
  ghost function Signal(reg: Registry, host: Host, v: Value, port: string): Series
    decreases v
  {
    match v
    case Apply(kind, options, inputs, timeframe, session) =>
      Operated(reg, host, kind, options, map k | k in inputs :: Signals(reg, host, inputs[k]), timeframe, session, port)
    case Output(node, own) => Signal(reg, host, node, own)
    case External(ref) => host.reference(ref)
  }

  ghost function Signals(reg: Registry, host: Host, a: Args): seq<Series>
    decreases a
  {
    seq(|a.values|, i requires 0 <= i < |a.values| => Signal(reg, host, a.values[i], ""))
  }

  // ------------------------------------------------------------------ direct evaluation

  /** A value of this static type on its way into an input of that type. */
  ghost function Fitted(host: Host, source: DataType, target: DataType, s: Series): Series {
    match (source, target)
    case (Boolean, Integer) => AsNumbers(s)
    case (Boolean, Decimal) => AsNumbers(s)
    case (Boolean, NumberType) => AsNumbers(s)
    case (Integer, Boolean) => AsBits(s)
    case (Decimal, Boolean) => AsBits(s)
    case (NumberType, Boolean) => AsBits(s)
    case (Boolean, StringType) => AsTexts(host, s)
    case _ => s
  }

  /** What an operator of the language does at one moment. */
  ghost function Computed(host: Host, op: BinOpType, x: Datum, y: Datum): Datum {
    var a, b := Amount(host, x), Amount(host, y);
    match op
    case Add => Num(a + b)
    case Sub => Num(a - b)
    case Mult => Num(a * b)
    case Div => Num(Over(host, a, b))
    case Mod => Num(host.math.fmod(a, b))
    case Pow => Num(host.math.pow(a, b))
    case Lt => Bit(a < b)
    case Gt => Bit(a > b)
    case LtE => Bit(a <= b)
    case GtE => Bit(a >= b)
    case Eq => Bit(x == y)
    case NotEq => Bit(x != y)
    case And => Bit(Holds(host, x) && Holds(host, y))
    case Or => Bit(Holds(host, x) || Holds(host, y))
  }

  ghost function Constantly(c: Const): Datum {
    match c
    case IntC(i) => Num(i as real)
    case DoubleC(d) => Num(d)
    case StrC(s) => Str(s)
    case BoolC(b) => Bit(b)
    case NoneC => Nil
  }

  /** How far back a slice reaches. */
  function Reach(mode: Mode, slice: Expr): int {
    match mode
    case Source(math, constants) =>
      (match EvaluateConstant(math, slice, constants)
       case Some(IntC(k)) => k
       case _ => 0)
    case _ =>
      match slice
      case Constant(IntC(k)) => k
      case UnaryOp(USub, Constant(IntC(k))) => -k
      case _ => 0
  }

  /** The handle asked for, or else the one a variable stands for. */
  function DefaultPort(reg: Registry, entry: Entry): string {
    match entry
    case Handle(d) => d.handle
    case Instance(node) =>
      var kind := KindOf(node);
      if kind !in {"number", "bool_true", "bool_false", "text", "null"} && kind in reg.components
         && |reg.components[kind].outputs| == 1
      then reg.components[kind].outputs[0].id else "result"
  }

  function NodeBehind(entry: Entry): Value { if entry.Handle? then entry.den.node else entry.node }

  ghost function Variable(reg: Registry, host: Host, sc: Scope, id: string, port: Option<string>): Series {
    if id == "true" then Always(Bit(true))
    else if id == "false" then Always(Bit(false))
    else Member(reg, host, sc, id, port)
  }

  ghost function Member(reg: Registry, host: Host, sc: Scope, id: string, port: Option<string>): Series {
    if id !in sc then Always(Nil)
    else Signal(reg, host, NodeBehind(sc[id]), "#" + (if port.Some? then port.value else DefaultPort(reg, sc[id])))
  }

  /** A series with the static type of the expression that computes it. */
  datatype Typed = Typed(dataType: DataType, series: Series)

  datatype Fed = Fed(args: seq<Typed>, kwargs: map<string, Typed>)

  ghost function FittedTo(host: Host, target: DataType, s: Typed): Series { Fitted(host, s.dataType, target, s.series) }

  /** The input a positional argument is for: surplus ones are for the last. */
  function InputFor(c: Component, i: nat): Input
    requires c.inputs != []
  {
    c.inputs[if i < |c.inputs| then i else |c.inputs| - 1]
  }

  /** The positional arguments for the input of this name, in order. */
  ghost function Positioned(host: Host, c: Component, args: seq<Typed>, name: string): seq<Series> {
    if args == [] || c.inputs == [] then []
    else
      var n := |args| - 1;
      Positioned(host, c, args[..n], name)
      + (if SlotName(InputFor(c, n).id) == name then [FittedTo(host, InputFor(c, n).dataType, args[n])] else [])
  }

  /** The keyword argument of this name. */
  ghost function Keyed(host: Host, c: Component, kwargs: map<string, Typed>, name: string): seq<Series> {
    if i :| 0 <= i < |c.inputs| && SlotName(c.inputs[i].id) == name && name in kwargs
    then [FittedTo(host, c.inputs[i].dataType, kwargs[name])] else []
  }

  /** All that is wired to the input of this name, call step by call step. */
  ghost function Column(host: Host, c: Component, feeds: seq<Fed>, name: string): seq<Series> {
    if feeds == [] then []
    else
      var last := feeds[|feeds| - 1];
      Column(host, c, feeds[..|feeds| - 1], name)
      + Keyed(host, c, last.kwargs, name) + Positioned(host, c, last.args, name)
  }

  function NamesOf(c: Component): set<string> { set i | 0 <= i < |c.inputs| :: SlotName(c.inputs[i].id) }

  ghost function Columns(host: Host, c: Component, feeds: seq<Fed>): map<string, seq<Series>> {
    map name | name in NamesOf(c) && Column(host, c, feeds, name) != [] :: Column(host, c, feeds, name)
  }

  /** The type an expression checks with. */
  ghost function StaticType(reg: Registry, mode: Mode, sc: Scope, e: Expr): DataType {
    match Checked(reg, mode, sc, e)
    case Some(s) => ShapeType(reg, s)
    case None => Any
  }

  ghost function Operand(reg: Registry, host: Host, mode: Mode, sc: Scope, e: Expr): Typed
    decreases e, 4
  {
    Typed(StaticType(reg, mode, sc, e), Direct(reg, host, mode, sc, e, None))
  }

  /** The type that the k-th input of an operator declares. */
  function OperandType(reg: Registry, op: BinOpType, k: nat): DataType {
    if OperatorName(op) in reg.components && k < |reg.components[OperatorName(op)].inputs|
    then reg.components[OperatorName(op)].inputs[k].dataType else Any
  }

  ghost function Pairwise(reg: Registry, host: Host, op: BinOpType, l: Typed, r: Typed): Series {
    var x, y := FittedTo(host, OperandType(reg, op, 0), l), FittedTo(host, OperandType(reg, op, 1), r);
    imap t: int | Moment(t) :: Computed(host, op, At(x, t), At(y, t))
  }

  ghost predicate AllHold(host: Host, ss: seq<Typed>, t: int) {
    forall i :: 0 <= i < |ss| ==> Holds(host, At(FittedTo(host, Boolean, ss[i]), t))
  }

  ghost predicate SomeHold(host: Host, ss: seq<Typed>, t: int) {
    exists i :: 0 <= i < |ss| && Holds(host, At(FittedTo(host, Boolean, ss[i]), t))
  }

  /** The series an expression computes, at the handle asked for. */
  ghost function Direct(reg: Registry, host: Host, mode: Mode, sc: Scope, e: Expr, port: Option<string>): Series
    decreases e, 3
  {
    match e
    case Name(id) => Variable(reg, host, sc, id, port)
    case Constant(c) => Always(Constantly(c))
    case Attribute(base, attr) =>
      var asked := if port.Some? then port else Some(attr);
      if base.Name? then Member(reg, host, sc, base.id, asked) else Direct(reg, host, mode, sc, base, asked)
    case Call(_, _, _) => Invoked(reg, host, sc, e, DirectFeeds(reg, host, mode, sc, e), port)
    case BinOp(op, l, r) =>
      Pairwise(reg, host, op, Operand(reg, host, mode, sc, l), Operand(reg, host, mode, sc, r))
    case Compare(first, ops, others) =>
      if |ops| == 1 && |others| == 1 then
        Pairwise(reg, host, ops[0], Operand(reg, host, mode, sc, first), Operand(reg, host, mode, sc, others[0]))
      else Always(Nil)
    case BoolOp(op, values) =>
      var ss := DirectAll(reg, host, mode, sc, e, values);
      imap t: int | Moment(t) :: Bit(if op == And then AllHold(host, ss, t) else SomeHold(host, ss, t))
    case UnaryOp(op, x) =>
      (match op
       case UAdd => Direct(reg, host, mode, sc, x, port)
       case USub =>
         var s := Direct(reg, host, mode, sc, x, None);
         imap t: int | Moment(t) :: Num(-Amount(host, At(s, t)))
       case Not =>
         var s := Direct(reg, host, mode, sc, x, None);
         imap t: int | Moment(t) :: Bit(!Holds(host, At(s, t))))
    case IfExp(test, body, orelse) =>
      var c := Direct(reg, host, mode, sc, test, None);
      var a, b := Direct(reg, host, mode, sc, body, None), Direct(reg, host, mode, sc, orelse, None);
      imap t: int | Moment(t) :: if Holds(host, At(c, t)) then At(a, t) else At(b, t)
    case Subscript(value, slice) =>
      var s := Direct(reg, host, mode, sc, value, None);
      imap t: int | Moment(t) :: At(s, t - Reach(mode, slice))
    case _ => Always(Nil)
  }

  ghost function DirectAll(reg: Registry, host: Host, mode: Mode, sc: Scope, whole: Expr, es: seq<Expr>): seq<Typed>
    requires forall i :: 0 <= i < |es| ==> es[i] < whole
    decreases whole, 0, |es|
  {
    if es == [] then []
    else
      var n := |es| - 1;
      DirectAll(reg, host, mode, sc, whole, es[..n]) + [Operand(reg, host, mode, sc, es[n])]
  }

  ghost function DirectKeywords(reg: Registry, host: Host, mode: Mode, sc: Scope, whole: Expr,
                                ks: seq<Keyword>): map<string, Typed>
    requires forall i :: 0 <= i < |ks| ==> ks[i].arg < whole
    decreases whole, 0, |ks|
  {
    if ks == [] then map[]
    else
      var n := |ks| - 1;
      DirectKeywords(reg, host, mode, sc, whole, ks[..n])[ks[n].key := Operand(reg, host, mode, sc, ks[n].arg)]
  }

  ghost function DirectFeeds(reg: Registry, host: Host, mode: Mode, sc: Scope, e: Expr): seq<Fed>
    requires e.Call?
    decreases e, 2
  {
    match e.func
    case Name(_) => if e.args == [] then [] else [Fed(DirectAll(reg, host, mode, sc, e, e.args), map[])]
    case Call(_, _, _) =>
      DirectFeeds(reg, host, mode, sc, e.func)
      + [Fed(DirectAll(reg, host, mode, sc, e, e.args), DirectKeywords(reg, host, mode, sc, e, e.keywords))]
    case _ => []
  }

  /** A call: the component named, on its options and on what is fed to it. */
  ghost function Invoked(reg: Registry, host: Host, sc: Scope, e: Expr, feeds: seq<Fed>, port: Option<string>): Series {
    match Callee(e)
    case None => Always(Nil)
    case Some((kind, ks)) =>
      if kind !in reg.components || reg.components[kind].outputs == [] then Always(Nil)
      else
        var c, params := reg.components[kind], Params(reg, kind, ks, sc);
        if params.None? || reg.configure(kind, params.value).None? then Always(Nil)
        else
          var cfg := reg.configure(kind, params.value).value;
          Operated(reg, host, kind, OptionsMeaning(kind, cfg.options, map[]), Columns(host, c, feeds), cfg.timeframe,
                   cfg.session, "#" + (if port.Some? then port.value else c.outputs[0].id))
  }
}
