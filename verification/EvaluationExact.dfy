/** The term an accepted expression denotes computes what the expression computes. */
module EvaluationExact {
  import opened Wrappers
  import opened Graph
  import opened Ast
  import opened Registry
  import opened ConstantFolder
  import opened Denotation
  import opened Evaluation
  import opened StaticTypes
  import StaticTypesExact

  /**
   Inputs of a component have different names, and the operators that are wired by fixed names
   declare those.
   */
  predicate StandardOperators(reg: Registry) {
    && (forall kind, i, j :: kind in reg.components && 0 <= i < j < |reg.components[kind].inputs| ==>
          SlotName(reg.components[kind].inputs[i].id) != SlotName(reg.components[kind].inputs[j].id))
    && (forall kind :: kind in {"mul", "logical_and", "logical_or"} ==> OperandNames(reg, kind) == ("SLOT0", "SLOT1"))
  }

  // ------------------------------------------------------------------- terms of one node

  ghost function SignalMap(reg: Registry, host: Host, inputs: map<string, Args>): map<string, seq<Series>> {
    map k | k in inputs :: Signals(reg, host, inputs[k])
  }

  lemma BuiltSignal(reg: Registry, host: Host, kind: string, inputs: map<string, Args>, port: string)
    ensures Signal(reg, host, Built(kind, inputs), port) ==
              Operated(reg, host, kind, map[], SignalMap(reg, host, inputs), None, None, port)
  {
    hide Operated;
    var v := Built(kind, inputs);
    assert (map k | k in v.inputs :: Signals(reg, host, v.inputs[k])) == SignalMap(reg, host, inputs);
  }

  lemma OneSignal(reg: Registry, host: Host, inputs: map<string, Args>, name: string, v: Value)
    requires name in inputs && inputs[name] == Args([v])
    ensures Wired(SignalMap(reg, host, inputs), name) == Signal(reg, host, v, "")
  {
    assert Signals(reg, host, Args([v]))[0] == Signal(reg, host, v, "");
  }

  lemma OutputSignal(reg: Registry, host: Host, d: Den)
    ensures Signal(reg, host, ValueOf(d), "") == Signal(reg, host, d.node, "#" + d.handle)
  {
  }

  lemma CastsAreNoOperators(kind: string)
    requires kind in {"static_cast_to_integer", "static_cast_to_decimal", "static_cast_to_boolean", "stringify"}
    ensures kind !in {"number", "text", "bool_true", "bool_false", "null_number", "logical_not"}
    ensures kind !in TWO_PLACE && kind !in SELECTS && kind !in LAGS
  {
    assert kind[0] == 's' && kind[1] == 't' && |kind| > 3;
    assert "sub"[1] != 't';
  }

  lemma CoerceSignal(reg: Registry, host: Host, d: Den, target: DataType)
    requires Coerce(reg, d, target).Some?
    ensures Signal(reg, host, ValueOf(Coerce(reg, d, target).value), "") ==
              Fitted(host, TypeOf(reg, d), target, Signal(reg, host, ValueOf(d), ""))
  {
    hide Signal, TypeOf;
    var source, s := TypeOf(reg, d), Signal(reg, host, ValueOf(d), "");
    if !Compatible(source, target) {
      var kind := CastKind(source, target).value;
      var inputs := map["SLOT" := Args([ValueOf(d)])];
      assert "#" + "result" == "#result";
      OutputSignal(reg, host, Coerce(reg, d, target).value);
      BuiltSignal(reg, host, kind, inputs, "#result");
      OneSignal(reg, host, inputs, "SLOT", ValueOf(d));
      CastSignal(reg, host, kind, SignalMap(reg, host, inputs), "#result");
    }
  }

  lemma CastSignal(reg: Registry, host: Host, kind: string, ins: map<string, seq<Series>>, port: string)
    requires kind in {"static_cast_to_integer", "static_cast_to_decimal", "static_cast_to_boolean", "stringify"}
    ensures var s := Wired(ins, "SLOT");
            Operated(reg, host, kind, map[], ins, None, None, port) ==
              if kind == "static_cast_to_boolean" then AsBits(s)
              else if kind == "stringify" then AsTexts(host, s)
              else AsNumbers(s)
  {
    CastsAreNoOperators(kind);
  }

  // ------------------------------------------------------------------ two-place operators

  lemma {:induction false} InputTypeIs(inputs: seq<Input>, k: nat)
    requires k < |inputs|
    requires forall i, j :: 0 <= i < j < |inputs| ==> SlotName(inputs[i].id) != SlotName(inputs[j].id)
    ensures InputType(inputs, SlotName(inputs[k].id)) == Declared(inputs[k].dataType)
  {
    hide SlotName;
    if k < |inputs| - 1 { InputTypeIs(inputs[..|inputs| - 1], k); }
  }

  lemma FittedDeclared(host: Host, source: DataType, target: DataType, s: Series)
    ensures Fitted(host, source, Declared(target), s) == Fitted(host, source, target, s)
  {
  }

  lemma SameComputation(host: Host, op: BinOpType, x: Datum, y: Datum)
    ensures OperatorName(op) in TWO_PLACE && Combined(host, OperatorName(op), x, y) == Computed(host, op, x, y)
  {
  }

  lemma TwoPlaceOperated(reg: Registry, host: Host, kind: string, ins: map<string, seq<Series>>, port: string,
                         x: Series, y: Series)
    requires kind in TWO_PLACE
    requires x == Wired(ins, OperandNames(reg, kind).0) && y == Wired(ins, OperandNames(reg, kind).1)
    ensures Operated(reg, host, kind, map[], ins, None, None, port) ==
              imap t: int | Moment(t) :: Combined(host, kind, At(x, t), At(y, t))
  {
    hide Combined, OperandNames, Wired, At;
    NoLiteral(kind);
  }

  lemma NoLiteral(kind: string)
    requires kind in TWO_PLACE
    ensures kind !in {"number", "text", "bool_true", "bool_false", "null_number"}
  {
    assert "neq"[1] == 'e';
  }

  lemma OperandSignal(reg: Registry, host: Host, kind: string, k: nat, d: Den)
    requires StandardOperators(reg) && kind in reg.components && k < |reg.components[kind].inputs|
    requires var inputs := reg.components[kind].inputs;
             Coerce(reg, d, InputType(inputs, SlotName(inputs[k].id))).Some?
    ensures var inputs := reg.components[kind].inputs;
            Signal(reg, host, ValueOf(Coerce(reg, d, InputType(inputs, SlotName(inputs[k].id))).value), "") ==
              FittedTo(host, inputs[k].dataType, Typed(TypeOf(reg, d), Signal(reg, host, ValueOf(d), "")))
  {
    hide Coerce, Signal, TypeOf, Fitted, InputType;
    var inputs := reg.components[kind].inputs;
    InputTypeIs(inputs, k);
    CoerceSignal(reg, host, d, InputType(inputs, SlotName(inputs[k].id)));
    FittedDeclared(host, TypeOf(reg, d), inputs[k].dataType, Signal(reg, host, ValueOf(d), ""));
  }

  /** The series behind a denotation, with its static type. */
  ghost function Behind(reg: Registry, host: Host, d: Den): Typed {
    Typed(TypeOf(reg, d), Signal(reg, host, ValueOf(d), ""))
  }

  lemma BinarySignal(reg: Registry, host: Host, op: BinOpType, a: Den, b: Den, tracked: Option<DataType>, port: string)
    requires StandardOperators(reg) && Binary(reg, OperatorName(op), a, b, tracked).Some?
    ensures Signal(reg, host, Binary(reg, OperatorName(op), a, b, tracked).value.node, port) ==
              Pairwise(reg, host, op, Behind(reg, host, a), Behind(reg, host, b))
  {
    hide Signal, TypeOf, Coerce, InputType, FittedTo, OperatorName, Computed, Combined, Operated;
    var kind := OperatorName(op);
    var c := reg.components[kind];
    var left, right := SlotName(c.inputs[0].id), SlotName(c.inputs[1].id);
    var x := Coerce(reg, a, InputType(c.inputs, left)).value;
    var y := Coerce(reg, b, InputType(c.inputs, right)).value;
    var inputs := Wire(Wire(map[], left, ValueOf(x)), right, ValueOf(y));
    assert left != right && InputNames(c)[0] == left && InputNames(c)[1] == right;
    WiredPair(left, right, ValueOf(x), ValueOf(y));
    OperandSignal(reg, host, kind, 0, a);
    OperandSignal(reg, host, kind, 1, b);
    BuiltSignal(reg, host, kind, inputs, port);
    OneSignal(reg, host, inputs, left, ValueOf(x));
    OneSignal(reg, host, inputs, right, ValueOf(y));
    SameComputation(host, op, Nil, Nil);
    var fx, fy := Signal(reg, host, ValueOf(x), ""), Signal(reg, host, ValueOf(y), "");
    TwoPlaceOperated(reg, host, kind, SignalMap(reg, host, inputs), port, fx, fy);
    CombinedIsComputed(host, op, fx, fy);
  }

  lemma CombinedIsComputed(host: Host, op: BinOpType, x: Series, y: Series)
    ensures (imap t: int | Moment(t) :: Combined(host, OperatorName(op), At(x, t), At(y, t))) ==
              imap t: int | Moment(t) :: Computed(host, op, At(x, t), At(y, t))
  {
    hide Combined, Computed, OperatorName, At;
    forall t: int
      ensures Combined(host, OperatorName(op), At(x, t), At(y, t)) == Computed(host, op, At(x, t), At(y, t))
    {
      SameComputation(host, op, At(x, t), At(y, t));
    }
  }

  lemma WiredPair(left: string, right: string, x: Value, y: Value)
    requires left != right
    ensures Wire(Wire(map[], left, x), right, y) == map[left := Args([x]), right := Args([y])]
  {
    assert [] + [x] == [x] && [] + [y] == [y];
  }

  // -------------------------------------------------------------------- fixed wiring

  lemma LiteralSignal(reg: Registry, host: Host, c: Const, port: string)
    ensures Signal(reg, host, Literal(c).node, port) == Always(Constantly(c))
  {
    hide Always;
    assert Literal(c).node.inputs == map[];
  }

  lemma FixedPair(reg: Registry, host: Host, kind: string, x: Value, y: Value, port: string)
    requires StandardOperators(reg) && kind in {"mul", "logical_and", "logical_or"}
    ensures Signal(reg, host, Built(kind, map["SLOT0" := Args([x]), "SLOT1" := Args([y])]), port) ==
              imap t: int | Moment(t) ::
                Combined(host, kind, At(Signal(reg, host, x, ""), t), At(Signal(reg, host, y, ""), t))
  {
    hide Signal, Combined, Operated, Wired;
    var inputs := map["SLOT0" := Args([x]), "SLOT1" := Args([y])];
    assert "SLOT0"[4] != "SLOT1"[4] && OperandNames(reg, kind) == ("SLOT0", "SLOT1");
    hide OperandNames, StandardOperators;
    BuiltSignal(reg, host, kind, inputs, port);
    OneSignal(reg, host, inputs, "SLOT0", x);
    OneSignal(reg, host, inputs, "SLOT1", y);
    assert kind in TWO_PLACE;
    TwoPlaceOperated(reg, host, kind, SignalMap(reg, host, inputs), port, Signal(reg, host, x, ""),
                     Signal(reg, host, y, ""));
  }

  lemma NegateSignal(reg: Registry, host: Host, d: Den, port: string)
    requires StandardOperators(reg)
    ensures Signal(reg, host, Negate(d).node, port) ==
              imap t: int | Moment(t) :: Num(-Amount(host, At(Signal(reg, host, ValueOf(d), ""), t)))
  {
    hide Signal, At, StandardOperators, Literal;
    var one := Literal(DoubleC(-1.0));
    FixedPair(reg, host, "mul", ValueOf(one), ValueOf(d), port);
    OutputSignal(reg, host, one);
    LiteralSignal(reg, host, DoubleC(-1.0), "#" + one.handle);
    var s := Signal(reg, host, ValueOf(d), "");
    forall t: int
      ensures Combined(host, "mul", At(Signal(reg, host, ValueOf(one), ""), t), At(s, t)) ==
                Num(-Amount(host, At(s, t)))
    {
      AlwaysAt(Num(-1.0), t);
      Timesm1(Amount(host, At(s, t)));
    }
  }

  lemma AlwaysAt(d: Datum, t: int)
    ensures At(Always(d), t) == d
  {
  }

  lemma Timesm1(x: real)
    ensures -1.0 * x == -x
  {
  }

  /** A nested chain holds when all, or some, of its operands do. */
  lemma {:induction false} NestSignal(reg: Registry, host: Host, kind: string, vs: seq<Value>, port: string, t: int)
    requires StandardOperators(reg) && kind in {"logical_and", "logical_or"} && |vs| >= 2
    ensures At(Signal(reg, host, Nest(kind, vs), port), t) ==
              Bit(if kind == "logical_and" then
                    forall i :: 0 <= i < |vs| ==> Holds(host, At(Signal(reg, host, vs[i], ""), t))
                  else exists i :: 0 <= i < |vs| && Holds(host, At(Signal(reg, host, vs[i], ""), t)))
  {
    hide Signal, StandardOperators;
    var rest := if |vs| == 2 then vs[1] else Output(Nest(kind, vs[1..]), "#result");
    FixedPair(reg, host, kind, vs[0], rest, port);
    if |vs| > 2 {
      NestSignal(reg, host, kind, vs[1..], "#result", t);
      NestedOutput(reg, host, Nest(kind, vs[1..]));
      assert forall i :: 0 <= i < |vs| - 1 ==> vs[1..][i] == vs[i + 1];
    }
  }

  lemma NestedOutput(reg: Registry, host: Host, v: Value)
    ensures Signal(reg, host, Output(v, "#result"), "") == Signal(reg, host, v, "#result")
  {
  }

  lemma FixedOperated(reg: Registry, host: Host, kind: string, options: map<string, Meaning>,
                      ins: map<string, seq<Series>>, port: string)
    ensures kind == "logical_not" ==>
              Operated(reg, host, kind, options, ins, None, None, port) ==
                imap t: int | Moment(t) :: Bit(!Holds(host, At(Wired(ins, "SLOT"), t)))
    ensures kind in SELECTS ==>
              Operated(reg, host, kind, options, ins, None, None, port) ==
                imap t: int | Moment(t) ::
                  At(if Holds(host, At(Wired(ins, "condition"), t)) then Wired(ins, "true") else Wired(ins, "false"), t)
    ensures kind in LAGS ==>
              Operated(reg, host, kind, options, ins, None, None, port) ==
                imap t: int | Moment(t) :: At(Wired(ins, "SLOT"), t - NumberAt(options, "period").Floor)
  {
    hide Wired, At, Combined, Holds, NumberAt, AsNumbers, AsBits, AsTexts;
    if kind == "logical_not" { NotIsAlone(kind); }
    if kind in SELECTS { SelectsAreAlone(kind); }
    if kind in LAGS { LagsAreAlone(kind); }
  }

  lemma NotIsAlone(kind: string)
    requires kind == "logical_not"
    ensures kind !in TWO_PLACE && kind !in {"number", "text", "bool_true", "bool_false", "null_number"}
  {
    assert |kind| == 11 && kind[8] == 'n';
  }

  lemma SelectsAreAlone(kind: string)
    requires kind in SELECTS
    ensures kind !in TWO_PLACE
    ensures kind !in {"number", "text", "bool_true", "bool_false", "null_number", "logical_not"}
  {
    assert |kind| > 20;
  }

  lemma LagsAreAlone(kind: string)
    requires kind in LAGS
    ensures kind !in TWO_PLACE && kind !in SELECTS
    ensures kind !in {"number", "text", "bool_true", "bool_false", "null_number", "logical_not"}
  {
    assert kind[0] == 'l' && kind[1] == 'a' && kind[2] == 'g';
  }

  lemma NotSignal(reg: Registry, host: Host, d: Den, port: string)
    requires LogicalNot(reg, d).Some?
    ensures Signal(reg, host, LogicalNot(reg, d).value.node, port) ==
              imap t: int | Moment(t) :: Bit(!Holds(host, At(Signal(reg, host, ValueOf(d), ""), t)))
  {
    hide Signal, Operated, Wired;
    var inputs := map["SLOT" := Args([ValueOf(d)])];
    BuiltSignal(reg, host, "logical_not", inputs, port);
    OneSignal(reg, host, inputs, "SLOT", ValueOf(d));
    FixedOperated(reg, host, "logical_not", map[], SignalMap(reg, host, inputs), port);
  }

  lemma SelectSignal(reg: Registry, host: Host, c: Den, a: Den, b: Den, port: string)
    requires Select(reg, c, a, b).Some?
    ensures Signal(reg, host, Select(reg, c, a, b).value.node, port) ==
              imap t: int | Moment(t) ::
                if Holds(host, At(Signal(reg, host, ValueOf(c), ""), t)) then At(Signal(reg, host, ValueOf(a), ""), t)
                else At(Signal(reg, host, ValueOf(b), ""), t)
  {
    hide Signal, Operated, Wired, TypeOf;
    var inputs := map["condition" := Args([ValueOf(c)]), "true" := Args([ValueOf(a)]), "false" := Args([ValueOf(b)])];
    var kind := SelectKind(TypeOf(reg, a), TypeOf(reg, b));
    assert |"condition"| == 9 && |"true"| == 4 && |"false"| == 5;
    BuiltSignal(reg, host, kind, inputs, port);
    OneSignal(reg, host, inputs, "condition", ValueOf(c));
    OneSignal(reg, host, inputs, "true", ValueOf(a));
    OneSignal(reg, host, inputs, "false", ValueOf(b));
    FixedOperated(reg, host, kind, map[], SignalMap(reg, host, inputs), port);
  }

  lemma LagSignal(reg: Registry, host: Host, d: Den, period: int, port: string)
    requires Lag(reg, d, period).Some?
    ensures Signal(reg, host, Lag(reg, d, period).value.node, port) ==
              imap t: int | Moment(t) :: At(Signal(reg, host, ValueOf(d), ""), t - period)
  {
    hide Operated, Wired, TypeOf;
    var inputs := map["SLOT" := Args([ValueOf(d)])];
    var options := map["period" := Raw(Number(period as real))];
    var kind := LagKind(TypeOf(reg, d));
    var node := Lag(reg, d, period).value.node;
    assert (map k | k in node.inputs :: Signals(reg, host, node.inputs[k])) == SignalMap(reg, host, inputs);
    assert Signal(reg, host, node, port) == Operated(reg, host, kind, options, SignalMap(reg, host, inputs), None, None,
                                                     port);
    hide Signal;
    OneSignal(reg, host, inputs, "SLOT", ValueOf(d));
    FixedOperated(reg, host, kind, options, SignalMap(reg, host, inputs), port);
  }

  lemma NameSignal(reg: Registry, host: Host, id: string, sc: Scope, port: Option<string>)
    requires DenoteName(reg, id, sc).Some?
    ensures var d := DenoteName(reg, id, sc).value;
            Signal(reg, host, d.node, "#" + (if port.Some? then port.value else d.handle)) ==
              Variable(reg, host, sc, id, port)
  {
    hide Signal, Always;
    var d := DenoteName(reg, id, sc).value;
    var p := "#" + (if port.Some? then port.value else d.handle);
    if id == "true" {
      LiteralSignal(reg, host, BoolC(true), p);
    } else if id == "false" {
      LiteralSignal(reg, host, BoolC(false), p);
    }
  }

  lemma HandleSignal(reg: Registry, host: Host, id: string, handle: string, sc: Scope, port: Option<string>)
    requires DenoteHandle(reg, id, handle, sc).Some?
    ensures var d := DenoteHandle(reg, id, handle, sc).value;
            Signal(reg, host, d.node, "#" + (if port.Some? then port.value else d.handle)) ==
              Member(reg, host, sc, id, if port.Some? then port else Some(handle))
  {
    hide Signal;
  }

  // ----------------------------------------------------------------- what a call is fed

  ghost predicate AllBehind(reg: Registry, host: Host, ss: seq<Typed>, ds: seq<Den>) {
    |ss| == |ds| && forall i :: 0 <= i < |ss| ==> ss[i] == Behind(reg, host, ds[i])
  }

  ghost predicate FedBehind(reg: Registry, host: Host, fed: Fed, feed: FeedDen) {
    && AllBehind(reg, host, fed.args, feed.args) && fed.kwargs.Keys == feed.kwargs.Keys
    && forall k :: k in fed.kwargs ==> fed.kwargs[k] == Behind(reg, host, feed.kwargs[k])
  }

  /** The series wired to an input so far. */
  ghost function Got(reg: Registry, host: Host, inputs: map<string, Args>, name: string): seq<Series> {
    if name in inputs then Signals(reg, host, inputs[name]) else []
  }

  ghost predicate WellWired(c: Component, inputs: map<string, Args>) {
    inputs.Keys <= Evaluation.NamesOf(c) && forall k :: k in inputs ==> inputs[k].values != []
  }

  lemma SignalsSnoc(reg: Registry, host: Host, vs: seq<Value>, v: Value)
    ensures Signals(reg, host, Args(vs + [v])) == Signals(reg, host, Args(vs)) + [Signal(reg, host, v, "")]
    ensures Signals(reg, host, Args([])) == []
  {
    hide Signal;
  }

  lemma NamedInput(reg: Registry, kind: string, name: string) returns (i: nat)
    requires kind in reg.components && name in InputNames(reg.components[kind])
    ensures i < |reg.components[kind].inputs| && SlotName(reg.components[kind].inputs[i].id) == name
  {
    i :| 0 <= i < |InputNames(reg.components[kind])| && InputNames(reg.components[kind])[i] == name;
  }

  lemma KeyedIs(reg: Registry, host: Host, kind: string, kwargs: map<string, Typed>, name: string, i: nat)
    requires StandardOperators(reg) && kind in reg.components && i < |reg.components[kind].inputs|
    requires SlotName(reg.components[kind].inputs[i].id) == name && name in kwargs
    ensures Keyed(host, reg.components[kind], kwargs, name) ==
              [FittedTo(host, reg.components[kind].inputs[i].dataType, kwargs[name])]
  {
    hide SlotName, FittedTo;
  }

  lemma GotEach(reg: Registry, host: Host, inputs: map<string, Args>, vs: map<string, Value>, name: string)
    ensures Got(reg, host, WireEach(inputs, vs), name) ==
              Got(reg, host, inputs, name) + (if name in vs then [Signal(reg, host, vs[name], "")] else [])
  {
    hide Signals, Signal;
    if name in vs { SignalsSnoc(reg, host, if name in inputs then inputs[name].values else [], vs[name]); }
  }

  lemma GotWire(reg: Registry, host: Host, inputs: map<string, Args>, name: string, v: Value, other: string)
    ensures Got(reg, host, Wire(inputs, name, v), other) ==
              Got(reg, host, inputs, other) + (if other == name then [Signal(reg, host, v, "")] else [])
  {
    hide Signals, Signal;
    SignalsSnoc(reg, host, if name in inputs then inputs[name].values else [], v);
  }

  lemma KeywordSignal(reg: Registry, host: Host, kind: string, fed: Fed, feed: FeedDen, name: string)
    requires StandardOperators(reg) && kind in reg.components && FedBehind(reg, host, fed, feed) && name in feed.kwargs
    requires KeywordFits(reg, reg.components[kind], feed.kwargs, name)
    ensures var c := reg.components[kind];
            && name in Evaluation.NamesOf(c)
            && Keyed(host, c, fed.kwargs, name) ==
                 [Signal(reg, host, KeywordValue(reg, c, feed.kwargs, name), "")]
  {
    hide StandardOperators, Coerce, InputType, FittedTo, Keyed, Signal, SlotName;
    var i := NamedInput(reg, kind, name);
    KeyedIs(reg, host, kind, fed.kwargs, name, i);
    OperandSignal(reg, host, kind, i, feed.kwargs[name]);
  }

  lemma KeywordStep(reg: Registry, host: Host, kind: string, inputs: map<string, Args>, fed: Fed, feed: FeedDen)
    requires StandardOperators(reg) && kind in reg.components && FedBehind(reg, host, fed, feed)
    requires WellWired(reg.components[kind], inputs)
    requires WireKeywords(reg, reg.components[kind], inputs, feed.kwargs).Some?
    ensures var c := reg.components[kind];
            var out := WireKeywords(reg, c, inputs, feed.kwargs).value;
            && WellWired(c, out)
            && forall name ::
                 Got(reg, host, out, name) == Got(reg, host, inputs, name) + Keyed(host, c, fed.kwargs, name)
  {
    hide StandardOperators, KeywordFits, Signals, Signal, Keyed, KeywordValue, Evaluation.NamesOf, Behind, Got;
    var c := reg.components[kind];
    var vs := KeywordValues(reg, c, feed.kwargs, feed.kwargs.Keys);
    var out := WireEach(inputs, vs);
    forall name
      ensures name in feed.kwargs ==> name in Evaluation.NamesOf(c)
      ensures Got(reg, host, out, name) == Got(reg, host, inputs, name) + Keyed(host, c, fed.kwargs, name)
    {
      GotEach(reg, host, inputs, vs, name);
      if name in feed.kwargs {
        KeywordSignal(reg, host, kind, fed, feed, name);
      } else {
        NotKeyed(host, c, fed.kwargs, name);
      }
    }
  }

  lemma NotKeyed(host: Host, c: Component, kwargs: map<string, Typed>, name: string)
    requires name !in kwargs
    ensures Keyed(host, c, kwargs, name) == []
  {
  }

  lemma PositionedSignal(reg: Registry, host: Host, kind: string, i: nat, s: Typed, d: Den)
    requires StandardOperators(reg) && kind in reg.components && reg.components[kind].inputs != []
    requires s == Behind(reg, host, d)
    requires var c := reg.components[kind]; Coerce(reg, d, InputType(c.inputs, SlotAt(InputNames(c), i))).Some?
    ensures var c := reg.components[kind];
            && SlotAt(InputNames(c), i) == SlotName(InputFor(c, i).id)
            && SlotAt(InputNames(c), i) in Evaluation.NamesOf(c)
            && FittedTo(host, InputFor(c, i).dataType, s) ==
                 Signal(reg, host, ValueOf(Coerce(reg, d, InputType(c.inputs, SlotAt(InputNames(c), i))).value), "")
  {
    hide StandardOperators, Coerce, InputType, FittedTo, SlotName, Signal;
    var c := reg.components[kind];
    OperandSignal(reg, host, kind, if i < |c.inputs| then i else |c.inputs| - 1, d);
  }

  lemma {:induction false} PositionalStep(reg: Registry, host: Host, kind: string, inputs: map<string, Args>,
                                          ss: seq<Typed>, ds: seq<Den>)
    requires StandardOperators(reg) && kind in reg.components && AllBehind(reg, host, ss, ds)
    requires reg.components[kind].inputs != [] && WellWired(reg.components[kind], inputs)
    requires WirePositional(reg, reg.components[kind], inputs, ds).Some?
    ensures var c := reg.components[kind];
            var out := WirePositional(reg, c, inputs, ds).value;
            && WellWired(c, out)
            && forall name :: Got(reg, host, out, name) == Got(reg, host, inputs, name) + Positioned(host, c, ss, name)
  {
    hide StandardOperators, Coerce, InputType, FittedTo, Signal, SlotName, Got, SlotAt, InputFor, Behind,
         Evaluation.NamesOf;
    var c := reg.components[kind];
    if ds == [] {
    } else {
      var n := |ds| - 1;
      PositionalStep(reg, host, kind, inputs, ss[..n], ds[..n]);
      var before := WirePositional(reg, c, inputs, ds[..n]).value;
      var at := SlotAt(InputNames(c), n);
      var v := ValueOf(Coerce(reg, ds[n], InputType(c.inputs, at)).value);
      PositionedSignal(reg, host, kind, n, ss[n], ds[n]);
      forall name
        ensures Got(reg, host, Wire(before, at, v), name)
                == Got(reg, host, inputs, name) + Positioned(host, c, ss, name)
      {
        GotWire(reg, host, before, at, v, name);
        PositionedSnoc(host, c, ss, name);
      }
    }
  }

  lemma PositionedSnoc(host: Host, c: Component, ss: seq<Typed>, name: string)
    requires ss != [] && c.inputs != []
    ensures var n := |ss| - 1;
            Positioned(host, c, ss, name) ==
              Positioned(host, c, ss[..n], name)
              + (if SlotName(InputFor(c, n).id) == name then [FittedTo(host, InputFor(c, n).dataType, ss[n])] else [])
  {
  }

  lemma FeedStep(reg: Registry, host: Host, kind: string, inputs: map<string, Args>, fed: Fed, feed: FeedDen)
    requires StandardOperators(reg) && kind in reg.components && FedBehind(reg, host, fed, feed)
    requires WellWired(reg.components[kind], inputs) && WireFeed(reg, reg.components[kind], inputs, feed).Some?
    ensures var c := reg.components[kind];
            var out := WireFeed(reg, c, inputs, feed).value;
            && WellWired(c, out)
            && forall name :: Got(reg, host, out, name)
                              == Got(reg, host, inputs, name) + Keyed(host, c, fed.kwargs, name)
                                 + Positioned(host, c, fed.args, name)
  {
    hide StandardOperators, Keyed, Got, WireKeywords, WirePositional, WellWired;
    var c := reg.components[kind];
    KeywordStep(reg, host, kind, inputs, fed, feed);
    var named := WireKeywords(reg, c, inputs, feed.kwargs).value;
    if feed.args != [] && c.inputs != [] {
      PositionalStep(reg, host, kind, named, fed.args, feed.args);
    } else {
      forall name ensures Positioned(host, c, fed.args, name) == [] { }
    }
  }

  lemma {:induction false} FeedsSteps(reg: Registry, host: Host, kind: string, feds: seq<Fed>, feeds: seq<FeedDen>)
    requires StandardOperators(reg) && kind in reg.components && |feds| == |feeds|
    requires forall i :: 0 <= i < |feds| ==> FedBehind(reg, host, feds[i], feeds[i])
    requires WireFeeds(reg, reg.components[kind], map[], feeds).Some?
    ensures var c := reg.components[kind];
            var out := WireFeeds(reg, c, map[], feeds).value;
            WellWired(c, out) && forall name :: Got(reg, host, out, name) == Column(host, c, feds, name)
  {
    hide StandardOperators, Keyed, Positioned, FedBehind, WireFeed;
    if feeds != [] {
      var n := |feeds| - 1;
      FeedsSteps(reg, host, kind, feds[..n], feeds[..n]);
      FeedStep(reg, host, kind, WireFeeds(reg, reg.components[kind], map[], feeds[..n]).value, feds[n], feeds[n]);
    }
  }

  /** The inputs of the term are what the call is fed. */
  lemma ColumnsSignal(reg: Registry, host: Host, kind: string, feds: seq<Fed>, feeds: seq<FeedDen>)
    requires StandardOperators(reg) && kind in reg.components && |feds| == |feeds|
    requires forall i :: 0 <= i < |feds| ==> FedBehind(reg, host, feds[i], feeds[i])
    requires WireFeeds(reg, reg.components[kind], map[], feeds).Some?
    ensures SignalMap(reg, host, WireFeeds(reg, reg.components[kind], map[], feeds).value) ==
              Columns(host, reg.components[kind], feds)
  {
    hide StandardOperators, Column, FedBehind, WireFeeds, Signal;
    var c := reg.components[kind];
    FeedsSteps(reg, host, kind, feds, feeds);
    var out := WireFeeds(reg, c, map[], feeds).value;
    forall name ensures name in out <==> name in Columns(host, c, feds) {
      assert Got(reg, host, out, name) == Column(host, c, feds, name);
      if name in out { assert |Signals(reg, host, out[name])| == |out[name].values|; }
    }
  }

  // ------------------------------------------------------------------------- the theorem

  ghost predicate Tells(reg: Registry, host: Host, mode: Mode, sc: Scope, e: Expr, d: Den, port: Option<string>) {
    Signal(reg, host, d.node, "#" + (if port.Some? then port.value else d.handle)) ==
      Direct(reg, host, mode, sc, e, port)
  }

  lemma OperandIs(reg: Registry, host: Host, mode: Mode, sc: Scope, e: Expr, d: Den)
    requires Denote(reg, mode, e, sc) == Some(d) && Tells(reg, host, mode, sc, e, d, None)
    ensures Operand(reg, host, mode, sc, e) == Behind(reg, host, d)
  {
    hide Direct, TypeOf, ShapeType, Denote, Checked;
    OutputSignal(reg, host, d);
    StaticTypesExact.TypesExactly(reg, mode, sc, e);
    StaticTypesExact.TypeIs(reg, d);
  }

  /** The term an accepted expression denotes computes, at any handle, what the expression computes. */
  lemma {:induction false} ExpressionComputes(reg: Registry, host: Host, mode: Mode, e: Expr, sc: Scope,
                                              port: Option<string>)
    requires StandardOperators(reg) && !mode.Presumed? && Denote(reg, mode, e, sc).Some?
    ensures Tells(reg, host, mode, sc, e, Denote(reg, mode, e, sc).value, port)
    decreases e, 3
  {
    hide Invoke, Binary, Select, Negate, LogicalNot, Lag, CoerceAll, Nest, Values, DenoteParse, DenoteAll, Period,
         Signal, Pairwise, Invoked, StandardOperators, Literal, DenoteName, DenoteHandle, Variable, Member,
         DirectAll;
    match e
    case Name(id) => NameSignal(reg, host, id, sc, port);
    case Constant(c) => LiteralSignal(reg, host, c, "#" + (if port.Some? then port.value else Literal(c).handle));
    case Attribute(base, attr) =>
      if base.Name? {
        HandleSignal(reg, host, base.id, attr, sc, port);
      } else {
        ExpressionComputes(reg, host, mode, base, sc, if port.Some? then port else Some(attr));
      }
    case Call(_, _, _) => CallComputes(reg, host, mode, e, sc, port);
    case BinOp(_, _, _) => BinOpComputes(reg, host, mode, e, sc, port);
    case Compare(_, _, _) => CompareComputes(reg, host, mode, e, sc, port);
    case BoolOp(_, _) => ChainComputes(reg, host, mode, e, sc, port);
    case UnaryOp(_, _) => UnaryComputes(reg, host, mode, e, sc, port);
    case IfExp(_, _, _) => BranchComputes(reg, host, mode, e, sc, port);
    case Subscript(_, _) => SliceComputes(reg, host, mode, e, sc, port);
    case _ =>
  }

  lemma SameOperator(op: BinOpType)
    ensures BinOpKind(op) == OperatorName(op)
  {
  }

  lemma {:induction false} BinOpComputes(reg: Registry, host: Host, mode: Mode, e: Expr, sc: Scope,
                                         port: Option<string>)
    requires StandardOperators(reg) && !mode.Presumed? && Denote(reg, mode, e, sc).Some? && e.BinOp?
    ensures Tells(reg, host, mode, sc, e, Denote(reg, mode, e, sc).value, port)
    decreases e, 2
  {
    hide Binary, Signal, Pairwise, StandardOperators, BinOpKind, OperatorName, BinOpTracked, Operand;
    var a, b := Denote(reg, mode, e.left, sc).value, Denote(reg, mode, e.right, sc).value;
    var d := Denote(reg, mode, e, sc).value;
    ExpressionComputes(reg, host, mode, e.left, sc, None);
    ExpressionComputes(reg, host, mode, e.right, sc, None);
    OperandIs(reg, host, mode, sc, e.left, a);
    OperandIs(reg, host, mode, sc, e.right, b);
    SameOperator(e.op);
    BinarySignal(reg, host, e.op, a, b, BinOpTracked(BinOpKind(e.op)),
                 "#" + (if port.Some? then port.value else d.handle));
  }

  lemma {:induction false} CompareComputes(reg: Registry, host: Host, mode: Mode, e: Expr, sc: Scope,
                                           port: Option<string>)
    requires StandardOperators(reg) && !mode.Presumed? && Denote(reg, mode, e, sc).Some? && e.Compare?
    ensures Tells(reg, host, mode, sc, e, Denote(reg, mode, e, sc).value, port)
    decreases e, 2
  {
    hide Binary, Signal, Pairwise, StandardOperators, BinOpKind, OperatorName, Operand;
    var a, b := Denote(reg, mode, e.first, sc).value, Denote(reg, mode, e.comparators[0], sc).value;
    var d := Denote(reg, mode, e, sc).value;
    ExpressionComputes(reg, host, mode, e.first, sc, None);
    ExpressionComputes(reg, host, mode, e.comparators[0], sc, None);
    OperandIs(reg, host, mode, sc, e.first, a);
    OperandIs(reg, host, mode, sc, e.comparators[0], b);
    SameOperator(e.ops[0]);
    BinarySignal(reg, host, e.ops[0], a, b, Some(Boolean), "#" + (if port.Some? then port.value else d.handle));
  }

  lemma {:induction false} UnaryComputes(reg: Registry, host: Host, mode: Mode, e: Expr, sc: Scope,
                                         port: Option<string>)
    requires StandardOperators(reg) && !mode.Presumed? && Denote(reg, mode, e, sc).Some? && e.UnaryOp?
    ensures Tells(reg, host, mode, sc, e, Denote(reg, mode, e, sc).value, port)
    decreases e, 2
  {
    hide Negate, LogicalNot, Signal, StandardOperators;
    var x := Denote(reg, mode, e.operand, sc).value;
    var d := Denote(reg, mode, e, sc).value;
    var p := "#" + (if port.Some? then port.value else d.handle);
    ExpressionComputes(reg, host, mode, e.operand, sc, if e.unOp.UAdd? then port else None);
    OutputSignal(reg, host, x);
    match e.unOp
    case UAdd =>
    case USub => NegateSignal(reg, host, x, p);
    case Not => NotSignal(reg, host, x, p);
  }

  lemma {:induction false} BranchComputes(reg: Registry, host: Host, mode: Mode, e: Expr, sc: Scope,
                                          port: Option<string>)
    requires StandardOperators(reg) && !mode.Presumed? && Denote(reg, mode, e, sc).Some? && e.IfExp?
    ensures Tells(reg, host, mode, sc, e, Denote(reg, mode, e, sc).value, port)
    decreases e, 2
  {
    hide Select, Signal, StandardOperators;
    var c := Denote(reg, mode, e.test, sc).value;
    var a, b := Denote(reg, mode, e.body, sc).value, Denote(reg, mode, e.orelse, sc).value;
    var d := Denote(reg, mode, e, sc).value;
    ExpressionComputes(reg, host, mode, e.test, sc, None);
    ExpressionComputes(reg, host, mode, e.body, sc, None);
    ExpressionComputes(reg, host, mode, e.orelse, sc, None);
    OutputSignal(reg, host, c);
    OutputSignal(reg, host, a);
    OutputSignal(reg, host, b);
    SelectSignal(reg, host, c, a, b, "#" + (if port.Some? then port.value else d.handle));
  }

  lemma ReachIs(mode: Mode, slice: Expr)
    requires !mode.Presumed? && Period(mode, slice).Some?
    ensures Period(mode, slice) == Some(Reach(mode, slice))
  {
    hide EvaluateConstant;
  }

  lemma {:induction false} SliceComputes(reg: Registry, host: Host, mode: Mode, e: Expr, sc: Scope,
                                         port: Option<string>)
    requires StandardOperators(reg) && !mode.Presumed? && Denote(reg, mode, e, sc).Some? && e.Subscript?
    ensures Tells(reg, host, mode, sc, e, Denote(reg, mode, e, sc).value, port)
    decreases e, 2
  {
    hide Lag, Signal, StandardOperators, Period, Reach;
    var x := Denote(reg, mode, e.value, sc).value;
    var d := Denote(reg, mode, e, sc).value;
    ExpressionComputes(reg, host, mode, e.value, sc, None);
    OutputSignal(reg, host, x);
    ReachIs(mode, e.slice);
    LagSignal(reg, host, x, Reach(mode, e.slice), "#" + (if port.Some? then port.value else d.handle));
  }

  lemma {:induction false} OperandsCompute(reg: Registry, host: Host, mode: Mode, whole: Expr, es: seq<Expr>, sc: Scope)
    requires StandardOperators(reg) && !mode.Presumed? && forall i :: 0 <= i < |es| ==> es[i] < whole
    requires DenoteAll(reg, mode, whole, es, sc).Some?
    ensures AllBehind(reg, host, DirectAll(reg, host, mode, sc, whole, es), DenoteAll(reg, mode, whole, es, sc).value)
    decreases whole, 0, |es|
  {
    hide Denote, Signal, StandardOperators, Operand, Behind, Tells;
    if es != [] {
      var n := |es| - 1;
      OperandsCompute(reg, host, mode, whole, es[..n], sc);
      ExpressionComputes(reg, host, mode, es[n], sc, None);
      OperandIs(reg, host, mode, sc, es[n], Denote(reg, mode, es[n], sc).value);
    }
  }

  lemma {:induction false} CoerceAllAt(reg: Registry, ds: seq<Den>, target: DataType)
    requires CoerceAll(reg, ds, target).Some?
    ensures var bs := CoerceAll(reg, ds, target).value;
            |bs| == |ds| && forall i :: 0 <= i < |ds| ==> Coerce(reg, ds[i], target) == Some(bs[i])
  {
    hide Coerce;
    if ds != [] { CoerceAllAt(reg, ds[..|ds| - 1], target); }
  }

  lemma {:induction false} ChainComputes(reg: Registry, host: Host, mode: Mode, e: Expr, sc: Scope,
                                         port: Option<string>)
    requires StandardOperators(reg) && !mode.Presumed? && Denote(reg, mode, e, sc).Some? && e.BoolOp?
    ensures Tells(reg, host, mode, sc, e, Denote(reg, mode, e, sc).value, port)
    decreases e, 1
  {
    hide Signal, StandardOperators, CoerceAll, Nest, Behind, DirectAll, DenoteAll;
    var ds := DenoteAll(reg, mode, e, e.values, sc).value;
    var bs := CoerceAll(reg, ds, Boolean).value;
    var d := Denote(reg, mode, e, sc).value;
    OperandsCompute(reg, host, mode, e, e.values, sc);
    CoerceAllAt(reg, ds, Boolean);
    ChainSignal(reg, host, e.boolOp, DirectAll(reg, host, mode, sc, e, e.values), ds,
                "#" + (if port.Some? then port.value else d.handle));
  }

  lemma ChainSignal(reg: Registry, host: Host, op: BinOpType, ss: seq<Typed>, ds: seq<Den>, port: string)
    requires StandardOperators(reg) && AllBehind(reg, host, ss, ds) && CoerceAll(reg, ds, Boolean).Some? && |ds| >= 2
    ensures |CoerceAll(reg, ds, Boolean).value| == |ds|
    ensures Signal(reg, host, Nest(if op == And then "logical_and" else "logical_or",
                                   Values(CoerceAll(reg, ds, Boolean).value)), port) ==
              imap t: int | Moment(t) :: Bit(if op == And then AllHold(host, ss, t) else SomeHold(host, ss, t))
  {
    hide Signal, StandardOperators, CoerceAll, Nest, Coerce, FittedTo, Holds, At, TypeOf;
    var bs := CoerceAll(reg, ds, Boolean).value;
    var kind := if op == And then "logical_and" else "logical_or";
    CoerceAllAt(reg, ds, Boolean);
    forall i | 0 <= i < |ds| ensures Signal(reg, host, Values(bs)[i], "") == FittedTo(host, Boolean, ss[i]) {
      FitsIn(reg, host, ds[i], Boolean);
    }
    NestMoments(reg, host, kind, Values(bs), port);
    assert "logical_and"[8] != "logical_or"[8];
    forall t: int
      ensures Bit(if op == And then AllHold(host, ss, t) else SomeHold(host, ss, t)) ==
                At(Signal(reg, host, Nest(kind, Values(bs)), port), t)
    {
      NestSignal(reg, host, kind, Values(bs), port, t);
    }
    TotalSeries(Signal(reg, host, Nest(kind, Values(bs)), port));
  }

  lemma FitsIn(reg: Registry, host: Host, d: Den, target: DataType)
    requires Coerce(reg, d, target).Some?
    ensures Signal(reg, host, ValueOf(Coerce(reg, d, target).value), "") ==
              FittedTo(host, target, Behind(reg, host, d))
  {
    hide Coerce, Signal, TypeOf, Fitted;
    CoerceSignal(reg, host, d, target);
  }

  lemma TotalSeries(s: Series)
    requires forall t: int :: t in s
    ensures forall t: int :: At(s, t) == s[t]
  {
  }

  lemma NestMoments(reg: Registry, host: Host, kind: string, vs: seq<Value>, port: string)
    requires StandardOperators(reg) && kind in {"logical_and", "logical_or"} && |vs| >= 2
    ensures forall t: int :: t in Signal(reg, host, Nest(kind, vs), port)
  {
    hide Signal, StandardOperators;
    FixedPair(reg, host, kind, vs[0], if |vs| == 2 then vs[1] else Output(Nest(kind, vs[1..]), "#result"), port);
  }

  lemma {:induction false} KeywordsCompute(reg: Registry, host: Host, mode: Mode, whole: Expr, ks: seq<Keyword>,
                                           sc: Scope)
    requires StandardOperators(reg) && !mode.Presumed? && forall i :: 0 <= i < |ks| ==> ks[i].arg < whole
    requires DenoteKeywords(reg, mode, whole, ks, sc).Some?
    ensures var ss, ds := DirectKeywords(reg, host, mode, sc, whole, ks),
                          DenoteKeywords(reg, mode, whole, ks, sc).value;
            ss.Keys == ds.Keys && forall k :: k in ss ==> ss[k] == Behind(reg, host, ds[k])
    decreases whole, 0, |ks|
  {
    hide Denote, Signal, StandardOperators, Operand, Behind, Tells;
    if ks != [] {
      var n := |ks| - 1;
      KeywordsCompute(reg, host, mode, whole, ks[..n], sc);
      ExpressionComputes(reg, host, mode, ks[n].arg, sc, None);
      OperandIs(reg, host, mode, sc, ks[n].arg, Denote(reg, mode, ks[n].arg, sc).value);
    }
  }

  ghost predicate AllFed(reg: Registry, host: Host, feds: seq<Fed>, feeds: seq<FeedDen>) {
    |feds| == |feeds| && forall i :: 0 <= i < |feds| ==> FedBehind(reg, host, feds[i], feeds[i])
  }

  /** A call chain feeds its component what its arguments compute. */
  lemma {:induction false} FeedsCompute(reg: Registry, host: Host, mode: Mode, e: Expr, single: bool, sc: Scope)
    requires StandardOperators(reg) && !mode.Presumed? && e.Call? && DenoteParse(reg, mode, e, single, sc).Some?
    ensures var p := DenoteParse(reg, mode, e, single, sc).value;
            && AllFed(reg, host, DirectFeeds(reg, host, mode, sc, e), p.feeds)
            && Callee(e).Some? && Callee(e).value.0 == p.kind
            && Params(reg, p.kind, Callee(e).value.1, sc) == Some(p.params)
    decreases e, 1
  {
    hide StandardOperators, Params, DenoteAll, DenoteKeywords, DirectAll, DirectKeywords, Behind;
    match e.func
    case Name(_) => if e.args != [] { OperandsCompute(reg, host, mode, e, e.args, sc); }
    case Call(_, _, _) =>
      FeedsCompute(reg, host, mode, e.func, false, sc);
      OperandsCompute(reg, host, mode, e, e.args, sc);
      KeywordsCompute(reg, host, mode, e, e.keywords, sc);
    case _ =>
  }

  lemma {:induction false} CallComputes(reg: Registry, host: Host, mode: Mode, e: Expr, sc: Scope, port: Option<string>)
    requires StandardOperators(reg) && !mode.Presumed? && Denote(reg, mode, e, sc).Some? && e.Call?
    ensures Tells(reg, host, mode, sc, e, Denote(reg, mode, e, sc).value, port)
    decreases e, 2
  {
    hide StandardOperators, DenoteParse, DirectFeeds, Params, Signal, Invoked, Invoke, Callee;
    var p := DenoteParse(reg, mode, e, !e.func.Call?, sc).value;
    FeedsCompute(reg, host, mode, e, !e.func.Call?, sc);
    InvokeSignal(reg, host, sc, e, p, DirectFeeds(reg, host, mode, sc, e), port);
  }

  lemma InvokeSignal(reg: Registry, host: Host, sc: Scope, e: Expr, p: Parsed, feds: seq<Fed>, port: Option<string>)
    requires StandardOperators(reg) && p.kind in reg.components && Invoke(reg, p).Some?
    requires AllFed(reg, host, feds, p.feeds)
    requires Callee(e).Some? && Callee(e).value.0 == p.kind
    requires Params(reg, p.kind, Callee(e).value.1, sc) == Some(p.params)
    ensures var d := Invoke(reg, p).value;
            Signal(reg, host, d.node, "#" + (if port.Some? then port.value else d.handle)) ==
              Invoked(reg, host, sc, e, feds, port)
  {
    hide StandardOperators, Callee, Params, Operated, WireFeeds, Columns, OptionsMeaning, FedBehind;
    var c, cfg := reg.components[p.kind], reg.configure(p.kind, p.params).value;
    var inputs := WireFeeds(reg, c, map[], p.feeds).value;
    ColumnsSignal(reg, host, p.kind, feds, p.feeds);
    var d := Invoke(reg, p).value;
    var v := d.node;
    assert (map k | k in v.inputs :: Signals(reg, host, v.inputs[k])) == SignalMap(reg, host, inputs);
    TimelessLiterals(reg, host, p.kind, v.options, Columns(host, c, feds), cfg,
                     "#" + (if port.Some? then port.value else d.handle));
  }

  /** Literals are the same in every timeframe and session. */
  lemma TimelessLiterals(reg: Registry, host: Host, kind: string, options: map<string, Meaning>,
                         ins: map<string, seq<Series>>, cfg: Config, port: string)
    ensures var v := Configured(kind, options, map[], cfg);
            Operated(reg, host, kind, options, ins, v.timeframe, v.session, port) ==
              Operated(reg, host, kind, options, ins, cfg.timeframe, cfg.session, port)
  {
  }
}
