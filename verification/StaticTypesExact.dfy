/** The compiler accepts exactly the expressions that check, and gives them the types that are checked. */
module StaticTypesExact {
  import opened Wrappers
  import opened Graph
  import opened Ast
  import opened Registry
  import opened ConstantFolder
  import opened Denotation
  import opened StaticTypes

  // -------------------------------------------------------------------------- the tables

  function ShapeOf(d: Den): Shape { Shape(KindOf(d.node), d.handle, d.tracked) }

  lemma {:induction false} OutputTypeAt(outputs: seq<OutputPort>, i: nat)
    requires i < |outputs| && forall j :: 0 <= j < i ==> outputs[j].id != outputs[i].id
    ensures OutputType(outputs, outputs[i].id) == Some(Loosely(outputs[i].dataType))
  {
    if i > 0 {
      assert outputs[0].id != outputs[i].id;
      OutputTypeAt(outputs[1..], i - 1);
    }
  }

  lemma {:induction false} NoOutputType(outputs: seq<OutputPort>, id: string)
    requires forall j :: 0 <= j < |outputs| ==> outputs[j].id != id
    ensures OutputType(outputs, id).None?
  {
    if outputs != [] { NoOutputType(outputs[1..], id); }
  }

  lemma {:induction false} FindPort(c: Component, handle: string, n: nat) returns (i: nat)
    requires n <= |c.outputs|
    ensures i <= n && (forall j :: 0 <= j < i ==> c.outputs[j].id != handle)
    ensures i < n ==> FirstPort(c, handle, i)
  {
    if n == 0 {
      i := 0;
    } else {
      i := FindPort(c, handle, n - 1);
      if i == n - 1 && c.outputs[i].id != handle { i := n; }
    }
  }

  lemma PortTypeIs(c: Component, handle: string)
    ensures OutputType(c.outputs, handle) == PortType(c, handle)
  {
    hide OutputType;
    var i := FindPort(c, handle, |c.outputs|);
    if i < |c.outputs| {
      OutputTypeAt(c.outputs, i);
      forall j: nat | FirstPort(c, handle, j) ensures j == i { }
    } else {
      NoOutputType(c.outputs, handle);
      forall j: nat | FirstPort(c, handle, j) ensures false { }
    }
  }

  lemma {:induction false} InputTypeAt(inputs: seq<Input>, name: string, i: nat)
    requires i < |inputs| && SlotName(inputs[i].id) == name
    requires forall j :: i < j < |inputs| ==> SlotName(inputs[j].id) != name
    ensures InputType(inputs, name) == Loosely(inputs[i].dataType)
  {
    hide SlotName;
    if i < |inputs| - 1 { InputTypeAt(inputs[..|inputs| - 1], name, i); }
  }

  lemma {:induction false} NoInputType(inputs: seq<Input>, name: string)
    requires forall j :: 0 <= j < |inputs| ==> SlotName(inputs[j].id) != name
    ensures InputType(inputs, name) == Any
  {
    hide SlotName;
    if inputs != [] { NoInputType(inputs[..|inputs| - 1], name); }
  }

  lemma {:induction false} FindInput(c: Component, name: string, n: nat) returns (i: int)
    requires n <= |c.inputs| && forall j :: n <= j < |c.inputs| ==> SlotName(c.inputs[j].id) != name
    ensures -1 <= i < n && (forall j :: i < j < |c.inputs| ==> SlotName(c.inputs[j].id) != name)
    ensures i >= 0 ==> LastInput(c, name, i)
  {
    hide SlotName;
    if n == 0 {
      i := -1;
    } else if SlotName(c.inputs[n - 1].id) == name {
      i := n - 1;
    } else {
      i := FindInput(c, name, n - 1);
    }
  }

  lemma WantedIs(c: Component, name: string)
    ensures InputType(c.inputs, name) == Wanted(c, name)
  {
    hide InputType, SlotName;
    var i := FindInput(c, name, |c.inputs|);
    if i >= 0 {
      InputTypeAt(c.inputs, name, i);
      forall j: nat | LastInput(c, name, j) ensures j == i { }
    } else {
      NoInputType(c.inputs, name);
      forall j: nat | LastInput(c, name, j) ensures false { }
    }
  }

  /** "*" is an input without a number, "*3" the input with number 3; other inputs have their own names. */
  lemma InputIsNamed(id: string, rest: string)
    ensures id == "*" + rest ==> SlotName(id) == "SLOT" + rest
    ensures (id == "" || id[0] != '*') ==> SlotName(id) == id
  {
    assert ("*" + rest)[1..] == rest;
  }

  lemma TypeIs(reg: Registry, d: Den)
    ensures TypeOf(reg, d) == ShapeType(reg, ShapeOf(d))
  {
    hide PortType, OutputType;
    if KindOf(d.node) in reg.components { PortTypeIs(reg.components[KindOf(d.node)], d.handle); }
  }

  /** A value is wired as it is, or through the one component that converts its type, or not at all. */
  lemma CoerceExactly(reg: Registry, d: Den, target: DataType)
    ensures Coerce(reg, d, target).Some? <==> Fits(TypeOf(reg, d), target)
    ensures var source := TypeOf(reg, d);
            Fits(source, target) ==>
              var out := Coerce(reg, d, target).value;
              if (source == Boolean && target in {Integer, Decimal, NumberType, StringType})
                 || (source in {Integer, Decimal, NumberType} && target == Boolean)
              then
                && out.handle == "result" && out.tracked == Some(target)
                && out.node == Apply(if target == Integer then "static_cast_to_integer"
                                     else if target == Boolean then "static_cast_to_boolean"
                                     else if target == StringType then "stringify"
                                     else "static_cast_to_decimal",
                                     map[], map["SLOT" := Args([Output(d.node, "#" + d.handle)])], None, None)
              else out == d
  {
    hide TypeOf;
  }

  lemma OperatorIs(op: BinOpType)
    ensures BinOpKind(op) == OperatorName(op) && BinOpTracked(BinOpKind(op)) == ResultType(op)
    ensures IsComparison(op) <==> op in {Lt, Gt, LtE, GtE, Eq, NotEq}
  {
    assert "sub"[0] == 's' && "mul"[0] == 'm' && "modulo"[1] == 'o' && "mul"[1] == 'u' && "power_op"[0] == 'p';
  }

  lemma VariantsAre(a: DataType, b: DataType)
    ensures SelectKind(a, b) == ChoiceName(a, b) && LagKind(a) == DelayName(a)
  {
  }

  lemma SlicedIs(mode: Mode, slice: Expr)
    ensures Period(mode, slice).Some? <==> Sliced(mode, slice)
  {
    hide EvaluateConstant, IsConstantExpression;
  }

  // -------------------------------------------------------------------------- expressions

  ghost predicate Agrees(s: Option<Shape>, d: Option<Den>) {
    if d.Some? then s == Some(ShapeOf(d.value)) else s.None?
  }

  /** Checking and meaning agree on an expression. */
  ghost predicate Exact(reg: Registry, mode: Mode, sc: Scope, e: Expr) {
    Agrees(Checked(reg, mode, sc, e), Denote(reg, mode, e, sc))
  }

  lemma SuitsIs(reg: Registry, s: Option<Shape>, d: Option<Den>, target: DataType)
    requires Agrees(s, d)
    ensures Suits(reg, s, target) <==> d.Some? && Coerce(reg, d.value, target).Some?
  {
    hide Coerce, Fits, TypeOf, ShapeType;
    if d.Some? {
      TypeIs(reg, d.value);
      CoerceExactly(reg, d.value, target);
    }
  }

  lemma VariableIs(reg: Registry, sc: Scope, id: string)
    ensures Agrees(VariableShape(reg, sc, id), DenoteName(reg, id, sc))
  {
  }

  lemma MemberIs(reg: Registry, sc: Scope, id: string, handle: string)
    ensures Agrees(MemberShape(reg, sc, id, handle), DenoteHandle(reg, id, handle, sc))
  {
    hide SlotName;
  }

  lemma OperandsExactly(reg: Registry, c: Component, a: Den, b: Den)
    ensures OperandInputs(reg, c, a, b).Some? <==>
              |c.inputs| == 2
              && Coerce(reg, a, Wanted(c, SlotName(c.inputs[0].id))).Some?
              && Coerce(reg, b, Wanted(c, SlotName(c.inputs[1].id))).Some?
  {
    hide Coerce, Wanted, InputType, SlotName, Wire;
    if |c.inputs| == 2 {
      var left, right := SlotName(c.inputs[0].id), SlotName(c.inputs[1].id);
      assert InputNames(c)[0] == left && InputNames(c)[1] == right;
      WantedIs(c, left);
      WantedIs(c, right);
    }
  }

  function BinaryOf(reg: Registry, op: BinOpType, a: Option<Den>, b: Option<Den>, t: Option<DataType>): Option<Den> {
    if a.Some? && b.Some? then Binary(reg, BinOpKind(op), a.value, b.value, t) else None
  }

  /** What a two-place operator makes of operands that check. */
  lemma PairExact(reg: Registry, op: BinOpType, s: Option<Shape>, u: Option<Shape>, a: Option<Den>, b: Option<Den>)
    requires Agrees(s, a) && Agrees(u, b)
    ensures Agrees(Pair(reg, op, s, u), BinaryOf(reg, op, a, b, ResultType(op)))
  {
    hide Coerce, Suits, Wanted, SlotName, OperatorName, BinOpKind, OperandInputs;
    var kind := OperatorName(op);
    OperatorIs(op);
    if kind in reg.components && |reg.components[kind].inputs| == 2 {
      var c := reg.components[kind];
      SuitsIs(reg, s, a, Wanted(c, SlotName(c.inputs[0].id)));
      SuitsIs(reg, u, b, Wanted(c, SlotName(c.inputs[1].id)));
    }
    if a.Some? && b.Some? && kind in reg.components { OperandsExactly(reg, reg.components[kind], a.value, b.value); }
  }

  lemma ChoiceExact(reg: Registry, s: Option<Shape>, u: Option<Shape>, v: Option<Shape>, c: Option<Den>, a: Option<Den>,
                    b: Option<Den>)
    requires Agrees(s, c) && Agrees(u, a) && Agrees(v, b)
    ensures Agrees(Choice(reg, s, u, v),
                   if c.Some? && a.Some? && b.Some? then Select(reg, c.value, a.value, b.value) else None)
  {
    hide TypeOf, ShapeType, SelectKind, ChoiceName;
    if a.Some? && b.Some? {
      TypeIs(reg, a.value);
      TypeIs(reg, b.value);
      VariantsAre(TypeOf(reg, a.value), TypeOf(reg, b.value));
    }
  }

  lemma DelayedExact(reg: Registry, s: Option<Shape>, d: Option<Den>, period: int)
    requires Agrees(s, d)
    ensures Agrees(Delayed(reg, s), if d.Some? then Lag(reg, d.value, period) else None)
  {
    hide TypeOf, ShapeType, LagKind, DelayName;
    if d.Some? {
      TypeIs(reg, d.value);
      VariantsAre(TypeOf(reg, d.value), TypeOf(reg, d.value));
    }
  }

  lemma UnaryExact(reg: Registry, op: UnaryOpType, s: Option<Shape>, d: Option<Den>)
    requires Agrees(s, d)
    ensures Agrees(Unary(reg, op, s),
                   if d.None? then None
                   else match op
                     case UAdd => d
                     case USub => Some(Negate(d.value))
                     case Not => LogicalNot(reg, d.value))
  {
  }

  // ----------------------------------------------------------------------------- calls

  ghost predicate AllAgree(ss: seq<Option<Shape>>, ds: seq<Den>) {
    |ss| == |ds| && forall i :: 0 <= i < |ss| ==> Agrees(ss[i], Some(ds[i]))
  }

  lemma {:induction false} PositionalExactly(reg: Registry, c: Component, inputs: map<string, Args>, ds: seq<Den>)
    requires c.inputs != []
    ensures WirePositional(reg, c, inputs, ds).Some? <==>
            forall i :: 0 <= i < |ds| ==> Coerce(reg, ds[i], Wanted(c, PlaceOf(c, i))).Some?
  {
    hide Coerce, Wanted, SlotName, InputType, Wire;
    if ds != [] {
      var n := |ds| - 1;
      PositionalExactly(reg, c, inputs, ds[..n]);
      assert SlotAt(InputNames(c), n) == PlaceOf(c, n);
      WantedIs(c, PlaceOf(c, n));
    }
  }

  lemma SuitEach(reg: Registry, c: Component, ss: seq<Option<Shape>>, ds: seq<Den>)
    requires c.inputs != [] && AllAgree(ss, ds)
    ensures forall i :: 0 <= i < |ds| ==>
              (Suits(reg, ss[i], Wanted(c, PlaceOf(c, i))) <==> Coerce(reg, ds[i], Wanted(c, PlaceOf(c, i))).Some?)
  {
    hide Suits, Coerce, Wanted, PlaceOf;
    forall i | 0 <= i < |ds|
      ensures Suits(reg, ss[i], Wanted(c, PlaceOf(c, i))) <==> Coerce(reg, ds[i], Wanted(c, PlaceOf(c, i))).Some?
    {
      SuitsIs(reg, ss[i], Some(ds[i]), Wanted(c, PlaceOf(c, i)));
    }
  }

  /** Keyword arguments by name, against the keywords in order. */
  ghost predicate KeysAgree(ks: seq<Keyword>, ss: seq<Option<Shape>>, ds: map<string, Den>) {
    && |ks| == |ss|
    && (forall i :: 0 <= i < |ks| ==> ss[i].Some? && ks[i].key in ds)
    && (forall i :: 0 <= i < |ks| && LastKey(ks, i) ==> Agrees(ss[i], Some(ds[ks[i].key])))
    && (forall k :: k in ds ==> LastOf(ks, k))
  }

  ghost predicate LastOf(ks: seq<Keyword>, k: string) { exists i :: 0 <= i < |ks| && ks[i].key == k && LastKey(ks, i) }

  lemma KeyedExactly(reg: Registry, c: Component, inputs: map<string, Args>, ks: seq<Keyword>, ss: seq<Option<Shape>>,
                     ds: map<string, Den>)
    requires KeysAgree(ks, ss, ds)
    ensures WireKeywords(reg, c, inputs, ds).Some? <==> TakesKeys(reg, c, ks, ss)
  {
    hide Coerce, Suits, Wanted, InputType, SlotName, LastKey, WireEach, KeywordValue;
    forall i | 0 <= i < |ks| && LastKey(ks, i)
      ensures KeywordFits(reg, c, ds, ks[i].key) <==> HasInput(c, ks[i].key) && Suits(reg, ss[i], Wanted(c, ks[i].key))
    {
      var k := ks[i].key;
      SuitsIs(reg, ss[i], Some(ds[k]), Wanted(c, k));
      WantedIs(c, k);
      InputNamed(c, k);
    }
  }

  lemma InputNamed(c: Component, name: string)
    ensures name in InputNames(c) <==> HasInput(c, name)
  {
    hide SlotName;
    forall i | 0 <= i < |c.inputs| ensures SlotName(c.inputs[i].id) in InputNames(c) {
      assert InputNames(c)[i] == SlotName(c.inputs[i].id);
    }
  }

  lemma FeedExactly(reg: Registry, c: Component, inputs: map<string, Args>, ks: seq<Keyword>, keyed: seq<Option<Shape>>,
                    ss: seq<Option<Shape>>, feed: FeedDen)
    requires AllAgree(ss, feed.args) && KeysAgree(ks, keyed, feed.kwargs)
    ensures WireFeed(reg, c, inputs, feed).Some? <==> TakesArgs(reg, c, ss) && TakesKeys(reg, c, ks, keyed)
  {
    hide WireKeywords, WirePositional, TakesKeys, Suits, Wanted, PlaceOf, KeysAgree;
    KeyedExactly(reg, c, inputs, ks, keyed, feed.kwargs);
    if feed.args != [] && c.inputs != [] {
      SuitEach(reg, c, ss, feed.args);
      if WireKeywords(reg, c, inputs, feed.kwargs).Some? {
        PositionalExactly(reg, c, WireKeywords(reg, c, inputs, feed.kwargs).value, feed.args);
      }
    }
  }

  // ------------------------------------------------------------------ constructor options

  /** A keyword gives its option at most one value; the compiler takes it when there is one. */
  lemma OneSetting(reg: Registry, sc: Scope, kind: string, k: Keyword)
    requires kind in reg.components
    ensures var o := SettingOf(reg, sc, kind, k);
            && (forall out :: Sets(reg, sc, reg.components[kind], k, out) <==> o == Some(out))
            && (Settable(reg, sc, reg.components[kind], k) <==> o.Some?)
  {
    var o := SettingOf(reg, sc, kind, k);
    if o.Some? { assert Sets(reg, sc, reg.components[kind], k, o.value); }
  }

  function SettingOf(reg: Registry, sc: Scope, kind: string, k: Keyword): Option<OptionValue>
    requires kind in reg.components
  {
    if k.key == "timeframe" || k.key == "session" then SpecialLiteral(k.arg)
    else if k.key !in reg.components[kind].options then None
    else OptionLiteral(reg, k.arg, sc)
  }

  lemma ParamsSnoc(reg: Registry, sc: Scope, kind: string, ks: seq<Keyword>)
    requires kind in reg.components && ks != []
    ensures var before, o := Params(reg, kind, ks[..|ks| - 1], sc), SettingOf(reg, sc, kind, ks[|ks| - 1]);
            Params(reg, kind, ks, sc) ==
              if before.None? || o.None? then None else Some(before.value[ks[|ks| - 1].key := o.value])
  {
    hide OptionLiteral, SpecialLiteral;
  }

  /** Exactly the options named by keywords are set, each by the last keyword of its name. */
  ghost predicate AllSet(reg: Registry, sc: Scope, c: Component, ks: seq<Keyword>, params: map<string, OptionValue>) {
    && (forall k :: k in params <==> exists i :: 0 <= i < |ks| && ks[i].key == k)
    && forall i :: 0 <= i < |ks| && LastKey(ks, i) ==> Sets(reg, sc, c, ks[i], params[ks[i].key])
  }

  lemma AllSetSnoc(reg: Registry, sc: Scope, c: Component, ks: seq<Keyword>, params: map<string, OptionValue>,
                   o: OptionValue)
    requires ks != [] && AllSet(reg, sc, c, ks[..|ks| - 1], params) && Sets(reg, sc, c, ks[|ks| - 1], o)
    ensures AllSet(reg, sc, c, ks, params[ks[|ks| - 1].key := o])
  {
    hide Sets, LastKey;
    var n := |ks| - 1;
    var all := params[ks[n].key := o];
    LastKeySnoc(ks);
    assert forall i :: 0 <= i < n ==> ks[..n][i] == ks[i];
    forall k ensures k in all <==> exists i :: 0 <= i < |ks| && ks[i].key == k {
      if k == ks[n].key { assert ks[n].key == k; }
    }
  }

  /** Constructor keywords are read when every one has a value; the last keyword of a name decides. */
  lemma {:induction false} ParamsExactly(reg: Registry, sc: Scope, kind: string, ks: seq<Keyword>)
    requires kind in reg.components
    ensures Params(reg, kind, ks, sc).Some? <==>
              forall i :: 0 <= i < |ks| ==> Settable(reg, sc, reg.components[kind], ks[i])
    ensures Params(reg, kind, ks, sc).Some? ==>
              AllSet(reg, sc, reg.components[kind], ks, Params(reg, kind, ks, sc).value)
  {
    hide Sets, Settable, SettingOf, Params, AllSet;
    if ks == [] {
      NoParams(reg, sc, kind);
    } else {
      var n := |ks| - 1;
      ParamsExactly(reg, sc, kind, ks[..n]);
      ParamsSnoc(reg, sc, kind, ks);
      OneSetting(reg, sc, kind, ks[n]);
      assert forall i :: 0 <= i < n ==> ks[..n][i] == ks[i];
      if Params(reg, kind, ks, sc).Some? {
        AllSetSnoc(reg, sc, reg.components[kind], ks, Params(reg, kind, ks[..n], sc).value,
                   SettingOf(reg, sc, kind, ks[n]).value);
      }
    }
  }

  lemma NoParams(reg: Registry, sc: Scope, kind: string)
    requires kind in reg.components
    ensures Params(reg, kind, [], sc) == Some(map[]) && AllSet(reg, sc, reg.components[kind], [], map[])
  {
  }

  // ------------------------------------------------------------------------- the theorem

  /** An expression is accepted exactly when it checks; component, handle and recorded type are those checked. */
  lemma {:induction false} TypesExactly(reg: Registry, mode: Mode, sc: Scope, e: Expr)
    ensures Exact(reg, mode, sc, e)
    decreases e, 3
  {
    hide Invoke, Binary, Select, Negate, LogicalNot, Lag, CoerceAll, Nest, Values, DenoteParse, DenoteAll, Period,
         Pair, Choice, Delayed, Unary, Called, Feeds, Suits, Sliced, DenoteName, DenoteHandle, VariableShape,
         MemberShape, Callee, BinOpKind, OperatorName, BinOpTracked, ResultType;
    match e
    case Name(id) => VariableIs(reg, sc, id);
    case Constant(_) =>
    case Attribute(base, attr) =>
      if base.Name? { MemberIs(reg, sc, base.id, attr); } else { TypesExactly(reg, mode, sc, base); }
    case Call(_, _, _) => CallExact(reg, mode, sc, e);
    case BinOp(op, l, r) =>
      TypesExactly(reg, mode, sc, l);
      TypesExactly(reg, mode, sc, r);
      OperatorIs(op);
      PairExact(reg, op, Checked(reg, mode, sc, l), Checked(reg, mode, sc, r), Denote(reg, mode, l, sc),
                Denote(reg, mode, r, sc));
    case Compare(_, _, _) => CompareExact(reg, mode, sc, e);
    case BoolOp(_, _) => ChainExact(reg, mode, sc, e);
    case UnaryOp(op, x) =>
      TypesExactly(reg, mode, sc, x);
      UnaryExact(reg, op, Checked(reg, mode, sc, x), Denote(reg, mode, x, sc));
    case IfExp(test, body, orelse) =>
      TypesExactly(reg, mode, sc, test);
      TypesExactly(reg, mode, sc, body);
      TypesExactly(reg, mode, sc, orelse);
      ChoiceExact(reg, Checked(reg, mode, sc, test), Checked(reg, mode, sc, body), Checked(reg, mode, sc, orelse),
                  Denote(reg, mode, test, sc), Denote(reg, mode, body, sc), Denote(reg, mode, orelse, sc));
    case Subscript(value, slice) =>
      TypesExactly(reg, mode, sc, value);
      SlicedIs(mode, slice);
      if Sliced(mode, slice) {
        DelayedExact(reg, Checked(reg, mode, sc, value), Denote(reg, mode, value, sc), Period(mode, slice).value);
      }
    case _ =>
  }

  lemma {:induction false} CompareExact(reg: Registry, mode: Mode, sc: Scope, e: Expr)
    requires e.Compare?
    ensures Exact(reg, mode, sc, e)
    decreases e, 1
  {
    hide Binary, Pair, BinOpKind, OperatorName;
    if |e.ops| == 1 && |e.comparators| == 1 {
      var l, r := e.first, e.comparators[0];
      TypesExactly(reg, mode, sc, l);
      TypesExactly(reg, mode, sc, r);
      OperatorIs(e.ops[0]);
      PairExact(reg, e.ops[0], Checked(reg, mode, sc, l), Checked(reg, mode, sc, r), Denote(reg, mode, l, sc),
                Denote(reg, mode, r, sc));
    }
  }

  predicate AllThere(ss: seq<Option<Shape>>) { forall i :: 0 <= i < |ss| ==> ss[i].Some? }

  lemma ThereSnoc(before: seq<Option<Shape>>, last: Option<Shape>)
    ensures AllThere(before + [last]) <==> AllThere(before) && last.Some?
  {
    var all := before + [last];
    assert all[|before|] == last;
    if AllThere(all) { forall i | 0 <= i < |before| ensures before[i].Some? { assert all[i].Some?; } }
  }

  lemma {:induction false} AllExact(reg: Registry, mode: Mode, sc: Scope, whole: Expr, es: seq<Expr>)
    requires forall i :: 0 <= i < |es| ==> es[i] < whole
    ensures var ss, ds := CheckedAll(reg, mode, sc, whole, es), DenoteAll(reg, mode, whole, es, sc);
            && (ds.Some? <==> AllThere(ss))
            && (ds.Some? ==> AllAgree(ss, ds.value))
    decreases whole, 0, |es|
  {
    hide Checked, Denote;
    if es != [] {
      var n := |es| - 1;
      AllExact(reg, mode, sc, whole, es[..n]);
      TypesExactly(reg, mode, sc, es[n]);
      assert CheckedAll(reg, mode, sc, whole, es)
          == CheckedAll(reg, mode, sc, whole, es[..n]) + [Checked(reg, mode, sc, es[n])];
      ThereSnoc(CheckedAll(reg, mode, sc, whole, es[..n]), Checked(reg, mode, sc, es[n]));
    }
  }

  lemma {:induction false} KeysExact(reg: Registry, mode: Mode, sc: Scope, whole: Expr, ks: seq<Keyword>)
    requires forall i :: 0 <= i < |ks| ==> ks[i].arg < whole
    ensures var ss, ds := CheckedKeys(reg, mode, sc, whole, ks), DenoteKeywords(reg, mode, whole, ks, sc);
            && (ds.Some? <==> AllThere(ss))
            && (ds.Some? ==> KeysAgree(ks, ss, ds.value))
    decreases whole, 0, |ks|
  {
    hide Checked, Denote, KeysAgree;
    if ks == [] {
      assert KeysAgree(ks, CheckedKeys(reg, mode, sc, whole, ks), map[]) by { NoKeysAgree(); }
    } else {
      var n := |ks| - 1;
      KeysExact(reg, mode, sc, whole, ks[..n]);
      TypesExactly(reg, mode, sc, ks[n].arg);
      var before, last := CheckedKeys(reg, mode, sc, whole, ks[..n]), Checked(reg, mode, sc, ks[n].arg);
      assert CheckedKeys(reg, mode, sc, whole, ks) == before + [last];
      ThereSnoc(before, last);
      if DenoteKeywords(reg, mode, whole, ks, sc).Some? {
        KeysAgreeSnoc(ks, before, last, DenoteKeywords(reg, mode, whole, ks[..n], sc).value,
                      Denote(reg, mode, ks[n].arg, sc).value);
      }
    }
  }

  lemma NoKeysAgree()
    ensures KeysAgree([], [], map[])
  {
  }

  lemma KeysAgreeSnoc(ks: seq<Keyword>, before: seq<Option<Shape>>, last: Option<Shape>, ds: map<string, Den>, d: Den)
    requires ks != [] && KeysAgree(ks[..|ks| - 1], before, ds) && Agrees(last, Some(d))
    ensures KeysAgree(ks, before + [last], ds[ks[|ks| - 1].key := d])
  {
    hide Agrees, LastKey, LastOf;
    var n := |ks| - 1;
    var ss, all, key := before + [last], ds[ks[n].key := d], ks[n].key;
    assert last.Some? by { Something(last, d); }
    LastKeySnoc(ks);
    forall i | 0 <= i < |ks| ensures ss[i].Some? && ks[i].key in all {
      if i < n { assert ks[i] == ks[..n][i] && ss[i] == before[i]; }
    }
    forall i | 0 <= i < |ks| && LastKey(ks, i) ensures Agrees(ss[i], Some(all[ks[i].key])) {
      if i < n { assert ks[i] == ks[..n][i] && ss[i] == before[i]; }
    }
    forall k | k in all ensures LastOf(ks, k) {
      if k != key { assert LastOf(ks[..n], k); }
      LastOfSnoc(ks, k);
    }
  }

  lemma LastKeySnoc(ks: seq<Keyword>)
    requires ks != []
    ensures var n := |ks| - 1;
            && LastKey(ks, n)
            && forall i :: 0 <= i < n ==> (LastKey(ks, i) <==> LastKey(ks[..n], i) && ks[i].key != ks[n].key)
  {
    var n := |ks| - 1;
    forall i | 0 <= i < n && LastKey(ks, i) ensures LastKey(ks[..n], i) && ks[i].key != ks[n].key {
      forall j | i < j < n ensures ks[..n][j].key != ks[..n][i].key { assert ks[j].key != ks[i].key; }
    }
    forall i | 0 <= i < n && LastKey(ks[..n], i) && ks[i].key != ks[n].key ensures LastKey(ks, i) {
      forall j | i < j < |ks| ensures ks[j].key != ks[i].key {
        if j < n { assert ks[..n][j].key != ks[..n][i].key; }
      }
    }
  }

  lemma LastOfSnoc(ks: seq<Keyword>, k: string)
    requires ks != [] && (k == ks[|ks| - 1].key || LastOf(ks[..|ks| - 1], k))
    ensures LastOf(ks, k)
  {
    hide LastKey;
    var n := |ks| - 1;
    LastKeySnoc(ks);
    if k == ks[n].key {
      assert ks[n].key == k && LastKey(ks, n);
    } else {
      var i :| 0 <= i < n && ks[..n][i].key == k && LastKey(ks[..n], i);
      assert ks[i].key == k && LastKey(ks, i);
    }
  }

  lemma Something(s: Option<Shape>, d: Den)
    requires Agrees(s, Some(d))
    ensures s.Some?
  {
  }

  lemma {:induction false} ChainExact(reg: Registry, mode: Mode, sc: Scope, e: Expr)
    requires e.BoolOp?
    ensures Exact(reg, mode, sc, e)
    decreases e, 1
  {
    hide CheckedAll, DenoteAll, Suits, Coerce, Nest, AllAgree, CoerceAll;
    var ss, ds := CheckedAll(reg, mode, sc, e, e.values), DenoteAll(reg, mode, e, e.values, sc);
    AllExact(reg, mode, sc, e, e.values);
    if ds.Some? {
      CoerceAllExactly(reg, ss, ds.value, Boolean);
      var bs := CoerceAll(reg, ds.value, Boolean);
      if bs.Some? && |bs.value| >= 2 {
        NestKind(if e.boolOp == And then "logical_and" else "logical_or", Values(bs.value));
      }
    } else {
      var i :| 0 <= i < |ss| && ss[i].None?;
      NothingSuits(reg, Boolean);
    }
    SameLength(reg, mode, sc, e, e.values);
  }

  lemma NestKind(kind: string, vs: seq<Value>)
    requires |vs| >= 2
    ensures KindOf(Nest(kind, vs)) == kind
  {
  }

  lemma NothingSuits(reg: Registry, target: DataType)
    ensures !Suits(reg, None, target)
  {
  }

  lemma SameLength(reg: Registry, mode: Mode, sc: Scope, whole: Expr, es: seq<Expr>)
    requires forall i :: 0 <= i < |es| ==> es[i] < whole
    ensures |CheckedAll(reg, mode, sc, whole, es)| == |es|
  {
    hide Checked;
  }

  lemma {:induction false} CoerceAllExactly(reg: Registry, ss: seq<Option<Shape>>, ds: seq<Den>, target: DataType)
    requires AllAgree(ss, ds)
    ensures CoerceAll(reg, ds, target).Some? <==> forall i :: 0 <= i < |ss| ==> Suits(reg, ss[i], target)
    ensures CoerceAll(reg, ds, target).Some? ==> |CoerceAll(reg, ds, target).value| == |ds| == |ss|
  {
    hide Coerce, Suits;
    if ds != [] {
      var n := |ds| - 1;
      CoerceAllExactly(reg, ss[..n], ds[..n], target);
      SuitsIs(reg, ss[n], Some(ds[n]), target);
      assert ss == ss[..n] + [ss[n]];
    }
  }

  /** A chain parses, and its feeds can be wired, exactly when it feeds its component. */
  lemma {:induction false} FeedsExact(reg: Registry, mode: Mode, sc: Scope, e: Expr, single: bool)
    requires e.Call?
    ensures DenoteParse(reg, mode, e, single, sc).Some? ==>
              var p := DenoteParse(reg, mode, e, single, sc).value;
              && Callee(e).Some? && p.kind == Callee(e).value.0
              && Params(reg, p.kind, Callee(e).value.1, sc) == Some(p.params)
    ensures Feeds(reg, mode, sc, e, single) && Params(reg, Callee(e).value.0, Callee(e).value.1, sc).Some? <==>
            && DenoteParse(reg, mode, e, single, sc).Some?
            && var p := DenoteParse(reg, mode, e, single, sc).value;
               WireFeeds(reg, reg.components[p.kind], map[], p.feeds).Some?
    decreases e, 1
  {
    hide Params, DenoteAll, DenoteKeywords, CheckedAll, CheckedKeys, TakesArgs, TakesKeys, WireFeed, KeysAgree,
         AllAgree;
    if e.func.Name? {
      FirstCall(reg, mode, sc, e, single);
    } else if e.func.Call? {
      FeedsExact(reg, mode, sc, e.func, false);
      if DenoteParse(reg, mode, e.func, false, sc).Some? { NextCall(reg, mode, sc, e, single); }
    }
  }

  lemma {:induction false} FirstCall(reg: Registry, mode: Mode, sc: Scope, e: Expr, single: bool)
    requires e.Call? && e.func.Name?
    ensures DenoteParse(reg, mode, e, single, sc).Some? ==>
              var p := DenoteParse(reg, mode, e, single, sc).value;
              p.kind == e.func.id && Params(reg, p.kind, e.keywords, sc) == Some(p.params)
    ensures Feeds(reg, mode, sc, e, single) && Params(reg, e.func.id, e.keywords, sc).Some? <==>
            && DenoteParse(reg, mode, e, single, sc).Some?
            && var p := DenoteParse(reg, mode, e, single, sc).value;
               WireFeeds(reg, reg.components[p.kind], map[], p.feeds).Some?
    decreases e, 0
  {
    hide Params, DenoteAll, CheckedAll, TakesArgs, TakesKeys, WireFeed, KeysAgree, AllAgree;
    var kind := e.func.id;
    if kind in reg.components {
      var c := reg.components[kind];
      NoFeeds(reg, c);
      if e.args != [] {
        AllExact(reg, mode, sc, e, e.args);
        if DenoteAll(reg, mode, e, e.args, sc).Some? {
          var feed := FeedDen(DenoteAll(reg, mode, e, e.args, sc).value, map[]);
          OneFeed(reg, c, [], feed);
          NoKeysAgree();
          NothingKeyed(reg, c);
          FeedExactly(reg, c, map[], [], [], CheckedAll(reg, mode, sc, e, e.args), feed);
        } else {
          RefusesArgs(reg, c, CheckedAll(reg, mode, sc, e, e.args));
        }
      }
    }
  }

  lemma NoFeeds(reg: Registry, c: Component)
    ensures WireFeeds(reg, c, map[], []) == Some(map[])
  {
  }

  lemma OneFeed(reg: Registry, c: Component, feeds: seq<FeedDen>, feed: FeedDen)
    ensures WireFeeds(reg, c, map[], feeds + [feed]) ==
              if WireFeeds(reg, c, map[], feeds).None? then None
              else WireFeed(reg, c, WireFeeds(reg, c, map[], feeds).value, feed)
  {
    hide WireFeed;
    assert (feeds + [feed])[..|feeds|] == feeds;
  }

  lemma NothingKeyed(reg: Registry, c: Component)
    ensures TakesKeys(reg, c, [], [])
  {
  }

  lemma RefusesArgs(reg: Registry, c: Component, ss: seq<Option<Shape>>)
    requires !AllThere(ss)
    ensures !TakesArgs(reg, c, ss)
  {
    hide Wanted, PlaceOf, Fits, ShapeType;
    var i :| 0 <= i < |ss| && ss[i].None?;
    if c.inputs != [] { assert !Suits(reg, ss[i], Wanted(c, PlaceOf(c, i))); }
  }

  lemma {:induction false} NextCall(reg: Registry, mode: Mode, sc: Scope, e: Expr, single: bool)
    requires e.Call? && e.func.Call? && DenoteParse(reg, mode, e.func, false, sc).Some?
    requires Callee(e.func).Some? && Callee(e.func).value.0 == DenoteParse(reg, mode, e.func, false, sc).value.kind
    ensures var inner := DenoteParse(reg, mode, e.func, false, sc).value;
            var c := reg.components[inner.kind];
            var keyed := CheckedKeys(reg, mode, sc, e, e.keywords);
            && |keyed| == |e.keywords|
            && (DenoteParse(reg, mode, e, single, sc).Some? ==>
                  var p := DenoteParse(reg, mode, e, single, sc).value;
                  p.kind == inner.kind && p.params == inner.params)
            && (WireFeeds(reg, c, map[], inner.feeds).Some?
                && TakesArgs(reg, c, CheckedAll(reg, mode, sc, e, e.args)) && TakesKeys(reg, c, e.keywords, keyed) <==>
                && DenoteParse(reg, mode, e, single, sc).Some?
                && WireFeeds(reg, c, map[], DenoteParse(reg, mode, e, single, sc).value.feeds).Some?)
    decreases e, 0
  {
    hide Params, DenoteAll, DenoteKeywords, CheckedAll, CheckedKeys, TakesArgs, TakesKeys, WireFeed, WireFeeds,
         KeysAgree, AllAgree, Callee;
    var inner := DenoteParse(reg, mode, e.func, false, sc).value;
    var c := reg.components[inner.kind];
    var ss, keyed := CheckedAll(reg, mode, sc, e, e.args), CheckedKeys(reg, mode, sc, e, e.keywords);
    var args, kwargs := DenoteAll(reg, mode, e, e.args, sc), DenoteKeywords(reg, mode, e, e.keywords, sc);
    AllExact(reg, mode, sc, e, e.args);
    KeysExact(reg, mode, sc, e, e.keywords);
    SameKeys(reg, mode, sc, e, e.keywords);
    if args.None? {
      RefusesArgs(reg, c, ss);
    } else if kwargs.None? {
      RefusesKeys(reg, c, e.keywords, keyed);
    } else {
      var feed := FeedDen(args.value, kwargs.value);
      OneFeed(reg, c, inner.feeds, feed);
      if WireFeeds(reg, c, map[], inner.feeds).Some? {
        FeedExactly(reg, c, WireFeeds(reg, c, map[], inner.feeds).value, e.keywords, keyed, ss, feed);
      }
    }
  }

  lemma SameKeys(reg: Registry, mode: Mode, sc: Scope, whole: Expr, ks: seq<Keyword>)
    requires forall i :: 0 <= i < |ks| ==> ks[i].arg < whole
    ensures |CheckedKeys(reg, mode, sc, whole, ks)| == |ks|
  {
    hide Checked;
  }

  lemma RefusesKeys(reg: Registry, c: Component, ks: seq<Keyword>, ss: seq<Option<Shape>>)
    requires |ks| == |ss| && !AllThere(ss)
    ensures !TakesKeys(reg, c, ks, ss)
  {
    hide Suits, Wanted, HasInput, LastKey;
    var i :| 0 <= i < |ss| && ss[i].None?;
    assert ss[i].None? && 0 <= i < |ks|;
  }

  lemma {:induction false} CallExact(reg: Registry, mode: Mode, sc: Scope, e: Expr)
    requires e.Call?
    ensures Exact(reg, mode, sc, e)
    decreases e, 2, 0
  {
    hide Params, DenoteParse, Feeds, WireFeeds, Callee, OptionsMeaning;
    FeedsExact(reg, mode, sc, e, !e.func.Call?);
    if Feeds(reg, mode, sc, e, !e.func.Call?) { FeedsFind(reg, mode, sc, e, !e.func.Call?); }
  }

  lemma FeedsFind(reg: Registry, mode: Mode, sc: Scope, e: Expr, single: bool)
    requires e.Call? && Feeds(reg, mode, sc, e, single)
    ensures Callee(e).Some? && Callee(e).value.0 in reg.components
  {
    hide TakesArgs, TakesKeys, CheckedAll, CheckedKeys, Callee;
  }
}
