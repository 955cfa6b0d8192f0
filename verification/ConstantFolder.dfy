/**
 Constant folding: which expressions are compile-time constants, what they evaluate to, and
 the rewriting of subscript slices.  Integers are mathematical; the original uses 32 bits.
 */
module ConstantFolder {
  import opened Wrappers
  import opened Ast

  /** std::pow and std::fmod, left uninterpreted. */
  datatype Math = Math(pow: (real, real) -> real, fmod: (real, real) -> real)

  type Table = map<string, Const>

  function ToNumeric(c: Const): Option<Const> {
    match c
    case IntC(_) => Some(c)
    case DoubleC(_) => Some(c)
    case BoolC(b) => Some(IntC(if b then 1 else 0))
    case _ => None
  }

  function ToBool(c: Const): Option<bool> {
    match c
    case BoolC(b) => Some(b)
    case IntC(i) => Some(i != 0)
    case DoubleC(d) => Some(d != 0.0)
    case StrC(s) => Some(s != "")
    case NoneC => None
  }

  function AsReal(c: Const): real
    requires c.IntC? || c.DoubleC?
  {
    if c.IntC? then c.i as real else c.d
  }

  /** C++ remainder: the sign is the dividend's. */
  function TruncatedMod(a: int, b: int): int
    requires b != 0
  {
    if a >= 0 then a % b else -((-a) % b)
  }

  function EvaluateUnaryOp(op: UnaryOpType, operand: Const): Option<Const> {
    match op
    case UAdd => ToNumeric(operand)
    case USub =>
      var n :- ToNumeric(operand);
      Some(if n.IntC? then IntC(-n.i) else DoubleC(-n.d))
    case Not =>
      var b :- ToBool(operand);
      Some(BoolC(!b))
  }

  function EvaluateArithmetic(math: Math, l: Const, op: BinOpType, r: Const): Option<Const>
    requires (l.IntC? || l.DoubleC?) && (r.IntC? || r.DoubleC?)
  {
    var ints := l.IntC? && r.IntC?;
    match op
    case Add => Some(if ints then IntC(l.i + r.i) else DoubleC(AsReal(l) + AsReal(r)))
    case Sub => Some(if ints then IntC(l.i - r.i) else DoubleC(AsReal(l) - AsReal(r)))
    case Mult => Some(if ints then IntC(l.i * r.i) else DoubleC(AsReal(l) * AsReal(r)))
    case Div => if AsReal(r) == 0.0 then None else Some(DoubleC(AsReal(l) / AsReal(r)))
    case Mod =>
      if AsReal(r) == 0.0 then None
      else Some(if ints then IntC(TruncatedMod(l.i, r.i)) else DoubleC(math.fmod(AsReal(l), AsReal(r))))
    case Pow => Some(DoubleC(math.pow(AsReal(l), AsReal(r))))
    case Lt => Some(BoolC(AsReal(l) < AsReal(r)))
    case Gt => Some(BoolC(AsReal(l) > AsReal(r)))
    case LtE => Some(BoolC(AsReal(l) <= AsReal(r)))
    case GtE => Some(BoolC(AsReal(l) >= AsReal(r)))
    case _ => None
  }

  function SameType(l: Const, r: Const): bool {
    (l.IntC? && r.IntC?) || (l.DoubleC? && r.DoubleC?) || (l.BoolC? && r.BoolC?)
    || (l.StrC? && r.StrC?) || (l.NoneC? && r.NoneC?)
  }

  function EvaluateBinOp(math: Math, l: Const, op: BinOpType, r: Const): Option<Const> {
    match op
    case Eq => if !SameType(l, r) then Some(BoolC(false)) else if l.NoneC? then None else Some(BoolC(l == r))
    case NotEq => if !SameType(l, r) then Some(BoolC(true)) else if l.NoneC? then None else Some(BoolC(l != r))
    case And =>
      var a :- ToBool(l);
      var b :- ToBool(r);
      Some(BoolC(a && b))
    case Or =>
      var a :- ToBool(l);
      var b :- ToBool(r);
      Some(BoolC(a || b))
    case _ =>
      var a :- ToNumeric(l);
      var b :- ToNumeric(r);
      EvaluateArithmetic(math, a, op, b)
  }

  function IsConstantExpression(e: Expr, table: Table): bool {
    match e
    case Constant(_) => true
    case Name(id) => id in table
    case UnaryOp(_, x) => IsConstantExpression(x, table)
    case BinOp(_, l, r) => IsConstantExpression(l, table) && IsConstantExpression(r, table)
    case _ => false
  }

  function EvaluateConstant(math: Math, e: Expr, table: Table): Option<Const>
    decreases e, 0
  {
    match e
    case Constant(c) => Some(c)
    case Name(id) => if id in table then Some(table[id]) else None
    case UnaryOp(op, x) =>
      var v :- EvaluateConstant(math, x, table);
      EvaluateUnaryOp(op, v)
    case BinOp(op, l, r) =>
      var a :- EvaluateConstant(math, l, table);
      var b :- EvaluateConstant(math, r, table);
      EvaluateBinOp(math, a, op, b)
    case Compare(first, ops, others) =>
      if |ops| == 1 && |others| == 1 then
        var a :- EvaluateConstant(math, first, table);
        var b :- EvaluateConstant(math, others[0], table);
        EvaluateBinOp(math, a, ops[0], b)
      else None
    case BoolOp(op, values) =>
      if values == [] then None else EvaluateChain(math, e, op, values, table)
    case _ => None
  }

  /** Left-to-right evaluation of `a and b and c`. */
  function EvaluateChain(math: Math, whole: Expr, op: BinOpType, values: seq<Expr>, table: Table): Option<Const>
    requires values != [] && forall i :: 0 <= i < |values| ==> values[i] < whole
    decreases whole, 0, |values|
  {
    var last := values[|values| - 1];
    if |values| == 1 then EvaluateConstant(math, last, table)
    else
      var a :- EvaluateChain(math, whole, op, values[..|values| - 1], table);
      var b :- EvaluateConstant(math, last, table);
      EvaluateBinOp(math, a, op, b)
  }

  // ------------------------------------------------------------------ transformation

  /** A subscript slice that is constant and evaluates becomes that literal. */
  function FoldSlice(math: Math, slice: Expr, table: Table): Expr
    decreases slice, 1
  {
    if IsConstantExpression(slice, table) && EvaluateConstant(math, slice, table).Some?
    then Constant(EvaluateConstant(math, slice, table).value)
    else TransformExpression(math, slice, table)
  }

  function TransformExpression(math: Math, e: Expr, table: Table): Expr
    decreases e, 0
  {
    match e
    case Attribute(base, attr) => Attribute(TransformExpression(math, base, table), attr)
    case Call(func, args, keywords) =>
      Call(TransformExpression(math, func, table), TransformAll(math, e, args, table),
           TransformKeywords(math, e, keywords, table))
    case BinOp(op, l, r) => BinOp(op, TransformExpression(math, l, table), TransformExpression(math, r, table))
    case Compare(first, ops, others) =>
      Compare(TransformExpression(math, first, table), ops, TransformAll(math, e, others, table))
    case BoolOp(op, values) => BoolOp(op, TransformAll(math, e, values, table))
    case UnaryOp(op, x) => UnaryOp(op, TransformExpression(math, x, table))
    case IfExp(t, b, o) =>
      IfExp(TransformExpression(math, t, table), TransformExpression(math, b, table),
            TransformExpression(math, o, table))
    case List(elts) => List(TransformAll(math, e, elts, table))
    case Tuple(members) => Tuple(TransformAll(math, e, members, table))
    case Dict(keys, vals) => Dict(TransformAll(math, e, keys, table), TransformAll(math, e, vals, table))
    case Subscript(value, slice) => Subscript(TransformExpression(math, value, table), FoldSlice(math, slice, table))
    case _ => e
  }

  function TransformAll(math: Math, whole: Expr, es: seq<Expr>, table: Table): (out: seq<Expr>)
    requires forall i :: 0 <= i < |es| ==> es[i] < whole
    ensures |out| == |es|
    decreases whole, 0, |es|
  {
    if es == [] then []
    else
      var n := |es| - 1;
      TransformAll(math, whole, es[..n], table) + [TransformExpression(math, es[n], table)]
  }

  function TransformKeywords(math: Math, whole: Expr, ks: seq<Keyword>, table: Table): (out: seq<Keyword>)
    requires forall i :: 0 <= i < |ks| ==> ks[i].arg < whole
    ensures |out| == |ks|
    decreases whole, 0, |ks|
  {
    if ks == [] then []
    else
      var n := |ks| - 1;
      TransformKeywords(math, whole, ks[..n], table) + [Keyword(ks[n].key, TransformExpression(math, ks[n].arg, table))]
  }

  // ------------------------------------------------------------------------- modules

  /** Every plain name among the targets is recorded with the value. */
  function RecordTargets(table: Table, targets: seq<Expr>, value: Const): Table {
    if targets == [] then table
    else
      var before := RecordTargets(table, targets[..|targets| - 1], value);
      var target := targets[|targets| - 1];
      if target.Name? then before[target.id := value] else before
  }

  /** A statement that assigns a constant expression records it. */
  function Record(math: Math, table: Table, st: Stmt): Table {
    if st.Assign? && IsConstantExpression(st.rhs, table) && EvaluateConstant(math, st.rhs, table).Some?
    then RecordTargets(table, st.targets, EvaluateConstant(math, st.rhs, table).value)
    else table
  }

  function Identify(math: Math, m: Module, table: Table): Table {
    if m == [] then table
    else Record(math, Identify(math, m[..|m| - 1], table), m[|m| - 1])
  }

  function FoldStmt(math: Math, st: Stmt, table: Table): Stmt {
    match st
    case Assign(targets, e) => Assign(targets, TransformExpression(math, e, table))
    case ExprStmt(e) => ExprStmt(TransformExpression(math, e, table))
  }

  function FoldModule(math: Math, m: Module, table: Table): Module {
    seq(|m|, i requires 0 <= i < |m| => FoldStmt(math, m[i], table))
  }

  /** The pass itself.  Its table is filled on every run and never emptied. */
  class Folder {
    const math: Math
    var constantTable: Table

    constructor (math: Math)
      ensures this.math == math && constantTable == map[]
    {
      this.math := math;
      constantTable := map[];
    }

    method IdentifyConstants(m: Module)
      modifies this
      ensures constantTable == Identify(math, m, old(constantTable))
    {
      for i := 0 to |m|
        invariant constantTable == Identify(math, m[..i], old(constantTable))
      {
        assert m[..i + 1][..i] == m[..i];
        if m[i].Assign? && IsConstantExpression(m[i].rhs, constantTable) {
          var value := EvaluateConstant(math, m[i].rhs, constantTable);
          if value.Some? { RecordConstant(m[i].targets, value.value); }
        }
      }
      assert m[..|m|] == m;
    }

    method RecordConstant(targets: seq<Expr>, value: Const)
      modifies this
      ensures constantTable == RecordTargets(old(constantTable), targets, value)
    {
      for i := 0 to |targets|
        invariant constantTable == RecordTargets(old(constantTable), targets[..i], value)
      {
        assert targets[..i + 1][..i] == targets[..i];
        if targets[i].Name? { constantTable := constantTable[targets[i].id := value]; }
      }
      assert targets[..|targets|] == targets;
    }

    method FoldConstants(m: Module) returns (folded: Module)
      ensures folded == FoldModule(math, m, constantTable)
    {
      folded := [];
      for i := 0 to |m|
        invariant folded == FoldModule(math, m, constantTable)[..i]
      {
        match m[i] {
          case Assign(targets, e) => folded := folded + [Assign(targets, TransformExpression(math, e, constantTable))];
          case ExprStmt(e) => folded := folded + [ExprStmt(TransformExpression(math, e, constantTable))];
        }
      }
    }

    /** All constants are identified before any slice is folded. */
    method PreprocessModule(m: Module) returns (folded: Module)
      modifies this
      ensures constantTable == Identify(math, m, old(constantTable))
      ensures folded == FoldModule(math, m, Identify(math, m, old(constantTable)))
    {
      IdentifyConstants(m);
      folded := FoldConstants(m);
    }
  }
}
