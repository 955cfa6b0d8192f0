/** What constant expressions evaluate to, said of the values of their operands. */
module ConstantLaws {
  import opened Wrappers
  import opened Ast
  import opened ConstantFolder

  /** A constant as a number: truth values count as one and zero. */
  function Counted(c: Const): Option<real> {
    match c
    case IntC(i) => Some(i as real)
    case DoubleC(d) => Some(d)
    case BoolC(b) => Some(if b then 1.0 else 0.0)
    case _ => None
  }

  function Whole(c: Const): Option<int> {
    match c
    case IntC(i) => Some(i)
    case BoolC(b) => Some(if b then 1 else 0)
    case _ => None
  }

  /** A constant as a truth value: None is neither. */
  function Truth(c: Const): Option<bool> {
    match c
    case BoolC(b) => Some(b)
    case IntC(i) => Some(i < 0 || i > 0)
    case DoubleC(d) => Some(d < 0.0 || d > 0.0)
    case StrC(s) => Some(|s| > 0)
    case NoneC => None
  }

  /** a + a + ... + a, n times. */
  function Added(a: int, n: nat): int { if n == 0 then 0 else a + Added(a, n - 1) }

  lemma {:induction false} AddedIsTimes(a: int, n: nat)
    ensures Added(a, n) == a * n
  {
    if n > 0 {
      AddedIsTimes(a, n - 1);
      assert a * n == a * (n - 1) + a;
    }
  }

  /** Operands evaluated left and right. */
  predicate Operands(math: Math, l: Expr, r: Expr, table: Table, x: Const, y: Const) {
    EvaluateConstant(math, l, table) == Some(x) && EvaluateConstant(math, r, table) == Some(y)
  }

  function Result(math: Math, op: BinOpType, l: Expr, r: Expr, table: Table): Option<Const> {
    EvaluateConstant(math, BinOp(op, l, r), table)
  }

  lemma ResultIs(math: Math, op: BinOpType, l: Expr, r: Expr, table: Table, x: Const, y: Const)
    requires Operands(math, l, r, table, x, y)
    ensures Result(math, op, l, r, table) == EvaluateBinOp(math, x, op, y)
  {
    hide EvaluateBinOp;
  }

  predicate IsInt(c: Option<Const>) { c.Some? && c.value.IntC? }

  predicate IsReal(c: Option<Const>) { c.Some? && c.value.DoubleC? }

  predicate Is(c: Option<Const>, b: bool) { c == Some(BoolC(b)) }

  /** Integers, truth values included: sum, difference and product are integers again. */
  lemma WholeArithmetic(math: Math, l: Expr, r: Expr, table: Table, x: Const, y: Const)
    requires Operands(math, l, r, table, x, y) && Whole(x).Some? && Whole(y).Some?
    ensures var a, b := Whole(x).value, Whole(y).value;
            var sum, difference := Result(math, Add, l, r, table), Result(math, Sub, l, r, table);
            && IsInt(sum) && sum.value.i - b == a && IsInt(difference) && difference.value.i + b == a
    ensures var a, b, product := Whole(x).value, Whole(y).value, Result(math, Mult, l, r, table);
            IsInt(product) && product.value.i == if b >= 0 then Added(a, b) else -Added(a, -b)
  {
    hide EvaluateConstant, Result, Operands;
    var a, b := Whole(x).value, Whole(y).value;
    AddedIsTimes(a, if b >= 0 then b else -b);
    ResultIs(math, Add, l, r, table, x, y);
    ResultIs(math, Sub, l, r, table, x, y);
    ResultIs(math, Mult, l, r, table, x, y);
  }

  function Size(b: int): nat { if b < 0 then -b else b }

  /** a is q times b, and m is left. */
  predicate Leaves(a: int, b: int, q: int, m: int) { a == b * q + m }

  /** The remainder of integers has the sign of the dividend; only a zero divisor fails. */
  lemma WholeRemainder(math: Math, l: Expr, r: Expr, table: Table, x: Const, y: Const)
    requires Operands(math, l, r, table, x, y) && Whole(x).Some? && Whole(y).Some?
    ensures var a, b, rest := Whole(x).value, Whole(y).value, Result(math, Mod, l, r, table);
            && (rest.None? <==> b == 0)
            && (b != 0 ==>
                  && IsInt(rest) && (exists q :: Leaves(a, b, q, rest.value.i)) && Size(rest.value.i) < Size(b)
                  && (rest.value.i > 0 ==> a > 0) && (rest.value.i < 0 ==> a < 0))
  {
    hide EvaluateConstant, EvaluateBinOp, Result, Operands, TruncatedMod, Whole;
    var a, b := Whole(x).value, Whole(y).value;
    ResultIs(math, Mod, l, r, table, x, y);
    RemainderIs(math, x, y);
    if b != 0 { Truncates(a, b); }
  }

  lemma RemainderIs(math: Math, x: Const, y: Const)
    requires Whole(x).Some? && Whole(y).Some?
    ensures EvaluateBinOp(math, x, Mod, y) ==
              if Whole(y).value == 0 then None else Some(IntC(TruncatedMod(Whole(x).value, Whole(y).value)))
  {
    hide TruncatedMod;
  }

  lemma Truncates(a: int, b: int)
    requires b != 0
    ensures var m := TruncatedMod(a, b);
            (exists q :: Leaves(a, b, q, m)) && Size(m) < Size(b) && (m > 0 ==> a > 0) && (m < 0 ==> a < 0)
  {
    if a >= 0 {
      Divided(a, b);
      assert Leaves(a, b, a / b, TruncatedMod(a, b));
    } else {
      Divided(-a, b);
      assert Leaves(a, b, -((-a) / b), TruncatedMod(a, b));
    }
  }

  lemma Divided(a: nat, b: int)
    requires b != 0
    ensures a == b * (a / b) + a % b && 0 <= a % b < Size(b) && b * (-(a / b)) == -(b * (a / b))
    ensures a == 0 ==> a % b == 0
  {
  }

  /** Only a zero divisor, or something that is no number, makes a numeric operator fail. */
  lemma NumericFailures(math: Math, op: BinOpType, l: Expr, r: Expr, table: Table, x: Const, y: Const)
    requires Operands(math, l, r, table, x, y) && op in {Add, Sub, Mult, Div, Mod, Pow, Lt, Gt, LtE, GtE}
    ensures Result(math, op, l, r, table).None? <==>
            || Counted(x).None? || Counted(y).None? || (op in {Div, Mod} && Counted(y).value == 0.0)
  {
    hide EvaluateConstant, Result, Operands;
    ResultIs(math, op, l, r, table, x, y);
  }

  /** With a real among the operands the results are real; quotients and powers always are. */
  lemma RealArithmetic(math: Math, l: Expr, r: Expr, table: Table, x: Const, y: Const)
    requires Operands(math, l, r, table, x, y) && Counted(x).Some? && Counted(y).Some?
    ensures Whole(x).None? || Whole(y).None? ==>
              var a, b := Counted(x).value, Counted(y).value;
              var sum, difference := Result(math, Add, l, r, table), Result(math, Sub, l, r, table);
              && IsReal(sum) && sum.value.d - b == a && IsReal(difference) && difference.value.d + b == a
              && IsReal(Result(math, Mult, l, r, table)) && Result(math, Mult, l, r, table).value.d == a * b
              && (b != 0.0 ==> Result(math, Mod, l, r, table) == Some(DoubleC(math.fmod(a, b))))
    ensures var a, b, quotient := Counted(x).value, Counted(y).value, Result(math, Div, l, r, table);
            && (b != 0.0 ==> IsReal(quotient) && quotient.value.d * b == a)
            && Result(math, Pow, l, r, table) == Some(DoubleC(math.pow(a, b)))
  {
    hide EvaluateConstant, EvaluateBinOp, Result, Operands, Counted, Whole;
    var a, b := Counted(x).value, Counted(y).value;
    ResultIs(math, Add, l, r, table, x, y);
    ResultIs(math, Sub, l, r, table, x, y);
    ResultIs(math, Mult, l, r, table, x, y);
    ResultIs(math, Mod, l, r, table, x, y);
    ResultIs(math, Div, l, r, table, x, y);
    ResultIs(math, Pow, l, r, table, x, y);
    if Whole(x).None? || Whole(y).None? { RealsAre(math, x, y); }
    QuotientIs(math, x, y);
    if b != 0.0 { Quotients(a, b); }
  }

  lemma RealsAre(math: Math, x: Const, y: Const)
    requires Counted(x).Some? && Counted(y).Some? && (Whole(x).None? || Whole(y).None?)
    ensures var a, b := Counted(x).value, Counted(y).value;
            && EvaluateBinOp(math, x, Add, y) == Some(DoubleC(a + b))
            && EvaluateBinOp(math, x, Sub, y) == Some(DoubleC(a - b))
            && IsReal(EvaluateBinOp(math, x, Mult, y)) && EvaluateBinOp(math, x, Mult, y).value.d == a * b
            && (b != 0.0 ==> EvaluateBinOp(math, x, Mod, y) == Some(DoubleC(math.fmod(a, b))))
  {
    hide AsReal, EvaluateArithmetic, Counted, Whole, ToNumeric;
    NumberIs(x);
    NumberIs(y);
    RealOperations(math, ToNumeric(x).value, ToNumeric(y).value);
  }

  lemma RealOperations(math: Math, m: Const, n: Const)
    requires (m.IntC? || m.DoubleC?) && (n.IntC? || n.DoubleC?) && !(m.IntC? && n.IntC?)
    ensures EvaluateArithmetic(math, m, Add, n) == Some(DoubleC(AsReal(m) + AsReal(n)))
    ensures EvaluateArithmetic(math, m, Sub, n) == Some(DoubleC(AsReal(m) - AsReal(n)))
    ensures var p := EvaluateArithmetic(math, m, Mult, n); IsReal(p) && p.value.d == AsReal(m) * AsReal(n)
    ensures AsReal(n) != 0.0 ==>
              EvaluateArithmetic(math, m, Mod, n) == Some(DoubleC(math.fmod(AsReal(m), AsReal(n))))
  {
    hide AsReal;
  }

  lemma NumberIs(c: Const)
    requires Counted(c).Some?
    ensures ToNumeric(c).Some? && (ToNumeric(c).value.IntC? || ToNumeric(c).value.DoubleC?)
    ensures AsReal(ToNumeric(c).value) == Counted(c).value
    ensures ToNumeric(c).value.IntC? <==> Whole(c).Some?
  {
  }

  lemma QuotientIs(math: Math, x: Const, y: Const)
    requires Counted(x).Some? && Counted(y).Some?
    ensures var a, b := Counted(x).value, Counted(y).value;
            && (b != 0.0 ==> EvaluateBinOp(math, x, Div, y) == Some(DoubleC(a / b)))
            && EvaluateBinOp(math, x, Pow, y) == Some(DoubleC(math.pow(a, b)))
  {
  }

  lemma Quotients(a: real, b: real)
    requires b != 0.0
    ensures (a / b) * b == a
  {
  }

  /** Orders compare numbers. */
  lemma Orders(math: Math, l: Expr, r: Expr, table: Table, x: Const, y: Const)
    requires Operands(math, l, r, table, x, y) && Counted(x).Some? && Counted(y).Some?
    ensures var a, b := Counted(x).value, Counted(y).value;
            && Is(Result(math, Lt, l, r, table), a < b) && Is(Result(math, Gt, l, r, table), b < a)
            && Is(Result(math, LtE, l, r, table), !(b < a)) && Is(Result(math, GtE, l, r, table), !(a < b))
  {
    hide EvaluateConstant, Result, Operands;
    ResultIs(math, Lt, l, r, table, x, y);
    ResultIs(math, Gt, l, r, table, x, y);
    ResultIs(math, LtE, l, r, table, x, y);
    ResultIs(math, GtE, l, r, table, x, y);
  }

  /** Equality is of type and value; only None has none with None. */
  lemma Equalities(math: Math, l: Expr, r: Expr, table: Table, x: Const, y: Const)
    requires Operands(math, l, r, table, x, y)
    ensures Result(math, Eq, l, r, table).None? <==> x.NoneC? && y.NoneC?
    ensures Result(math, NotEq, l, r, table).None? <==> x.NoneC? && y.NoneC?
    ensures !(x.NoneC? && y.NoneC?) ==>
              Is(Result(math, Eq, l, r, table), x == y) && Is(Result(math, NotEq, l, r, table), x != y)
  {
    hide EvaluateConstant, Result, Operands;
    ResultIs(math, Eq, l, r, table, x, y);
    ResultIs(math, NotEq, l, r, table, x, y);
  }

  /** Conjunction and disjunction of truth values; only None has none. */
  lemma Connectives(math: Math, l: Expr, r: Expr, table: Table, x: Const, y: Const)
    requires Operands(math, l, r, table, x, y)
    ensures Result(math, And, l, r, table).None? <==> x.NoneC? || y.NoneC?
    ensures Result(math, Or, l, r, table).None? <==> x.NoneC? || y.NoneC?
    ensures !x.NoneC? && !y.NoneC? ==>
              var a, b := Truth(x).value, Truth(y).value;
              Is(Result(math, And, l, r, table), a && b) && Is(Result(math, Or, l, r, table), a || b)
  {
    hide EvaluateConstant, Result, Operands;
    ResultIs(math, And, l, r, table, x, y);
    ResultIs(math, Or, l, r, table, x, y);
  }

  /** Signs and negation. */
  lemma Unaries(math: Math, e: Expr, table: Table, x: Const)
    requires EvaluateConstant(math, e, table) == Some(x)
    ensures var minus, plus := EvaluateConstant(math, UnaryOp(USub, e), table),
                               EvaluateConstant(math, UnaryOp(UAdd, e), table);
            && (minus.None? <==> Counted(x).None?) && (plus.None? <==> Counted(x).None?)
            && (Whole(x).Some? ==>
                  && IsInt(minus) && minus.value.i + Whole(x).value == 0
                  && IsInt(plus) && plus.value.i == Whole(x).value)
            && (x.DoubleC? ==> IsReal(minus) && minus.value.d + x.d == 0.0 && plus == Some(x))
    ensures var negation := EvaluateConstant(math, UnaryOp(Not, e), table);
            && (negation.None? <==> x.NoneC?)
            && (!x.NoneC? ==> Is(negation, !Truth(x).value))
  {
  }

  /** Literals are themselves, names what the table has; an operation needs its operands. */
  lemma Atoms(math: Math, c: Const, id: string, op: BinOpType, un: UnaryOpType, l: Expr, r: Expr, table: Table)
    ensures EvaluateConstant(math, Constant(c), table) == Some(c)
    ensures EvaluateConstant(math, Name(id), table).Some? <==> id in table
    ensures id in table ==> EvaluateConstant(math, Name(id), table) == Some(table[id])
    ensures EvaluateConstant(math, l, table).None? || EvaluateConstant(math, r, table).None? ==>
              Result(math, op, l, r, table).None?
    ensures EvaluateConstant(math, l, table).None? ==> EvaluateConstant(math, UnaryOp(un, l), table).None?
  {
    hide EvaluateBinOp, EvaluateUnaryOp;
  }

  /** A single comparison is the operator; there is no value of more or fewer. */
  lemma Comparisons(math: Math, first: Expr, ops: seq<BinOpType>, others: seq<Expr>, table: Table)
    ensures EvaluateConstant(math, Compare(first, ops, others), table) ==
              if |ops| == 1 && |others| == 1 then Result(math, ops[0], first, others[0], table) else None
  {
    hide EvaluateBinOp;
  }

  ghost predicate Evaluated(math: Math, values: seq<Expr>, table: Table, xs: seq<Const>) {
    |values| == |xs| && forall i :: 0 <= i < |xs| ==> EvaluateConstant(math, values[i], table) == Some(xs[i])
  }

  predicate Decided(xs: seq<Const>) { forall i :: 0 <= i < |xs| ==> Truth(xs[i]).Some? }

  /** All hold, or some do. */
  predicate Chained(op: BinOpType, xs: seq<Const>) {
    if op.And? then forall i :: 0 <= i < |xs| ==> Truth(xs[i]) == Some(true)
    else exists i :: 0 <= i < |xs| && Truth(xs[i]) == Some(true)
  }

  lemma Connected(math: Math, op: BinOpType, x: Const, y: Const)
    requires op in {And, Or}
    ensures EvaluateBinOp(math, x, op, y) ==
              if Decided([x, y]) then Some(BoolC(Chained(op, [x, y]))) else None
  {
    assert [x, y][0] == x && [x, y][1] == y;
  }

  lemma ChainedSnoc(op: BinOpType, xs: seq<Const>, b: bool, y: Const)
    requires op in {And, Or} && Decided(xs) && b == Chained(op, xs) && Truth(y).Some?
    ensures Decided(xs + [y]) && Chained(op, xs + [y]) == Chained(op, [BoolC(b), y])
  {
    hide Truth;
    var all := xs + [y];
    assert [BoolC(b), y][0] == BoolC(b) && [BoolC(b), y][1] == y && Truth(BoolC(b)) == Some(b) by { Booleans(b); }
    assert all[|xs|] == y && forall i :: 0 <= i < |xs| ==> all[i] == xs[i];
  }

  lemma Booleans(b: bool)
    ensures Truth(BoolC(b)) == Some(b)
  {
  }

  lemma DecidedSnoc(xs: seq<Const>, y: Const)
    ensures Decided(xs + [y]) <==> Decided(xs) && Truth(y).Some?
  {
    hide Truth;
    var all := xs + [y];
    assert all[|xs|] == y && forall i :: 0 <= i < |xs| ==> all[i] == xs[i];
  }

  lemma ChainStep(math: Math, op: BinOpType, whole: Expr, values: seq<Expr>, table: Table)
    requires |values| >= 2 && forall i :: 0 <= i < |values| ==> values[i] < whole
    ensures var n := |values| - 1;
            var a, b := EvaluateChain(math, whole, op, values[..n], table), EvaluateConstant(math, values[n], table);
            EvaluateChain(math, whole, op, values, table) ==
              if a.None? || b.None? then None else EvaluateBinOp(math, a.value, op, b.value)
    ensures |values| == 2 ==>
              EvaluateChain(math, whole, op, values[..1], table) == EvaluateConstant(math, values[0], table)
  {
    hide EvaluateConstant, EvaluateBinOp;
  }

  lemma {:induction false} Chains(math: Math, op: BinOpType, whole: Expr, values: seq<Expr>, table: Table,
                                  xs: seq<Const>)
    requires op in {And, Or} && |values| >= 2 && Evaluated(math, values, table, xs)
    requires forall i :: 0 <= i < |values| ==> values[i] < whole
    ensures EvaluateChain(math, whole, op, values, table) ==
              if Decided(xs) then Some(BoolC(Chained(op, xs))) else None
  {
    hide EvaluateConstant, EvaluateChain, EvaluateBinOp, Decided, Chained, Truth;
    var n := |values| - 1;
    var y := xs[n];
    assert xs == xs[..n] + [y];
    ChainStep(math, op, whole, values, table);
    if n == 1 {
      assert xs == [xs[0], y];
      Connected(math, op, xs[0], y);
    } else {
      Chains(math, op, whole, values[..n], table, xs[..n]);
      DecidedSnoc(xs[..n], y);
      if Decided(xs[..n]) {
        var b := Chained(op, xs[..n]);
        Connected(math, op, BoolC(b), y);
        PairDecided(b, y);
        if Truth(y).Some? { ChainedSnoc(op, xs[..n], b, y); }
      }
    }
  }

  lemma PairDecided(b: bool, y: Const)
    ensures Decided([BoolC(b), y]) <==> Truth(y).Some?
  {
    assert [BoolC(b), y][0] == BoolC(b) && [BoolC(b), y][1] == y;
  }

  /** A chain of `and` or `or` holds when all, or some, of its values do; only None has no truth value. */
  lemma BooleanChains(math: Math, op: BinOpType, values: seq<Expr>, table: Table, xs: seq<Const>)
    requires op in {And, Or} && |values| >= 2 && Evaluated(math, values, table, xs)
    ensures EvaluateConstant(math, BoolOp(op, values), table) ==
              if Decided(xs) then Some(BoolC(Chained(op, xs))) else None
  {
    hide EvaluateChain, Evaluated, Decided, Chained;
    Chains(math, op, BoolOp(op, values), values, table, xs);
  }

  // --------------------------------------------------------------- what is a constant

  /** Constant expressions are built from literals and recorded names by unary and binary operators. */
  lemma ConstantForms(e: Expr, table: Table)
    ensures IsConstantExpression(e, table) <==>
            || e.Constant? || (e.Name? && e.id in table)
            || (e.UnaryOp? && IsConstantExpression(e.operand, table))
            || (e.BinOp? && IsConstantExpression(e.left, table) && IsConstantExpression(e.right, table))
  {
  }

  /** An assignment of a constant gives every name among its targets that value, and nothing else changes. */
  lemma RecordedExactly(math: Math, table: Table, st: Stmt, x: string)
    ensures var value := if st.Assign? && IsConstantExpression(st.rhs, table)
                         then EvaluateConstant(math, st.rhs, table) else None;
            var after := Record(math, table, st);
            if value.Some? && Name(x) in st.targets then x in after && after[x] == value.value
            else (x in after <==> x in table) && (x in table ==> after[x] == table[x])
  {
    hide EvaluateConstant, IsConstantExpression;
    if st.Assign? && EvaluateConstant(math, st.rhs, table).Some? {
      TargetsExactly(table, st.targets, EvaluateConstant(math, st.rhs, table).value, x);
    }
  }

  lemma {:induction false} TargetsExactly(table: Table, targets: seq<Expr>, value: Const, x: string)
    ensures var after := RecordTargets(table, targets, value);
            if Name(x) in targets then x in after && after[x] == value
            else (x in after <==> x in table) && (x in table ==> after[x] == table[x])
  {
    if targets != [] {
      var n := |targets| - 1;
      TargetsExactly(table, targets[..n], value, x);
      assert targets == targets[..n] + [targets[n]];
    }
  }
}
