/**
 Constant folding preserves meaning: folded programs, read literally, mean what the source means
 when its slices are evaluated with the recorded constants.
 */
module FoldingMeaning {
  import opened Wrappers
  import opened Ast
  import opened Registry
  import opened ConstantFolder
  import opened Denotation
  import opened ProgramMeaning

  // -------------------------------------------------------------------------- slices

  /** Folding changes subscript slices and nothing about the form of an expression. */
  lemma SameForm(math: Math, e: Expr, table: Table)
    ensures var f := TransformExpression(math, e, table);
            && (f.Name? <==> e.Name?) && (e.Name? ==> f == e)
            && (f.Constant? <==> e.Constant?) && (e.Constant? ==> f == e)
            && (f.Call? <==> e.Call?) && (f.Attribute? <==> e.Attribute?)
  {
  }

  /**
   A folded slice is accepted exactly when the original one evaluates to a nonzero integer, and
   then gives that period; the branch for a negated literal is never taken.
   */
  lemma FoldedSlice(math: Math, slice: Expr, table: Table)
    ensures LiteralPeriod(FoldSlice(math, slice, table)) == SourcePeriod(math, slice, table)
    ensures FoldSlice(math, slice, table).UnaryOp? && FoldSlice(math, slice, table).unOp == USub ==>
              !(FoldSlice(math, slice, table).operand.Constant? && FoldSlice(math, slice, table).operand.c.IntC?)
  {
    if slice.UnaryOp? {
      SameForm(math, slice.operand, table);
      if slice.operand.Constant? {
        assert IsConstantExpression(slice.operand, table);
        assert EvaluateConstant(math, slice.operand, table) == Some(slice.operand.c);
      }
    }
  }

  lemma TransformAllSnoc(math: Math, whole: Expr, es: seq<Expr>, table: Table)
    requires es != [] && forall i :: 0 <= i < |es| ==> es[i] < whole
    ensures var f, n := TransformAll(math, whole, es, table), |es| - 1;
            f == TransformAll(math, whole, es[..n], table) + [TransformExpression(math, es[n], table)]
            && f[..n] == TransformAll(math, whole, es[..n], table) && f[n] == TransformExpression(math, es[n], table)
  {
  }

  lemma TransformKeywordsSnoc(math: Math, whole: Expr, ks: seq<Keyword>, table: Table)
    requires ks != [] && forall i :: 0 <= i < |ks| ==> ks[i].arg < whole
    ensures var f, n := TransformKeywords(math, whole, ks, table), |ks| - 1;
            var last := Keyword(ks[n].key, TransformExpression(math, ks[n].arg, table));
            f == TransformKeywords(math, whole, ks[..n], table) + [last]
            && f[..n] == TransformKeywords(math, whole, ks[..n], table) && f[n] == last
  {
  }

  // ---------------------------------------------------------------------- idempotence

  lemma {:induction false} FoldTwice(math: Math, e: Expr, table: Table)
    ensures var f := TransformExpression(math, e, table); TransformExpression(math, f, table) == f
    decreases e, 0
  {
    var f := TransformExpression(math, e, table);
    match e
    case Attribute(base, _) => FoldTwice(math, base, table);
    case Call(func, args, keywords) =>
      FoldTwice(math, func, table);
      FoldAllTwice(math, e, args, f, table);
      FoldKeywordsTwice(math, e, keywords, f, table);
    case BinOp(_, l, r) => FoldTwice(math, l, table); FoldTwice(math, r, table);
    case Compare(first, _, others) => FoldTwice(math, first, table); FoldAllTwice(math, e, others, f, table);
    case BoolOp(_, values) => FoldAllTwice(math, e, values, f, table);
    case UnaryOp(_, x) => FoldTwice(math, x, table);
    case IfExp(a, b, c) => FoldTwice(math, a, table); FoldTwice(math, b, table); FoldTwice(math, c, table);
    case List(elts) => FoldAllTwice(math, e, elts, f, table);
    case Tuple(members) => FoldAllTwice(math, e, members, f, table);
    case Dict(keys, vals) => FoldAllTwice(math, e, keys, f, table); FoldAllTwice(math, e, vals, f, table);
    case Subscript(value, slice) => FoldTwice(math, value, table); FoldSliceTwice(math, slice, table);
    case _ =>
  }

  lemma {:induction false} FoldSliceTwice(math: Math, slice: Expr, table: Table)
    ensures FoldSlice(math, FoldSlice(math, slice, table), table) == FoldSlice(math, slice, table)
    decreases slice, 1
  {
    if IsConstantExpression(slice, table) {
      ConstantStays(math, slice, table);
    } else {
      NonConstantStays(math, slice, table);
    }
    FoldTwice(math, slice, table);
  }

  /** A constant expression contains no subscript. */
  lemma {:induction false} ConstantStays(math: Math, e: Expr, table: Table)
    requires IsConstantExpression(e, table)
    ensures TransformExpression(math, e, table) == e
  {
    match e
    case UnaryOp(_, x) => ConstantStays(math, x, table);
    case BinOp(_, l, r) => ConstantStays(math, l, table); ConstantStays(math, r, table);
    case _ =>
  }

  lemma {:induction false} NonConstantStays(math: Math, e: Expr, table: Table)
    requires !IsConstantExpression(e, table)
    ensures !IsConstantExpression(TransformExpression(math, e, table), table)
  {
    match e
    case UnaryOp(_, x) => NonConstantStays(math, x, table);
    case BinOp(_, l, r) =>
      if IsConstantExpression(l, table) { NonConstantStays(math, r, table); } else { NonConstantStays(math, l, table); }
    case _ =>
  }

  lemma {:induction false} FoldAllTwice(math: Math, whole: Expr, es: seq<Expr>, folded: Expr, table: Table)
    requires forall i :: 0 <= i < |es| ==> es[i] < whole
    requires forall i :: 0 <= i < |es| ==> TransformAll(math, whole, es, table)[i] < folded
    ensures TransformAll(math, folded, TransformAll(math, whole, es, table), table) ==
              TransformAll(math, whole, es, table)
    decreases whole, 0, |es|
  {
    hide TransformExpression;
    if es != [] {
      var n := |es| - 1;
      TransformAllSnoc(math, whole, es, table);
      FoldAllTwice(math, whole, es[..n], folded, table);
      FoldTwice(math, es[n], table);
    }
  }

  lemma {:induction false} FoldKeywordsTwice(math: Math, whole: Expr, ks: seq<Keyword>, folded: Expr, table: Table)
    requires forall i :: 0 <= i < |ks| ==> ks[i].arg < whole
    requires forall i :: 0 <= i < |ks| ==> TransformKeywords(math, whole, ks, table)[i].arg < folded
    ensures TransformKeywords(math, folded, TransformKeywords(math, whole, ks, table), table) ==
              TransformKeywords(math, whole, ks, table)
    decreases whole, 0, |ks|
  {
    hide TransformExpression;
    if ks != [] {
      var n := |ks| - 1;
      TransformKeywordsSnoc(math, whole, ks, table);
      FoldKeywordsTwice(math, whole, ks[..n], folded, table);
      FoldTwice(math, ks[n].arg, table);
    }
  }

  // -------------------------------------------------------------- meaning of expressions

  /** Schemas and the like contain no subscripts, so folding does not touch them. */
  ghost predicate LiteralsStable(reg: Registry, math: Math, table: Table) {
    forall e: Expr {:trigger reg.literalCall(e)} ::
      e.Call? ==> reg.literalCall(TransformExpression(math, e, table)) == reg.literalCall(e)
  }

  lemma OptionKept(reg: Registry, math: Math, e: Expr, table: Table, sc: Scope)
    requires LiteralsStable(reg, math, table)
    ensures OptionLiteral(reg, TransformExpression(math, e, table), sc) == OptionLiteral(reg, e, sc)
    ensures SpecialLiteral(TransformExpression(math, e, table)) == SpecialLiteral(e)
  {
    SameForm(math, e, table);
  }

  lemma {:induction false} ParamsKept(reg: Registry, math: Math, kind: string, whole: Expr, ks: seq<Keyword>,
                                      table: Table, sc: Scope)
    requires kind in reg.components && LiteralsStable(reg, math, table)
    requires forall i :: 0 <= i < |ks| ==> ks[i].arg < whole
    ensures Params(reg, kind, TransformKeywords(math, whole, ks, table), sc) == Params(reg, kind, ks, sc)
  {
    hide TransformExpression, TransformKeywords, OptionLiteral, SpecialLiteral, LiteralsStable;
    if ks != [] {
      var n := |ks| - 1;
      TransformKeywordsSnoc(math, whole, ks, table);
      ParamsKept(reg, math, kind, whole, ks[..n], table, sc);
      OptionKept(reg, math, ks[n].arg, table, sc);
    }
  }

  /** Folding an expression and reading it literally is reading it with the constants at hand. */
  lemma {:induction false} MeaningKept(reg: Registry, math: Math, e: Expr, table: Table, sc: Scope)
    requires LiteralsStable(reg, math, table)
    ensures Denote(reg, Folded, TransformExpression(math, e, table), sc) == Denote(reg, Source(math, table), e, sc)
    decreases e, 2
  {
    hide Invoke, Binary, Select, Negate, LogicalNot, Lag, CoerceAll, Nest, Values, DenoteParse, DenoteAll, Literal,
         DenoteName, DenoteHandle, LiteralPeriod, SourcePeriod, FoldSlice, LiteralsStable;
    match e
    case Attribute(base, _) => SameForm(math, base, table); MeaningKept(reg, math, base, table, sc);
    case Call(_, _, _) => CallKept(reg, math, e, table, sc);
    case BinOp(_, l, r) => MeaningKept(reg, math, l, table, sc); MeaningKept(reg, math, r, table, sc);
    case Compare(_, _, _) => CompareKept(reg, math, e, table, sc);
    case BoolOp(_, values) => AllKept(reg, math, e, values, TransformExpression(math, e, table), table, sc);
    case UnaryOp(_, x) => MeaningKept(reg, math, x, table, sc);
    case IfExp(a, b, c) =>
      MeaningKept(reg, math, a, table, sc);
      MeaningKept(reg, math, b, table, sc);
      MeaningKept(reg, math, c, table, sc);
    case Subscript(value, slice) =>
      MeaningKept(reg, math, value, table, sc);
      FoldedSlice(math, slice, table);
    case _ =>
  }

  lemma {:induction false} CallKept(reg: Registry, math: Math, e: Expr, table: Table, sc: Scope)
    requires LiteralsStable(reg, math, table) && e.Call?
    ensures Denote(reg, Folded, TransformExpression(math, e, table), sc) == Denote(reg, Source(math, table), e, sc)
    decreases e, 1
  {
    hide Invoke, DenoteParse, LiteralsStable;
    SameForm(math, e.func, table);
    ParseKept(reg, math, e, !e.func.Call?, table, sc);
  }

  lemma {:induction false} CompareKept(reg: Registry, math: Math, e: Expr, table: Table, sc: Scope)
    requires LiteralsStable(reg, math, table) && e.Compare?
    ensures Denote(reg, Folded, TransformExpression(math, e, table), sc) == Denote(reg, Source(math, table), e, sc)
    decreases e, 1
  {
    hide Binary, DenoteParse, DenoteAll, LiteralsStable;
    if |e.comparators| == 1 {
      MeaningKept(reg, math, e.first, table, sc);
      MeaningKept(reg, math, e.comparators[0], table, sc);
      assert TransformAll(math, e, e.comparators, table)[0] == TransformExpression(math, e.comparators[0], table);
    }
  }

  lemma {:induction false} AllKept(reg: Registry, math: Math, whole: Expr, es: seq<Expr>, folded: Expr, table: Table,
                                   sc: Scope)
    requires LiteralsStable(reg, math, table) && forall i :: 0 <= i < |es| ==> es[i] < whole
    requires forall i :: 0 <= i < |es| ==> TransformAll(math, whole, es, table)[i] < folded
    ensures DenoteAll(reg, Folded, folded, TransformAll(math, whole, es, table), sc)
            == DenoteAll(reg, Source(math, table), whole, es, sc)
    decreases whole, 0, |es|
  {
    hide TransformExpression, TransformAll, Denote, DenoteParse, LiteralsStable;
    if es != [] {
      var n := |es| - 1;
      TransformAllSnoc(math, whole, es, table);
      AllKept(reg, math, whole, es[..n], folded, table, sc);
      MeaningKept(reg, math, es[n], table, sc);
    }
  }

  lemma {:induction false} KeywordsKept(reg: Registry, math: Math, whole: Expr, ks: seq<Keyword>, folded: Expr,
                                        table: Table, sc: Scope)
    requires LiteralsStable(reg, math, table) && forall i :: 0 <= i < |ks| ==> ks[i].arg < whole
    requires forall i :: 0 <= i < |ks| ==> TransformKeywords(math, whole, ks, table)[i].arg < folded
    ensures DenoteKeywords(reg, Folded, folded, TransformKeywords(math, whole, ks, table), sc)
            == DenoteKeywords(reg, Source(math, table), whole, ks, sc)
    decreases whole, 0, |ks|
  {
    hide TransformExpression, TransformKeywords, Denote, DenoteParse, LiteralsStable;
    if ks != [] {
      var n := |ks| - 1;
      TransformKeywordsSnoc(math, whole, ks, table);
      KeywordsKept(reg, math, whole, ks[..n], folded, table, sc);
      MeaningKept(reg, math, ks[n].arg, table, sc);
    }
  }

  lemma {:induction false} ParseKept(reg: Registry, math: Math, e: Expr, single: bool, table: Table, sc: Scope)
    requires LiteralsStable(reg, math, table) && e.Call?
    ensures DenoteParse(reg, Folded, TransformExpression(math, e, table), single, sc)
            == DenoteParse(reg, Source(math, table), e, single, sc)
    decreases e, 0
  {
    hide Denote, DenoteAll, DenoteKeywords, Params, LiteralsStable;
    var f := TransformExpression(math, e, table);
    SameForm(math, e.func, table);
    AllKept(reg, math, e, e.args, f, table, sc);
    match e.func
    case Name(kind) =>
      if kind in reg.components { ParamsKept(reg, math, kind, e, e.keywords, table, sc); }
    case Call(_, _, _) =>
      ParseKept(reg, math, e.func, false, table, sc);
      KeywordsKept(reg, math, e, e.keywords, f, table, sc);
    case _ =>
  }

  // ----------------------------------------------------------- which constants matter

  function NamesIn(slice: Expr): set<string> {
    match slice
    case Name(id) => {id}
    case UnaryOp(_, x) => NamesIn(x)
    case BinOp(_, l, r) => NamesIn(l) + NamesIn(r)
    case _ => {}
  }

  /** The names that occur in subscript slices. */
  function SliceNames(e: Expr): set<string>
    decreases e, 1
  {
    match e
    case Attribute(base, _) => SliceNames(base)
    case Call(func, args, keywords) => SliceNames(func) + SliceNamesAll(e, args) + SliceNamesKeywords(e, keywords)
    case BinOp(_, l, r) => SliceNames(l) + SliceNames(r)
    case Compare(first, _, others) => SliceNames(first) + SliceNamesAll(e, others)
    case BoolOp(_, values) => SliceNamesAll(e, values)
    case UnaryOp(_, x) => SliceNames(x)
    case IfExp(a, b, c) => SliceNames(a) + SliceNames(b) + SliceNames(c)
    case Subscript(value, slice) => SliceNames(value) + NamesIn(slice)
    case _ => {}
  }

  function SliceNamesAll(whole: Expr, es: seq<Expr>): set<string>
    requires forall i :: 0 <= i < |es| ==> es[i] < whole
    decreases whole, 0, |es|
  {
    if es == [] then {} else SliceNamesAll(whole, es[..|es| - 1]) + SliceNames(es[|es| - 1])
  }

  function SliceNamesKeywords(whole: Expr, ks: seq<Keyword>): set<string>
    requires forall i :: 0 <= i < |ks| ==> ks[i].arg < whole
    decreases whole, 0, |ks|
  {
    if ks == [] then {} else SliceNamesKeywords(whole, ks[..|ks| - 1]) + SliceNames(ks[|ks| - 1].arg)
  }

  ghost predicate AgreeOn(t: Table, u: Table, names: set<string>) {
    forall n :: n in names ==> (n in t <==> n in u) && (n in t ==> t[n] == u[n])
  }

  lemma {:induction false} SameConstants(math: Math, slice: Expr, t: Table, u: Table)
    requires AgreeOn(t, u, NamesIn(slice))
    ensures IsConstantExpression(slice, t) == IsConstantExpression(slice, u)
    ensures IsConstantExpression(slice, t) ==> EvaluateConstant(math, slice, t) == EvaluateConstant(math, slice, u)
  {
    match slice
    case UnaryOp(_, x) => SameConstants(math, x, t, u);
    case BinOp(_, l, r) => SameConstants(math, l, t, u); SameConstants(math, r, t, u);
    case _ =>
  }

  /** Only the constants named in slices matter. */
  lemma {:induction false} SameMeaning(reg: Registry, math: Math, e: Expr, t: Table, u: Table, sc: Scope)
    requires AgreeOn(t, u, SliceNames(e))
    ensures Denote(reg, Source(math, t), e, sc) == Denote(reg, Source(math, u), e, sc)
    decreases e, 2
  {
    hide Invoke, Binary, Select, Negate, LogicalNot, Lag, CoerceAll, Nest, Values, DenoteParse, DenoteAll, Literal,
         DenoteName, DenoteHandle, IsConstantExpression, EvaluateConstant, SliceNamesAll, NamesIn;
    match e
    case Attribute(base, _) => SameMeaning(reg, math, base, t, u, sc);
    case Call(_, _, _) => SameParse(reg, math, e, !e.func.Call?, t, u, sc);
    case BinOp(_, l, r) => SameMeaning(reg, math, l, t, u, sc); SameMeaning(reg, math, r, t, u, sc);
    case Compare(_, _, _) => SameCompare(reg, math, e, t, u, sc);
    case BoolOp(_, values) => SameAll(reg, math, e, values, t, u, sc);
    case UnaryOp(_, x) => SameMeaning(reg, math, x, t, u, sc);
    case IfExp(a, b, c) =>
      SameMeaning(reg, math, a, t, u, sc);
      SameMeaning(reg, math, b, t, u, sc);
      SameMeaning(reg, math, c, t, u, sc);
    case Subscript(value, slice) =>
      SameMeaning(reg, math, value, t, u, sc);
      SameConstants(math, slice, t, u);
    case _ =>
  }

  lemma {:induction false} SameCompare(reg: Registry, math: Math, e: Expr, t: Table, u: Table, sc: Scope)
    requires e.Compare? && AgreeOn(t, u, SliceNames(e))
    ensures Denote(reg, Source(math, t), e, sc) == Denote(reg, Source(math, u), e, sc)
    decreases e, 1
  {
    hide Binary;
    if |e.comparators| == 1 {
      assert e.comparators[..0] == [] && SliceNamesAll(e, e.comparators) == SliceNames(e.comparators[0]);
      SameMeaning(reg, math, e.first, t, u, sc);
      SameMeaning(reg, math, e.comparators[0], t, u, sc);
    }
  }

  lemma {:induction false} SameAll(reg: Registry, math: Math, whole: Expr, es: seq<Expr>, t: Table, u: Table, sc: Scope)
    requires forall i :: 0 <= i < |es| ==> es[i] < whole
    requires AgreeOn(t, u, SliceNamesAll(whole, es))
    ensures DenoteAll(reg, Source(math, t), whole, es, sc) == DenoteAll(reg, Source(math, u), whole, es, sc)
    decreases whole, 0, |es|
  {
    if es != [] {
      SameAll(reg, math, whole, es[..|es| - 1], t, u, sc);
      SameMeaning(reg, math, es[|es| - 1], t, u, sc);
    }
  }

  lemma {:induction false} SameKeywords(reg: Registry, math: Math, whole: Expr, ks: seq<Keyword>, t: Table, u: Table,
                                        sc: Scope)
    requires forall i :: 0 <= i < |ks| ==> ks[i].arg < whole
    requires AgreeOn(t, u, SliceNamesKeywords(whole, ks))
    ensures DenoteKeywords(reg, Source(math, t), whole, ks, sc) == DenoteKeywords(reg, Source(math, u), whole, ks, sc)
    decreases whole, 0, |ks|
  {
    if ks != [] {
      SameKeywords(reg, math, whole, ks[..|ks| - 1], t, u, sc);
      SameMeaning(reg, math, ks[|ks| - 1].arg, t, u, sc);
    }
  }

  lemma {:induction false} SameParse(reg: Registry, math: Math, e: Expr, single: bool, t: Table, u: Table, sc: Scope)
    requires e.Call? && AgreeOn(t, u, SliceNames(e))
    ensures DenoteParse(reg, Source(math, t), e, single, sc) == DenoteParse(reg, Source(math, u), e, single, sc)
    decreases e, 1
  {
    SameAll(reg, math, e, e.args, t, u, sc);
    if e.func.Call? {
      SameParse(reg, math, e.func, false, t, u, sc);
      SameKeywords(reg, math, e, e.keywords, t, u, sc);
    }
  }

  // ------------------------------------------------------------------------- programs

  /** What a program means when each slice sees the constants assigned before it. */
  ghost function DenoteScript(reg: Registry, math: Math, m: Module): Option<World> {
    if m == [] then Some(START)
    else
      var n := |m| - 1;
      var before :- DenoteScript(reg, math, m[..n]);
      DenoteStmt(reg, Source(math, Identify(math, m[..n], map[])), m[n], before)
  }

  function ExprOf(st: Stmt): Expr { if st.Assign? then st.rhs else st.expr }

  function AssignedBy(st: Stmt): set<string> {
    if st.Assign? then set t | t in st.targets && t.Name? :: t.id else {}
  }

  /** No statement uses, in a slice, a name that it or a later statement assigns. */
  ghost predicate DefinedBeforeUse(m: Module) {
    forall i, j {:trigger SliceNames(ExprOf(m[i])), AssignedBy(m[j])} :: 0 <= i <= j < |m| ==>
      SliceNames(ExprOf(m[i])) !! AssignedBy(m[j])
  }

  lemma {:induction false} RecordTouches(table: Table, targets: seq<Expr>, value: Const, n: string)
    requires forall t :: t in targets && t.Name? ==> t.id != n
    ensures n in RecordTargets(table, targets, value) <==> n in table
    ensures n in table ==> RecordTargets(table, targets, value)[n] == table[n]
  {
    if targets != [] { RecordTouches(table, targets[..|targets| - 1], value, n); }
  }

  lemma RecordAgrees(math: Math, table: Table, st: Stmt, names: set<string>)
    requires names !! AssignedBy(st)
    ensures AgreeOn(table, Record(math, table, st), names)
  {
    if st.Assign? {
      forall n, value | n in names
        ensures n in RecordTargets(table, st.targets, value) <==> n in table
        ensures n in table ==> RecordTargets(table, st.targets, value)[n] == table[n]
      {
        RecordTouches(table, st.targets, value, n);
      }
    }
  }

  /** Later statements leave the constants an earlier slice uses alone. */
  lemma {:induction false} IdentifyAgrees(math: Math, m: Module, i: nat, names: set<string>)
    requires i <= |m| && forall j :: i <= j < |m| ==> names !! AssignedBy(m[j])
    ensures AgreeOn(Identify(math, m[..i], map[]), Identify(math, m, map[]), names)
  {
    if i == |m| {
      assert m[..i] == m;
    } else {
      var n := |m| - 1;
      assert m[..n][..i] == m[..i];
      IdentifyAgrees(math, m[..n], i, names);
      RecordAgrees(math, Identify(math, m[..n], map[]), m[n], names);
    }
  }

  lemma {:induction false} SameConstructor(math: Math, e: Expr, table: Table)
    ensures IsConstructorCall(TransformExpression(math, e, table)) == IsConstructorCall(e)
  {
    if e.Call? {
      SameForm(math, e.func, table);
      SameConstructor(math, e.func, table);
    }
  }

  lemma StmtKept(reg: Registry, math: Math, st: Stmt, table: Table, w: World)
    requires LiteralsStable(reg, math, table)
    ensures DenoteStmt(reg, Folded, FoldStmt(math, st, table), w) == DenoteStmt(reg, Source(math, table), st, w)
  {
    var e := ExprOf(st);
    SameConstructor(math, e, table);
    MeaningKept(reg, math, e, table, w.scope);
    if e.Call? {
      SameForm(math, e.func, table);
      ParseKept(reg, math, e, !e.func.Call?, table, w.scope);
    }
  }

  lemma StmtSame(reg: Registry, math: Math, st: Stmt, t: Table, u: Table, w: World)
    requires AgreeOn(t, u, SliceNames(ExprOf(st)))
    ensures DenoteStmt(reg, Source(math, t), st, w) == DenoteStmt(reg, Source(math, u), st, w)
  {
    var e := ExprOf(st);
    SameMeaning(reg, math, e, t, u, w.scope);
    if e.Call? { SameParse(reg, math, e, !e.func.Call?, t, u, w.scope); }
  }
}
