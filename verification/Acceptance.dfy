/** A statement is accepted exactly when its form is and every slice it evaluates has a period. */
module Acceptance {
  import opened Ast
  import opened Registry
  import opened NodeIds
  import opened Denotation
  import opened ProgramMeaning
  import opened ExpressionCompiler
  import opened AstVisitor
  import opened FoldingMeaning
  import opened PeriodShapes
  import opened SliceAgreement

  // ---------------------------------------------------------------- evaluated slices

  /** The slices that evaluating e reaches; constructor keywords are literals and hold none. */
  function Evaluated(e: Expr): set<Expr>
    decreases e, 2
  {
    match e
    case Attribute(base, _) => if base.Name? then {} else Evaluated(base)
    case Call(_, _, _) => EvaluatedCall(e)
    case BinOp(_, l, r) => Evaluated(l) + Evaluated(r)
    case Compare(first, _, others) => Evaluated(first) + EvaluatedAll(e, others)
    case BoolOp(_, values) => EvaluatedAll(e, values)
    case UnaryOp(_, x) => Evaluated(x)
    case IfExp(a, b, c) => Evaluated(a) + Evaluated(b) + Evaluated(c)
    case Subscript(value, slice) => {slice} + Evaluated(value)
    case _ => {}
  }

  function EvaluatedAll(whole: Expr, es: seq<Expr>): set<Expr>
    requires forall i :: 0 <= i < |es| ==> es[i] < whole
    decreases whole, 0, |es|
  {
    if es == [] then {} else EvaluatedAll(whole, es[..|es| - 1]) + Evaluated(es[|es| - 1])
  }

  function EvaluatedKeywords(whole: Expr, ks: seq<Keyword>): set<Expr>
    requires forall i :: 0 <= i < |ks| ==> ks[i].arg < whole
    decreases whole, 0, |ks|
  {
    if ks == [] then {} else EvaluatedKeywords(whole, ks[..|ks| - 1]) + Evaluated(ks[|ks| - 1].arg)
  }

  function EvaluatedCall(e: Expr): set<Expr>
    requires e.Call?
    decreases e, 1
  {
    match e.func
    case Name(_) => EvaluatedAll(e, e.args)
    case Call(_, _, _) => EvaluatedCall(e.func) + EvaluatedAll(e, e.args) + EvaluatedKeywords(e, e.keywords)
    case _ => {}
  }

  ghost predicate AllAgree(here: Mode, there: Mode, slices: set<Expr>, kept: bool) {
    forall s :: s in slices ==> PeriodsAgree(here, there, s, kept)
  }

  /** Agreement is agreement on the evaluated slices, as far as acceptance goes. */
  lemma {:induction false} AgreementOf(reg: Registry, here: Mode, there: Mode, e: Expr, kept: bool)
    ensures AllAgree(here, there, Evaluated(e), kept) ==> Agree(reg, here, there, e, kept)
    ensures Agree(reg, here, there, e, kept) ==> AllAgree(here, there, Evaluated(e), false)
    decreases e, 2
  {
    hide PeriodsAgree, AllAgree, AgreeCall, AgreeAll, EvaluatedCall, EvaluatedAll;
    NoneOrOne(here, there);
    match e
    case Attribute(base, _) => if !base.Name? { AgreementOf(reg, here, there, base, kept); }
    case Call(_, _, _) => AgreementOfCall(reg, here, there, e, kept);
    case BinOp(_, l, r) =>
      AgreementOf(reg, here, there, l, kept);
      AgreementOf(reg, here, there, r, kept);
      Both(here, there, Evaluated(l), Evaluated(r));
    case Compare(first, _, others) =>
      AgreementOf(reg, here, there, first, kept);
      AgreementOfAll(reg, here, there, e, others, kept);
      Both(here, there, Evaluated(first), EvaluatedAll(e, others));
    case BoolOp(_, values) => AgreementOfAll(reg, here, there, e, values, kept);
    case UnaryOp(_, x) => AgreementOf(reg, here, there, x, kept);
    case IfExp(a, b, c) =>
      AgreementOf(reg, here, there, a, kept);
      AgreementOf(reg, here, there, b, kept);
      AgreementOf(reg, here, there, c, kept);
      Both(here, there, Evaluated(a), Evaluated(b));
      Both(here, there, Evaluated(a) + Evaluated(b), Evaluated(c));
    case Subscript(value, slice) =>
      AgreementOf(reg, here, there, value, kept);
      PeriodWeakens(here, there, slice, kept);
      Both(here, there, {slice}, Evaluated(value));
    case _ =>
  }

  lemma NoneOrOne(here: Mode, there: Mode)
    ensures forall kept :: AllAgree(here, there, {}, kept)
    ensures forall s, kept :: AllAgree(here, there, {s}, kept) <==> PeriodsAgree(here, there, s, kept)
  {
    hide PeriodsAgree;
    forall s: Expr, kept ensures AllAgree(here, there, {s}, kept) <==> PeriodsAgree(here, there, s, kept) {
      assert s in {s};
    }
  }

  lemma Both(here: Mode, there: Mode, a: set<Expr>, b: set<Expr>)
    ensures forall kept :: AllAgree(here, there, a + b, kept) <==>
                             AllAgree(here, there, a, kept) && AllAgree(here, there, b, kept)
  {
    hide PeriodsAgree;
  }

  lemma PeriodWeakens(here: Mode, there: Mode, slice: Expr, kept: bool)
    ensures PeriodsAgree(here, there, slice, kept) ==> PeriodsAgree(here, there, slice, false)
  {
    hide Period;
  }

  lemma {:induction false} AgreementOfAll(reg: Registry, here: Mode, there: Mode, whole: Expr, es: seq<Expr>,
                                          kept: bool)
    requires forall i :: 0 <= i < |es| ==> es[i] < whole
    ensures AllAgree(here, there, EvaluatedAll(whole, es), kept) ==> AgreeAll(reg, here, there, whole, es, kept)
    ensures AgreeAll(reg, here, there, whole, es, kept) ==> AllAgree(here, there, EvaluatedAll(whole, es), false)
    decreases whole, 0, |es|
  {
    hide AllAgree, PeriodsAgree, Evaluated, Agree;
    NoneOrOne(here, there);
    if es != [] {
      AgreementOfAll(reg, here, there, whole, es[..|es| - 1], kept);
      AgreementOf(reg, here, there, es[|es| - 1], kept);
      Both(here, there, EvaluatedAll(whole, es[..|es| - 1]), Evaluated(es[|es| - 1]));
    }
  }

  lemma Weaker(here: Mode, there: Mode, slices: set<Expr>, kept: bool, less: bool)
    requires AllAgree(here, there, slices, kept) && (less ==> kept)
    ensures AllAgree(here, there, slices, less)
  {
    hide Period;
  }

  lemma {:induction false} AgreementOfKeywords(reg: Registry, here: Mode, there: Mode, whole: Expr, ks: seq<Keyword>,
                                               kept: bool, later: set<string>)
    requires forall i :: 0 <= i < |ks| ==> ks[i].arg < whole
    ensures AllAgree(here, there, EvaluatedKeywords(whole, ks), kept) ==>
              AgreeKeywords(reg, here, there, whole, ks, kept, later)
    ensures AgreeKeywords(reg, here, there, whole, ks, kept, later) ==>
              AllAgree(here, there, EvaluatedKeywords(whole, ks), false)
    decreases whole, 0, |ks|
  {
    hide PeriodsAgree, Evaluated, Agree;
    if ks != [] {
      var n := |ks| - 1;
      var inner := kept && ks[n].key !in later;
      AgreementOfKeywords(reg, here, there, whole, ks[..n], kept, later + {ks[n].key});
      AgreementOf(reg, here, there, ks[n].arg, inner);
      if AllAgree(here, there, EvaluatedKeywords(whole, ks), kept) {
        Weaker(here, there, EvaluatedKeywords(whole, ks), kept, inner);
      }
    }
  }

  lemma {:induction false} AgreementOfCall(reg: Registry, here: Mode, there: Mode, e: Expr, kept: bool)
    requires e.Call?
    ensures AllAgree(here, there, EvaluatedCall(e), kept) ==> AgreeCall(reg, here, there, e, kept)
    ensures AgreeCall(reg, here, there, e, kept) ==> AllAgree(here, there, EvaluatedCall(e), false)
    decreases e, 1
  {
    hide PeriodsAgree, AgreeAll, AgreeKeywords, EvaluatedAll, EvaluatedKeywords, Wires;
    var wired := kept && Wires(reg, e);
    AgreementOfAll(reg, here, there, e, e.args, wired);
    if AllAgree(here, there, EvaluatedAll(e, e.args), kept) {
      Weaker(here, there, EvaluatedAll(e, e.args), kept, wired);
    }
    if e.func.Call? {
      AgreementOfCall(reg, here, there, e.func, kept);
      AgreementOfKeywords(reg, here, there, e, e.keywords, kept, {});
    }
  }

  // ---------------------------------------------------------- what acceptance needs

  ghost predicate AllRead(mode: Mode, slices: set<Expr>) { forall s :: s in slices ==> Period(mode, s).Some? }

  /** Every evaluated slice of an accepted expression has a period. */
  lemma {:induction false} AcceptedReads(reg: Registry, mode: Mode, e: Expr, sc: Scope)
    requires Denote(reg, mode, e, sc).Some?
    ensures AllRead(mode, Evaluated(e))
    decreases e, 2
  {
    hide Invoke, Binary, Select, Negate, LogicalNot, Lag, CoerceAll, Nest, Values, DenoteParse, DenoteAll, Period,
         EvaluatedCall, EvaluatedAll;
    match e
    case Attribute(base, _) => if !base.Name? { AcceptedReads(reg, mode, base, sc); }
    case Call(_, _, _) => AcceptedReadsCall(reg, mode, e, !e.func.Call?, sc);
    case BinOp(_, l, r) => AcceptedReads(reg, mode, l, sc); AcceptedReads(reg, mode, r, sc);
    case Compare(first, _, others) =>
      AcceptedReads(reg, mode, first, sc);
      AcceptedReads(reg, mode, others[0], sc);
      OneEvaluated(e, others);
    case BoolOp(_, values) => AcceptedReadsAll(reg, mode, e, values, sc);
    case UnaryOp(_, x) => AcceptedReads(reg, mode, x, sc);
    case IfExp(a, b, c) =>
      AcceptedReads(reg, mode, a, sc);
      AcceptedReads(reg, mode, b, sc);
      AcceptedReads(reg, mode, c, sc);
    case Subscript(value, _) => AcceptedReads(reg, mode, value, sc);
    case _ =>
  }

  lemma OneEvaluated(whole: Expr, es: seq<Expr>)
    requires |es| == 1 && es[0] < whole
    ensures EvaluatedAll(whole, es) == Evaluated(es[0])
  {
    assert es[..0] == [];
  }

  lemma {:induction false} AcceptedReadsAll(reg: Registry, mode: Mode, whole: Expr, es: seq<Expr>, sc: Scope)
    requires forall i :: 0 <= i < |es| ==> es[i] < whole
    requires DenoteAll(reg, mode, whole, es, sc).Some?
    ensures AllRead(mode, EvaluatedAll(whole, es))
    decreases whole, 0, |es|
  {
    hide Denote, Evaluated, Period;
    if es != [] {
      AcceptedReadsAll(reg, mode, whole, es[..|es| - 1], sc);
      AcceptedReads(reg, mode, es[|es| - 1], sc);
    }
  }

  lemma {:induction false} AcceptedReadsKeywords(reg: Registry, mode: Mode, whole: Expr, ks: seq<Keyword>, sc: Scope)
    requires forall i :: 0 <= i < |ks| ==> ks[i].arg < whole
    requires DenoteKeywords(reg, mode, whole, ks, sc).Some?
    ensures AllRead(mode, EvaluatedKeywords(whole, ks))
    decreases whole, 0, |ks|
  {
    hide Denote, Evaluated, Period;
    if ks != [] {
      AcceptedReadsKeywords(reg, mode, whole, ks[..|ks| - 1], sc);
      AcceptedReads(reg, mode, ks[|ks| - 1].arg, sc);
    }
  }

  lemma {:induction false} AcceptedReadsCall(reg: Registry, mode: Mode, e: Expr, single: bool, sc: Scope)
    requires e.Call? && DenoteParse(reg, mode, e, single, sc).Some?
    ensures AllRead(mode, EvaluatedCall(e))
    decreases e, 1
  {
    hide DenoteAll, DenoteKeywords, Params, EvaluatedKeywords, Period;
    match e.func
    case Name(_) => if e.args != [] { AcceptedReadsAll(reg, mode, e, e.args, sc); }
    case Call(_, _, _) =>
      AcceptedReadsCall(reg, mode, e.func, false, sc);
      AcceptedReadsAll(reg, mode, e, e.args, sc);
      AcceptedReadsKeywords(reg, mode, e, e.keywords, sc);
    case _ =>
  }

  // -------------------------------------------------------------------- statements

  /** Accepted once every slice it evaluates is taken to have some period. */
  ghost predicate ShapeOk(reg: Registry, st: Stmt, w: World) { DenoteStmt(reg, Presumed, st, w).Some? }

  lemma ReadsOfStmt(reg: Registry, mode: Mode, st: Stmt, w: World)
    requires DenoteStmt(reg, mode, st, w).Some?
    ensures AllRead(mode, Evaluated(ExprOf(st)))
  {
    hide Denote, DenoteParse, Period, Evaluated, EvaluatedCall, Instantiate;
    var e := ExprOf(st);
    if IsConstructorCall(e) {
      AcceptedReadsCall(reg, mode, e, !e.func.Call?, w.scope);
      CallIsEvaluated(e);
    } else {
      AcceptedReads(reg, mode, e, w.scope);
    }
  }

  lemma CallIsEvaluated(e: Expr)
    requires e.Call?
    ensures Evaluated(e) == EvaluatedCall(e)
  {
  }

  /** An accepted statement is accepted under another reading that has a period for each of its slices. */
  lemma StillAccepted(reg: Registry, here: Mode, there: Mode, st: Stmt, w: World)
    requires PlainRegistry(reg) && StmtOk(reg, st) && DenoteStmt(reg, here, st, w).Some?
    requires AllRead(there, Evaluated(ExprOf(st)))
    ensures DenoteStmt(reg, there, st, w).Some?
  {
    hide PlainRegistry, StmtOk, Denote, DenoteParse, Period, Evaluated, EvaluatedCall, Instantiate, Agree, AgreeCall;
    var e := ExprOf(st);
    ReadsOfStmt(reg, here, st, w);
    assert AllAgree(here, there, Evaluated(e), false);
    if IsConstructorCall(e) {
      CallIsEvaluated(e);
      AgreementOfCall(reg, here, there, e, false);
      CallStillAccepted(reg, here, there, st, w);
    } else {
      AgreementOf(reg, here, there, e, false);
      SlicesDecide(reg, here, there, e, w.scope);
    }
  }

  lemma CallStillAccepted(reg: Registry, here: Mode, there: Mode, st: Stmt, w: World)
    requires PlainRegistry(reg) && StmtOk(reg, st) && IsConstructorCall(ExprOf(st))
    requires DenoteStmt(reg, here, st, w).Some? && AgreeCall(reg, here, there, ExprOf(st), false)
    ensures DenoteStmt(reg, there, st, w).Some?
  {
    hide PlainRegistry, PlainWords, NamesOk, DenoteParse, ParsedAlike, Instantiate, FedAllSame, Unpack, AgreeCall;
    var e := ExprOf(st);
    var single := !e.func.Call?;
    ParseDecides(reg, here, there, e, single, w.scope);
    PlainParse(reg, here, e, single, w.scope);
    var p, q := DenoteParse(reg, here, e, single, w.scope), DenoteParse(reg, there, e, single, w.scope);
    SameCall(p.value, q.value);
    InstantiateAlike(reg, p.value, q.value);
    if st.Assign? && st.targets[0].Tuple? { UnpackDecides(reg, st.targets[0].members, p.value, q.value, w); }
  }

  /** Acceptance is a matter of form and of each evaluated slice having a period, whichever it is. */
  lemma AcceptedExactly(reg: Registry, mode: Mode, st: Stmt, w: World)
    requires PlainRegistry(reg) && StmtOk(reg, st)
    ensures DenoteStmt(reg, mode, st, w).Some? <==>
            ShapeOk(reg, st, w) && forall s :: s in Evaluated(ExprOf(st)) ==> Period(mode, s).Some?
  {
    hide PlainRegistry, StmtOk, DenoteStmt, Evaluated;
    if DenoteStmt(reg, mode, st, w).Some? {
      ReadsOfStmt(reg, mode, st, w);
      StillAccepted(reg, mode, Presumed, st, w);
    }
    if ShapeOk(reg, st, w) && AllRead(mode, Evaluated(ExprOf(st))) { StillAccepted(reg, Presumed, mode, st, w); }
  }

  // ------------------------------------------------------------- names in evaluated slices

  lemma {:induction false} EvaluatedNames(e: Expr)
    ensures forall s :: s in Evaluated(e) ==> NamesIn(s) <= SliceNames(e)
    decreases e, 2
  {
    hide NamesIn;
    match e
    case Attribute(base, _) => EvaluatedNames(base);
    case Call(_, _, _) => EvaluatedNamesCall(e);
    case BinOp(_, l, r) => EvaluatedNames(l); EvaluatedNames(r);
    case Compare(first, _, others) => EvaluatedNames(first); EvaluatedNamesAll(e, others);
    case BoolOp(_, values) => EvaluatedNamesAll(e, values);
    case UnaryOp(_, x) => EvaluatedNames(x);
    case IfExp(a, b, c) => EvaluatedNames(a); EvaluatedNames(b); EvaluatedNames(c);
    case Subscript(value, _) => EvaluatedNames(value);
    case _ =>
  }

  lemma {:induction false} EvaluatedNamesAll(whole: Expr, es: seq<Expr>)
    requires forall i :: 0 <= i < |es| ==> es[i] < whole
    ensures forall s :: s in EvaluatedAll(whole, es) ==> NamesIn(s) <= SliceNamesAll(whole, es)
    decreases whole, 0, |es|
  {
    hide NamesIn;
    if es != [] {
      EvaluatedNamesAll(whole, es[..|es| - 1]);
      EvaluatedNames(es[|es| - 1]);
    }
  }

  lemma {:induction false} EvaluatedNamesKeywords(whole: Expr, ks: seq<Keyword>)
    requires forall i :: 0 <= i < |ks| ==> ks[i].arg < whole
    ensures forall s :: s in EvaluatedKeywords(whole, ks) ==> NamesIn(s) <= SliceNamesKeywords(whole, ks)
    decreases whole, 0, |ks|
  {
    hide NamesIn;
    if ks != [] {
      EvaluatedNamesKeywords(whole, ks[..|ks| - 1]);
      EvaluatedNames(ks[|ks| - 1].arg);
    }
  }

  lemma {:induction false} EvaluatedNamesCall(e: Expr)
    requires e.Call?
    ensures forall s :: s in EvaluatedCall(e) ==> NamesIn(s) <= SliceNames(e)
    decreases e, 1
  {
    hide NamesIn;
    EvaluatedNamesAll(e, e.args);
    if e.func.Call? {
      EvaluatedNamesCall(e.func);
      EvaluatedNamesKeywords(e, e.keywords);
    }
  }
}
