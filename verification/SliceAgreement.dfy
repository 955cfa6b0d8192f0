/** Two readings of slices give a statement one meaning exactly when they agree on each slice it evaluates. */
module SliceAgreement {
  import opened Wrappers
  import opened Graph
  import opened Ast
  import opened Registry
  import opened NodeIds
  import opened Denotation
  import opened ProgramMeaning
  import opened ExpressionCompiler
  import opened AstVisitor
  import opened FoldingMeaning
  import opened PeriodShapes

  // -------------------------------------------------------------- slices that decide

  /** The component a chain of calls starts with. */
  function BaseKind(e: Expr): string
    requires e.Call?
  {
    match e.func
    case Name(kind) => kind
    case Call(_, _, _) => BaseKind(e.func)
    case _ => ""
  }

  /** Positional arguments are wired at all. */
  predicate Wires(reg: Registry, e: Expr)
    requires e.Call?
  {
    BaseKind(e) in reg.components && reg.components[BaseKind(e)].inputs != []
  }

  /** Where the value is kept the periods must be equal; elsewhere both must exist or neither. */
  predicate PeriodsAgree(here: Mode, there: Mode, slice: Expr, kept: bool) {
    var a, b := Period(here, slice), Period(there, slice);
    if kept then a == b else a.Some? <==> b.Some?
  }

  /** All slices that evaluating e reaches agree under the two readings. */
  ghost predicate Agree(reg: Registry, here: Mode, there: Mode, e: Expr, kept: bool)
    decreases e, 2
  {
    match e
    case Attribute(base, _) => base.Name? || Agree(reg, here, there, base, kept)
    case Call(_, _, _) => AgreeCall(reg, here, there, e, kept)
    case BinOp(_, l, r) => Agree(reg, here, there, l, kept) && Agree(reg, here, there, r, kept)
    case Compare(first, _, others) =>
      Agree(reg, here, there, first, kept) && AgreeAll(reg, here, there, e, others, kept)
    case BoolOp(_, values) => AgreeAll(reg, here, there, e, values, kept)
    case UnaryOp(_, x) => Agree(reg, here, there, x, kept)
    case IfExp(a, b, c) => Agree(reg, here, there, a, kept) && Agree(reg, here, there, b, kept) &&
                           Agree(reg, here, there, c, kept)
    case Subscript(value, slice) => PeriodsAgree(here, there, slice, kept) && Agree(reg, here, there, value, kept)
    case _ => true
  }

  ghost predicate AgreeAll(reg: Registry, here: Mode, there: Mode, whole: Expr, es: seq<Expr>, kept: bool)
    requires forall i :: 0 <= i < |es| ==> es[i] < whole
    decreases whole, 0, |es|
  {
    es == [] || (AgreeAll(reg, here, there, whole, es[..|es| - 1], kept) && Agree(reg, here, there, es[|es| - 1], kept))
  }

  /** A keyword argument overwritten by a later one of the same name is not kept. */
  ghost predicate AgreeKeywords(reg: Registry, here: Mode, there: Mode, whole: Expr, ks: seq<Keyword>,
                                kept: bool, later: set<string>)
    requires forall i :: 0 <= i < |ks| ==> ks[i].arg < whole
    decreases whole, 0, |ks|
  {
    ks == []
    || (var n := |ks| - 1;
        && AgreeKeywords(reg, here, there, whole, ks[..n], kept, later + {ks[n].key})
        && Agree(reg, here, there, ks[n].arg, kept && ks[n].key !in later))
  }

  /** Constructor keywords are literals and contain no evaluated slice. */
  ghost predicate AgreeCall(reg: Registry, here: Mode, there: Mode, e: Expr, kept: bool)
    requires e.Call?
    decreases e, 1
  {
    match e.func
    case Name(_) => AgreeAll(reg, here, there, e, e.args, kept && Wires(reg, e))
    case Call(_, _, _) =>
      && AgreeCall(reg, here, there, e.func, kept)
      && AgreeAll(reg, here, there, e, e.args, kept && Wires(reg, e))
      && AgreeKeywords(reg, here, there, e, e.keywords, kept, {})
    case _ => true
  }

  lemma {:induction false} AgreeWeakens(reg: Registry, here: Mode, there: Mode, e: Expr)
    requires Agree(reg, here, there, e, true)
    ensures Agree(reg, here, there, e, false)
    decreases e, 2
  {
    hide Period;
    match e
    case Attribute(base, _) => if !base.Name? { AgreeWeakens(reg, here, there, base); }
    case Call(_, _, _) => AgreeCallWeakens(reg, here, there, e);
    case BinOp(_, l, r) => AgreeWeakens(reg, here, there, l); AgreeWeakens(reg, here, there, r);
    case Compare(first, _, others) =>
      AgreeWeakens(reg, here, there, first);
      AgreeAllWeakens(reg, here, there, e, others);
    case BoolOp(_, values) => AgreeAllWeakens(reg, here, there, e, values);
    case UnaryOp(_, x) => AgreeWeakens(reg, here, there, x);
    case IfExp(a, b, c) =>
      AgreeWeakens(reg, here, there, a);
      AgreeWeakens(reg, here, there, b);
      AgreeWeakens(reg, here, there, c);
    case Subscript(value, slice) => AgreeWeakens(reg, here, there, value);
    case _ =>
  }

  lemma {:induction false} AgreeAllWeakens(reg: Registry, here: Mode, there: Mode, whole: Expr, es: seq<Expr>)
    requires forall i :: 0 <= i < |es| ==> es[i] < whole
    requires AgreeAll(reg, here, there, whole, es, true)
    ensures AgreeAll(reg, here, there, whole, es, false)
    decreases whole, 0, |es|
  {
    if es != [] {
      AgreeAllWeakens(reg, here, there, whole, es[..|es| - 1]);
      AgreeWeakens(reg, here, there, es[|es| - 1]);
    }
  }

  lemma {:induction false} AgreeKeywordsWeakens(reg: Registry, here: Mode, there: Mode, whole: Expr,
                                                ks: seq<Keyword>, later: set<string>)
    requires forall i :: 0 <= i < |ks| ==> ks[i].arg < whole
    requires AgreeKeywords(reg, here, there, whole, ks, true, later)
    ensures AgreeKeywords(reg, here, there, whole, ks, false, later)
    decreases whole, 0, |ks|
  {
    if ks != [] {
      var n := |ks| - 1;
      AgreeKeywordsWeakens(reg, here, there, whole, ks[..n], later + {ks[n].key});
      if ks[n].key !in later { AgreeWeakens(reg, here, there, ks[n].arg); }
    }
  }

  lemma {:induction false} AgreeCallWeakens(reg: Registry, here: Mode, there: Mode, e: Expr)
    requires e.Call? && AgreeCall(reg, here, there, e, true)
    ensures AgreeCall(reg, here, there, e, false)
    decreases e, 1
  {
    match e.func
    case Name(_) => if Wires(reg, e) { AgreeAllWeakens(reg, here, there, e, e.args); }
    case Call(_, _, _) =>
      AgreeCallWeakens(reg, here, there, e.func);
      if Wires(reg, e) { AgreeAllWeakens(reg, here, there, e, e.args); }
      AgreeKeywordsWeakens(reg, here, there, e, e.keywords, {});
    case _ =>
  }

  // ------------------------------------------------------------------- expressions

  /** b, under the second reading, against a, which has a meaning under the first. */
  ghost predicate Decided(a: Option<Den>, b: Option<Den>, weak: bool, strong: bool)
    requires a.Some?
  {
    (b.Some? <==> weak) && (b.Some? ==> Alike(a.value, b.value) && (a == b <==> strong))
  }

  /** An accepted expression means the same under another reading exactly when its slices agree. */
  lemma {:induction false} SlicesDecide(reg: Registry, here: Mode, there: Mode, e: Expr, sc: Scope)
    requires Denote(reg, here, e, sc).Some?
    ensures Decided(Denote(reg, here, e, sc), Denote(reg, there, e, sc),
                    Agree(reg, here, there, e, false), Agree(reg, here, there, e, true))
    decreases e, 2
  {
    hide Invoke, Binary, Select, Negate, LogicalNot, Lag, CoerceAll, Nest, Values, DenoteParse, DenoteAll, Literal,
         DenoteName, DenoteHandle, Period, AgreeCall, AgreeAll;
    match e
    case Attribute(base, _) => if !base.Name? { SlicesDecide(reg, here, there, base, sc); }
    case Call(_, _, _) => CallDecides(reg, here, there, e, sc);
    case BinOp(op, l, r) => BinOpDecides(reg, here, there, e, sc);
    case Compare(_, _, _) => CompareDecides(reg, here, there, e, sc);
    case BoolOp(_, _) => BoolOpDecides(reg, here, there, e, sc);
    case UnaryOp(_, _) => UnaryOpDecides(reg, here, there, e, sc);
    case IfExp(_, _, _) => IfExpDecides(reg, here, there, e, sc);
    case Subscript(_, _) => SubscriptDecides(reg, here, there, e, sc);
    case _ =>
  }

  lemma {:induction false} BinOpDecides(reg: Registry, here: Mode, there: Mode, e: Expr, sc: Scope)
    requires e.BinOp? && Denote(reg, here, e, sc).Some?
    ensures Decided(Denote(reg, here, e, sc), Denote(reg, there, e, sc),
                    Agree(reg, here, there, e, false), Agree(reg, here, there, e, true))
    decreases e, 1
  {
    hide Binary, Alike;
    SlicesDecide(reg, here, there, e.left, sc);
    SlicesDecide(reg, here, there, e.right, sc);
    var a, b := Denote(reg, here, e.left, sc), Denote(reg, here, e.right, sc);
    var x, y := Denote(reg, there, e.left, sc), Denote(reg, there, e.right, sc);
    if x.Some? && y.Some? {
      var kind := BinOpKind(e.op);
      BinaryAlike(reg, kind, a.value, b.value, x.value, y.value, BinOpTracked(kind));
    }
  }

  lemma {:induction false} CompareDecides(reg: Registry, here: Mode, there: Mode, e: Expr, sc: Scope)
    requires e.Compare? && Denote(reg, here, e, sc).Some?
    ensures Decided(Denote(reg, here, e, sc), Denote(reg, there, e, sc),
                    Agree(reg, here, there, e, false), Agree(reg, here, there, e, true))
    decreases e, 1
  {
    hide Binary, Alike;
    var other := e.comparators[0];
    OneAgrees(reg, here, there, e, e.comparators, false);
    OneAgrees(reg, here, there, e, e.comparators, true);
    SlicesDecide(reg, here, there, e.first, sc);
    SlicesDecide(reg, here, there, other, sc);
    var a, b := Denote(reg, here, e.first, sc), Denote(reg, here, other, sc);
    var x, y := Denote(reg, there, e.first, sc), Denote(reg, there, other, sc);
    if x.Some? && y.Some? {
      BinaryAlike(reg, BinOpKind(e.ops[0]), a.value, b.value, x.value, y.value, Some(Boolean));
    }
  }

  lemma OneAgrees(reg: Registry, here: Mode, there: Mode, whole: Expr, es: seq<Expr>, kept: bool)
    requires |es| == 1 && es[0] < whole
    ensures AgreeAll(reg, here, there, whole, es, kept) == Agree(reg, here, there, es[0], kept)
  {
    assert es[..0] == [];
  }

  lemma {:induction false} BoolOpDecides(reg: Registry, here: Mode, there: Mode, e: Expr, sc: Scope)
    requires e.BoolOp? && Denote(reg, here, e, sc).Some?
    ensures Decided(Denote(reg, here, e, sc), Denote(reg, there, e, sc),
                    Agree(reg, here, there, e, false), Agree(reg, here, there, e, true))
    decreases e, 1
  {
    hide DenoteAll, CoerceAll, AllAlike, AgreeAll, Nest, Values;
    AllDecide(reg, here, there, e, e.values, sc);
    var xs, ys := DenoteAll(reg, here, e, e.values, sc), DenoteAll(reg, there, e, e.values, sc);
    if ys.Some? {
      CoerceAllAlike(reg, xs.value, ys.value, Boolean);
      var a, b := CoerceAll(reg, xs.value, Boolean).value, CoerceAll(reg, ys.value, Boolean).value;
      ValuesCount(a);
      ValuesCount(b);
      var kind := if e.boolOp == And then "logical_and" else "logical_or";
      NestDiffers(kind, Values(a), Values(b));
      NestKind(kind, Values(a));
      NestKind(kind, Values(b));
    }
  }

  lemma NestKind(kind: string, vs: seq<Value>)
    requires |vs| >= 2
    ensures KindOf(Nest(kind, vs)) == kind
  {
  }

  lemma ValuesCount(ds: seq<Den>)
    ensures |Values(ds)| == |ds|
  {
  }

  lemma {:induction false} UnaryOpDecides(reg: Registry, here: Mode, there: Mode, e: Expr, sc: Scope)
    requires e.UnaryOp? && Denote(reg, here, e, sc).Some?
    ensures Decided(Denote(reg, here, e, sc), Denote(reg, there, e, sc),
                    Agree(reg, here, there, e, false), Agree(reg, here, there, e, true))
    decreases e, 1
  {
    hide Negate, LogicalNot, Alike;
    SlicesDecide(reg, here, there, e.operand, sc);
    var a, x := Denote(reg, here, e.operand, sc), Denote(reg, there, e.operand, sc);
    if x.Some? {
      NegateAlike(a.value, x.value);
      NotAlike(reg, a.value, x.value);
    }
  }

  lemma {:induction false} IfExpDecides(reg: Registry, here: Mode, there: Mode, e: Expr, sc: Scope)
    requires e.IfExp? && Denote(reg, here, e, sc).Some?
    ensures Decided(Denote(reg, here, e, sc), Denote(reg, there, e, sc),
                    Agree(reg, here, there, e, false), Agree(reg, here, there, e, true))
    decreases e, 1
  {
    hide Select, Alike;
    SlicesDecide(reg, here, there, e.test, sc);
    SlicesDecide(reg, here, there, e.body, sc);
    SlicesDecide(reg, here, there, e.orelse, sc);
    var a, b, c := Denote(reg, here, e.test, sc), Denote(reg, here, e.body, sc),
                   Denote(reg, here, e.orelse, sc);
    var x, y, z := Denote(reg, there, e.test, sc), Denote(reg, there, e.body, sc),
                   Denote(reg, there, e.orelse, sc);
    if x.Some? && y.Some? && z.Some? {
      SelectAlike(reg, a.value, b.value, c.value, x.value, y.value, z.value);
    }
  }

  lemma {:induction false} SubscriptDecides(reg: Registry, here: Mode, there: Mode, e: Expr, sc: Scope)
    requires e.Subscript? && Denote(reg, here, e, sc).Some?
    ensures Decided(Denote(reg, here, e, sc), Denote(reg, there, e, sc),
                    Agree(reg, here, there, e, false), Agree(reg, here, there, e, true))
    decreases e, 1
  {
    hide Lag, Alike, Period;
    SlicesDecide(reg, here, there, e.value, sc);
    var a, x := Denote(reg, here, e.value, sc), Denote(reg, there, e.value, sc);
    var p, q := Period(here, e.slice), Period(there, e.slice);
    if x.Some? && q.Some? { LagAlike(reg, a.value, p.value, x.value, q.value); }
  }

  lemma AllSnoc(reg: Registry, mode: Mode, whole: Expr, es: seq<Expr>, sc: Scope)
    requires es != [] && forall i :: 0 <= i < |es| ==> es[i] < whole
    ensures var n := |es| - 1;
            var before, last := DenoteAll(reg, mode, whole, es[..n], sc), Denote(reg, mode, es[n], sc);
            DenoteAll(reg, mode, whole, es, sc)
            == if before.None? || last.None? then None else Some(before.value + [last.value])
  {
    hide Denote;
  }

  lemma AgreeAllSnoc(reg: Registry, here: Mode, there: Mode, whole: Expr, es: seq<Expr>, kept: bool)
    requires es != [] && forall i :: 0 <= i < |es| ==> es[i] < whole
    ensures var n := |es| - 1;
            AgreeAll(reg, here, there, whole, es, kept) <==>
            AgreeAll(reg, here, there, whole, es[..n], kept) && Agree(reg, here, there, es[n], kept)
  {
    hide Agree;
  }

  lemma AlikeSnoc(xs: seq<Den>, x: Den, ys: seq<Den>, y: Den)
    requires AllAlike(xs, ys) && Alike(x, y)
    ensures AllAlike(xs + [x], ys + [y]) && (xs + [x] == ys + [y] <==> xs == ys && x == y)
  {
    hide Alike;
    assert (xs + [x])[..|xs|] == xs && (ys + [y])[..|ys|] == ys;
    assert (xs + [x])[|xs|] == x && (ys + [y])[|ys|] == y;
  }

  lemma {:induction false} AllDecide(reg: Registry, here: Mode, there: Mode, whole: Expr, es: seq<Expr>, sc: Scope)
    requires forall i :: 0 <= i < |es| ==> es[i] < whole
    requires DenoteAll(reg, here, whole, es, sc).Some?
    ensures var xs, ys := DenoteAll(reg, here, whole, es, sc), DenoteAll(reg, there, whole, es, sc);
            && (ys.Some? <==> AgreeAll(reg, here, there, whole, es, false))
            && (ys.Some? ==>
                  AllAlike(xs.value, ys.value) && (xs == ys <==> AgreeAll(reg, here, there, whole, es, true)))
    decreases whole, 0, |es|
  {
    hide Denote, Agree, Alike;
    if es == [] {
    } else {
      hide DenoteAll, AgreeAll, AllAlike;
      var n := |es| - 1;
      AllSnoc(reg, here, whole, es, sc);
      AllSnoc(reg, there, whole, es, sc);
      AgreeAllSnoc(reg, here, there, whole, es, false);
      AgreeAllSnoc(reg, here, there, whole, es, true);
      var xs, ys := DenoteAll(reg, here, whole, es[..n], sc), DenoteAll(reg, there, whole, es[..n], sc);
      var x, y := Denote(reg, here, es[n], sc), Denote(reg, there, es[n], sc);
      assert es[n] < whole && xs.Some? && x.Some?;
      AllDecide(reg, here, there, whole, es[..n], sc);
      SlicesDecide(reg, here, there, es[n], sc);
      if ys.Some? && y.Some? { AlikeSnoc(xs.value, x.value, ys.value, y.value); }
    }
  }

  /** The two maps agree on the keys that no later keyword overwrites. */
  ghost predicate SameBut(xs: map<string, Den>, ys: map<string, Den>, later: set<string>) {
    xs.Keys == ys.Keys && forall k :: k in xs && k !in later ==> xs[k] == ys[k]
  }

  lemma KeywordsSnoc(reg: Registry, mode: Mode, whole: Expr, ks: seq<Keyword>, sc: Scope)
    requires ks != [] && forall i :: 0 <= i < |ks| ==> ks[i].arg < whole
    ensures var n := |ks| - 1;
            var before, last := DenoteKeywords(reg, mode, whole, ks[..n], sc), Denote(reg, mode, ks[n].arg, sc);
            DenoteKeywords(reg, mode, whole, ks, sc)
            == if before.None? || last.None? then None else Some(before.value[ks[n].key := last.value])
  {
    hide Denote;
  }

  lemma AgreeKeywordsSnoc(reg: Registry, here: Mode, there: Mode, whole: Expr, ks: seq<Keyword>, kept: bool,
                          later: set<string>)
    requires ks != [] && forall i :: 0 <= i < |ks| ==> ks[i].arg < whole
    ensures var n := |ks| - 1;
            AgreeKeywords(reg, here, there, whole, ks, kept, later) <==>
            && AgreeKeywords(reg, here, there, whole, ks[..n], kept, later + {ks[n].key})
            && Agree(reg, here, there, ks[n].arg, kept && ks[n].key !in later)
  {
    hide Agree;
  }

  lemma {:induction false} KeywordsDecide(reg: Registry, here: Mode, there: Mode, whole: Expr, ks: seq<Keyword>,
                                          sc: Scope, later: set<string>)
    requires forall i :: 0 <= i < |ks| ==> ks[i].arg < whole
    requires DenoteKeywords(reg, here, whole, ks, sc).Some?
    ensures var xs, ys := DenoteKeywords(reg, here, whole, ks, sc), DenoteKeywords(reg, there, whole, ks, sc);
            && (ys.Some? <==> AgreeKeywords(reg, here, there, whole, ks, false, later))
            && (ys.Some? ==> EachAlike(xs.value, ys.value)
                             && (SameBut(xs.value, ys.value, later) <==>
                                   AgreeKeywords(reg, here, there, whole, ks, true, later)))
    decreases whole, 0, |ks|
  {
    hide Denote, Agree, EachAlike, SameBut, Alike;
    if ks == [] {
      NothingDiffers(later);
    } else {
      var n := |ks| - 1;
      var key := ks[n].key;
      KeywordsDecide(reg, here, there, whole, ks[..n], sc, later + {key});
      SlicesDecide(reg, here, there, ks[n].arg, sc);
      hide DenoteKeywords, AgreeKeywords;
      KeywordsSnoc(reg, here, whole, ks, sc);
      KeywordsSnoc(reg, there, whole, ks, sc);
      AgreeKeywordsSnoc(reg, here, there, whole, ks, false, later);
      AgreeKeywordsSnoc(reg, here, there, whole, ks, true, later);
      var xs, ys := DenoteKeywords(reg, here, whole, ks[..n], sc), DenoteKeywords(reg, there, whole, ks[..n], sc);
      var x, y := Denote(reg, here, ks[n].arg, sc), Denote(reg, there, ks[n].arg, sc);
      if ys.Some? && y.Some? { OneKeywordMore(xs.value, ys.value, key, x.value, y.value, later); }
    }
  }

  lemma NothingDiffers(later: set<string>)
    ensures EachAlike(map[], map[]) && SameBut(map[], map[], later)
  {
  }

  lemma OneKeywordMore(xs: map<string, Den>, ys: map<string, Den>, key: string, x: Den, y: Den, later: set<string>)
    requires EachAlike(xs, ys) && Alike(x, y)
    ensures EachAlike(xs[key := x], ys[key := y])
    ensures SameBut(xs[key := x], ys[key := y], later) <==> SameBut(xs, ys, later + {key}) && (key !in later ==> x == y)
  {
    hide Alike;
    var a, b := xs[key := x], ys[key := y];
    if SameBut(a, b, later) {
      forall k | k in xs && k !in later + {key} ensures xs[k] == ys[k] { assert a[k] == b[k]; }
      assert key !in later ==> a[key] == b[key];
    }
  }

  lemma {:induction false} ParseKind(reg: Registry, mode: Mode, e: Expr, single: bool, sc: Scope)
    requires e.Call? && DenoteParse(reg, mode, e, single, sc).Some?
    ensures DenoteParse(reg, mode, e, single, sc).value.kind == BaseKind(e)
  {
    hide DenoteAll, DenoteKeywords, Params;
    if e.func.Call? { ParseKind(reg, mode, e.func, false, sc); }
  }

  /** Calls read alike, and alike as far as their component looks at them. */
  lemma {:induction false} ParseDecides(reg: Registry, here: Mode, there: Mode, e: Expr, single: bool, sc: Scope)
    requires e.Call? && DenoteParse(reg, here, e, single, sc).Some?
    ensures var p, q := DenoteParse(reg, here, e, single, sc),
                        DenoteParse(reg, there, e, single, sc);
            && (q.Some? <==> AgreeCall(reg, here, there, e, false))
            && (q.Some? ==> ParsedAlike(p.value, q.value)
                            && (FedAllSame(reg.components[p.value.kind], p.value.feeds, q.value.feeds)
                                <==> AgreeCall(reg, here, there, e, true)))
    decreases e, 1, 0
  {
    ParseKind(reg, here, e, single, sc);
    match e.func
    case Name(_) => ConstructorDecides(reg, here, there, e, single, sc);
    case Call(_, _, _) => FeedDecides(reg, here, there, e, single, sc);
    case _ =>
  }

  lemma {:induction false} ConstructorDecides(reg: Registry, here: Mode, there: Mode, e: Expr, single: bool,
                                              sc: Scope)
    requires e.Call? && e.func.Name? && DenoteParse(reg, here, e, single, sc).Some?
    ensures var p, q := DenoteParse(reg, here, e, single, sc),
                        DenoteParse(reg, there, e, single, sc);
            && (q.Some? <==> AgreeCall(reg, here, there, e, false))
            && (q.Some? ==> ParsedAlike(p.value, q.value)
                            && (FedAllSame(reg.components[p.value.kind], p.value.feeds, q.value.feeds)
                                <==> AgreeCall(reg, here, there, e, true)))
    decreases e, 0
  {
    hide DenoteAll, Params, AllAlike, AgreeAll;
    var c := reg.components[e.func.id];
    if e.args == [] {
      NoneAgree(reg, here, there, e);
    } else {
      AllDecide(reg, here, there, e, e.args, sc);
      var q := DenoteParse(reg, there, e, single, sc);
      if q.Some? {
        var xs, ys := DenoteAll(reg, here, e, e.args, sc).value,
                      DenoteAll(reg, there, e, e.args, sc).value;
        OneFeed(c, FeedDen(xs, map[]), FeedDen(ys, map[]));
        if Wires(reg, e) { } else { AgreeAllFalse(reg, here, there, e); }
      }
    }
  }

  lemma AgreeAllFalse(reg: Registry, here: Mode, there: Mode, e: Expr)
    requires e.Call? && !Wires(reg, e)
    ensures AgreeAll(reg, here, there, e, e.args, true && Wires(reg, e)) == AgreeAll(reg, here, there, e, e.args, false)
  {
  }

  lemma NoneAgree(reg: Registry, here: Mode, there: Mode, e: Expr)
    requires e.Call? && e.args == []
    ensures forall kept :: AgreeAll(reg, here, there, e, e.args, kept)
  {
  }

  lemma OneFeed(c: Component, f: FeedDen, g: FeedDen)
    requires FeedAlike(f, g)
    ensures FeedsAlike([f], [g]) && (FedAllSame(c, [f], [g]) <==> FedSame(c, f, g))
  {
    if FedAllSame(c, [f], [g]) { assert FedSame(c, [f][0], [g][0]); }
  }

  lemma MoreFeeds(c: Component, fs: seq<FeedDen>, gs: seq<FeedDen>, f: FeedDen, g: FeedDen)
    requires FeedsAlike(fs, gs) && FeedAlike(f, g)
    ensures FeedsAlike(fs + [f], gs + [g])
    ensures FedAllSame(c, fs + [f], gs + [g]) <==> FedAllSame(c, fs, gs) && FedSame(c, f, g)
  {
    hide FeedAlike;
    FedSnoc(c, fs + [f], gs + [g]);
    assert (fs + [f])[..|fs|] == fs && (gs + [g])[..|gs|] == gs;
  }

  lemma {:induction false} FeedDecides(reg: Registry, here: Mode, there: Mode, e: Expr, single: bool, sc: Scope)
    requires e.Call? && e.func.Call? && DenoteParse(reg, here, e, single, sc).Some?
    ensures var p, q := DenoteParse(reg, here, e, single, sc),
                        DenoteParse(reg, there, e, single, sc);
            && (q.Some? <==> AgreeCall(reg, here, there, e, false))
            && (q.Some? ==> ParsedAlike(p.value, q.value)
                            && (FedAllSame(reg.components[p.value.kind], p.value.feeds, q.value.feeds)
                                <==> AgreeCall(reg, here, there, e, true)))
    decreases e, 0
  {
    hide DenoteAll, DenoteKeywords, Params, AllAlike, EachAlike, AgreeAll, AgreeKeywords, FeedsAlike, FedAllSame;
    ParseDecides(reg, here, there, e.func, false, sc);
    AllDecide(reg, here, there, e, e.args, sc);
    KeywordsDecide(reg, here, there, e, e.keywords, sc, {});
    ParseKind(reg, here, e.func, false, sc);
    var q := DenoteParse(reg, there, e, single, sc);
    if q.Some? {
      var a, b := DenoteParse(reg, here, e.func, false, sc).value,
                  DenoteParse(reg, there, e.func, false, sc).value;
      var f := FeedDen(DenoteAll(reg, here, e, e.args, sc).value,
                       DenoteKeywords(reg, here, e, e.keywords, sc).value);
      var g := FeedDen(DenoteAll(reg, there, e, e.args, sc).value,
                       DenoteKeywords(reg, there, e, e.keywords, sc).value);
      MoreFeeds(reg.components[a.kind], a.feeds, b.feeds, f, g);
      assert SameBut(f.kwargs, g.kwargs, {}) <==> f.kwargs == g.kwargs by { SameEverywhere(f.kwargs, g.kwargs); }
    }
  }

  lemma SameEverywhere(xs: map<string, Den>, ys: map<string, Den>)
    ensures SameBut(xs, ys, {}) <==> xs == ys
  {
  }

  lemma {:induction false} CallDecides(reg: Registry, here: Mode, there: Mode, e: Expr, sc: Scope)
    requires e.Call? && Denote(reg, here, e, sc).Some?
    ensures Decided(Denote(reg, here, e, sc), Denote(reg, there, e, sc),
                    Agree(reg, here, there, e, false), Agree(reg, here, there, e, true))
    decreases e, 1, 1
  {
    hide DenoteParse, Invoke, AgreeCall, FedAllSame, FeedsAlike;
    var single := !e.func.Call?;
    ParseDecides(reg, here, there, e, single, sc);
    var p, q := DenoteParse(reg, here, e, single, sc), DenoteParse(reg, there, e, single, sc);
    if q.Some? { InvokeAlike(reg, p.value, q.value); }
  }

  // -------------------------------------------------------------------- statements

  /** Something of the new instance stays: a name for it, or the instance itself when it is a sink. */
  predicate KeepsInstance(reg: Registry, target: Expr, kind: string) {
    target.Tuple? ==> !AllThrown(target.members) || IsSink(reg, kind)
  }

  ghost predicate AgreeStmt(reg: Registry, here: Mode, there: Mode, st: Stmt) {
    match st
    case Assign(targets, e) =>
      |targets| == 1 ==>
        if IsConstructorCall(e) then AgreeCall(reg, here, there, e, KeepsInstance(reg, targets[0], BaseKind(e)))
        else Agree(reg, here, there, e, true)
    case ExprStmt(e) => IsConstructorCall(e) ==> AgreeCall(reg, here, there, e, true)
  }

  /** The last name bound, other than "_", shows the node. */
  lemma {:induction false} BoundShows(sc: Scope, node: Value, other: Value, names: seq<string>,
                                      outputs: seq<OutputPort>)
    requires |names| == |outputs|
    ensures if Throwaway(names) then BindAll(sc, node, names, outputs) == sc
            else BindAll(sc, node, names, outputs) == BindAll(sc, other, names, outputs) <==> node == other
  {
    if !Throwaway(names) {
      var i :| 0 <= i < |names| && names[i] != "_";
      BoundTo(sc, node, names, outputs, names[i]);
      BoundTo(sc, other, names, outputs, names[i]);
    } else {
      NothingNamed(sc, node, names, outputs);
    }
  }

  function LastOutput(names: seq<string>, outputs: seq<OutputPort>, x: string): string
    requires |names| == |outputs| && x in names
  {
    var n := |names| - 1;
    if names[n] == x then outputs[n].id
    else assert names == names[..n] + [names[n]]; LastOutput(names[..n], outputs[..n], x)
  }

  lemma {:induction false} BoundTo(sc: Scope, node: Value, names: seq<string>, outputs: seq<OutputPort>, x: string)
    requires |names| == |outputs| && x in names && x != "_"
    ensures x in BindAll(sc, node, names, outputs)
    ensures BindAll(sc, node, names, outputs)[x] == Handle(OfInstance(node, LastOutput(names, outputs, x)))
  {
    var n := |names| - 1;
    if names[n] != x {
      assert names == names[..n] + [names[n]];
      BoundTo(sc, node, names[..n], outputs[..n], x);
    }
  }

  predicate Throwaway(names: seq<string>) { forall i :: 0 <= i < |names| ==> names[i] == "_" }

  lemma {:induction false} NothingNamed(sc: Scope, node: Value, names: seq<string>, outputs: seq<OutputPort>)
    requires |names| == |outputs| && Throwaway(names)
    ensures BindAll(sc, node, names, outputs) == sc
  {
    if names != [] { NothingNamed(sc, node, names[..|names| - 1], outputs[..|names| - 1]); }
  }

  predicate AllThrown(members: seq<Expr>) {
    forall i :: 0 <= i < |members| ==> members[i].Name? ==> members[i].id == "_"
  }

  lemma NamesOfMembers(members: seq<Expr>)
    requires forall m :: m in members ==> m.Name?
    ensures Throwaway(NamesOf(members)) <==> AllThrown(members)
  {
    forall i | 0 <= i < |members| ensures NamesOf(members)[i] == members[i].id && members[i].Name? {
      assert members[i] in members;
    }
    if AllThrown(members) {
      forall i | 0 <= i < |NamesOf(members)| ensures NamesOf(members)[i] == "_" { assert members[i].id == "_"; }
    }
    if Throwaway(NamesOf(members)) {
      forall i | 0 <= i < |members| ensures members[i].id == "_" { assert NamesOf(members)[i] == "_"; }
    }
  }

  lemma UnpackDecides(reg: Registry, members: seq<Expr>, p: Parsed, q: Parsed, w: World)
    requires PlainRegistry(reg) && p.kind in reg.components && PlainWords(reg, p.kind, p.params) && ParsedAlike(p, q)
    requires Unpack(reg, members, p, w).Some?
    ensures Unpack(reg, members, q, w).Some?
    ensures Unpack(reg, members, q, w) == Unpack(reg, members, p, w) <==>
            !KeepsInstance(reg, Tuple(members), p.kind) || FedAllSame(reg.components[p.kind], p.feeds, q.feeds)
  {
    hide PlainRegistry, PlainWords, ParsedAlike, Instantiate, FedAllSame, BindAll;
    SameCall(p, q);
    InstantiateAlike(reg, p, q);
    var a, b := Instantiate(reg, p).value, Instantiate(reg, q).value;
    NamesOfMembers(members);
    BoundShows(w.scope, a, b, NamesOf(members), reg.components[p.kind].outputs);
    BoundShows(w.scope, b, a, NamesOf(members), reg.components[p.kind].outputs);
    SinksShow(reg, w.sinks, p.kind, a, b);
  }

  lemma SameCall(p: Parsed, q: Parsed)
    requires ParsedAlike(p, q)
    ensures p.kind == q.kind && p.params == q.params
  {
  }

  lemma SinksShow(reg: Registry, sinks: seq<Value>, kind: string, a: Value, b: Value)
    ensures sinks + SinkOf(reg, kind, a) == sinks + SinkOf(reg, kind, b) <==> a == b || !IsSink(reg, kind)
  {
    if IsSink(reg, kind) { SnocDiffers(sinks, a, sinks, b); }
  }

  lemma ConstructorStmtDecides(reg: Registry, here: Mode, there: Mode, st: Stmt, w: World)
    requires PlainRegistry(reg) && StmtOk(reg, st) && IsConstructorCall(ExprOf(st))
    requires DenoteStmt(reg, here, st, w).Some?
    ensures DenoteStmt(reg, there, st, w) == DenoteStmt(reg, here, st, w) <==>
              AgreeStmt(reg, here, there, st)
  {
    hide PlainRegistry, PlainWords, NamesOk, DenoteParse, ParsedAlike, Instantiate, FedAllSame, Unpack, AgreeCall;
    var e := ExprOf(st);
    var single := !e.func.Call?;
    ParseDecides(reg, here, there, e, single, w.scope);
    ParseKind(reg, here, e, single, w.scope);
    PlainParse(reg, here, e, single, w.scope);
    var p, q := DenoteParse(reg, here, e, single, w.scope),
                DenoteParse(reg, there, e, single, w.scope);
    if AgreeCall(reg, here, there, e, true) { AgreeCallWeakens(reg, here, there, e); }
    if q.Some? {
      SameCall(p.value, q.value);
      InstantiateAlike(reg, p.value, q.value);
      if st.Assign? && st.targets[0].Tuple? {
        UnpackDecides(reg, st.targets[0].members, p.value, q.value, w);
      } else {
        AssignedShows(reg, st, p.value, q.value, w);
      }
    }
  }

  /** The variable or the sink shows which instance it is. */
  lemma AssignedShows(reg: Registry, st: Stmt, p: Parsed, q: Parsed, w: World)
    requires p.kind in reg.components && q.kind == p.kind
    requires Instantiate(reg, p).Some? <==> Instantiate(reg, q).Some?
    ensures st.Assign? && |st.targets| == 1 && st.targets[0].Name? &&
            AssignInstance(reg, st.targets[0].id, p, w).Some? ==>
              (AssignInstance(reg, st.targets[0].id, q, w) == AssignInstance(reg, st.targets[0].id, p, w)
               <==> Instantiate(reg, q) == Instantiate(reg, p))
    ensures FeedSink(reg, p, w).Some? ==>
              (FeedSink(reg, q, w) == FeedSink(reg, p, w) <==> Instantiate(reg, q) == Instantiate(reg, p))
  {
    hide Instantiate;
    if Instantiate(reg, p).Some? {
      var a, b := Instantiate(reg, p).value, Instantiate(reg, q).value;
      SnocDiffers(w.sinks, a, w.sinks, b);
      if st.Assign? && |st.targets| == 1 && st.targets[0].Name? {
        var x := st.targets[0].id;
        assert w.scope[x := Instance(a)][x] == Instance(a) && w.scope[x := Instance(b)][x] == Instance(b);
      }
    }
  }

  lemma ExpressionStmtDecides(reg: Registry, here: Mode, there: Mode, st: Stmt, w: World)
    requires st.Assign? && !IsConstructorCall(st.rhs) && DenoteStmt(reg, here, st, w).Some?
    ensures DenoteStmt(reg, there, st, w) == DenoteStmt(reg, here, st, w) <==>
              AgreeStmt(reg, here, there, st)
  {
    hide Denote, Agree, Alike;
    SlicesDecide(reg, here, there, st.rhs, w.scope);
    if Agree(reg, here, there, st.rhs, true) { AgreeWeakens(reg, here, there, st.rhs); }
    var a, b := Denote(reg, here, st.rhs, w.scope), Denote(reg, there, st.rhs, w.scope);
    if b.Some? {
      var x := st.targets[0].id;
      assert w.scope[x := Handle(a.value)][x] == Handle(a.value) && w.scope[x := Handle(b.value)][x] == Handle(b.value);
    }
  }

  /** A statement accepted under one reading does the same under another exactly when its slices agree. */
  lemma StmtDecides(reg: Registry, here: Mode, there: Mode, st: Stmt, w: World)
    requires PlainRegistry(reg) && StmtOk(reg, st) && DenoteStmt(reg, here, st, w).Some?
    ensures DenoteStmt(reg, there, st, w) == DenoteStmt(reg, here, st, w) <==>
              AgreeStmt(reg, here, there, st)
  {
    hide PlainRegistry, AgreeStmt, StmtOk;
    if IsConstructorCall(ExprOf(st)) {
      ConstructorStmtDecides(reg, here, there, st, w);
    } else {
      ExpressionStmtDecides(reg, here, there, st, w);
    }
  }
}
