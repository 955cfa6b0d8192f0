/** Slot texts: which nodes come to name others outside their schema, and programs in which none does. */
module SlotTexts {
  import opened Graph
  import opened Ast
  import opened Registry
  import opened NodeIds
  import opened CompilationContext
  import opened Denotation
  import opened Slots
  import opened ProgramMeaning
  import opened PeriodShapes
  import opened Lowering
  import opened NodeBuilder

  // ---------------------------------------------------------------- terms that name nodes

  /** No option outside the schema of any node names another node. */
  ghost predicate Textless(g: seq<Node>) { forall n :: n in g ==> TextIds(n) == {} }

  predicate MeaningNames(m: Meaning) {
    match m
    case Raw(_) => false
    case TextMeaning(v) => v.Output?
    case SchemaMeaning(_, s, cs) => s.Output? || exists i :: 0 <= i < |cs| && cs[i].Output?
  }

  /** An option outside the schema stands for an output of a node. */
  ghost predicate NamesNodes(x: Value) {
    x.Apply? && exists key :: key in x.options && key != "schema" && MeaningNames(x.options[key])
  }

  /** A node names others in its texts exactly when its term does. */
  lemma TextsShow(n: Node, v: Valuation)
    requires OptionIds(n) <= v.Keys
    ensures TextIds(n) != {} <==> NamesNodes(NodeValue(n, v))
  {
    hide Refers;
    var x := NodeValue(n, v);
    forall key | key in n.options && key != "schema" && !Verbatim(n.kind, key)
      ensures NamedIn(n.options[key]) != {} <==> MeaningNames(x.options[key])
    {
      OptionShows(n, v, key);
    }
    if TextIds(n) != {} {
      var d :| d in TextIds(n);
      var key :| key in n.options && key != "schema" && !Verbatim(n.kind, key) && d in NamedIn(n.options[key]);
      assert MeaningNames(x.options[key]);
    }
    if NamesNodes(x) {
      var key :| key in x.options && key != "schema" && MeaningNames(x.options[key]);
      var d :| d in NamedIn(n.options[key]);
      assert d in TextIds(n);
    }
  }

  lemma OptionShows(n: Node, v: Valuation, key: string)
    requires OptionIds(n) <= v.Keys && key in n.options && !Verbatim(n.kind, key)
    ensures NamedIn(n.options[key]) != {} <==> MeaningNames(OptionMeaning(n.kind, key, n.options[key], v))
  {
    hide Refers, OptionIds;
    var o := n.options[key];
    NamedInOption(n, key);
    forall f | f in FieldTexts(o) ensures FieldValue(f, v).Output? <==> Refers(f) {
      if Refers(f) { assert NodeOf(f) in NamedIn(o); }
    }
    match o
    case Text(t) =>
      assert FieldTexts(o)[0] == t;
      assert Refers(t) ==> NodeOf(t) in NamedIn(o);
      if d :| d in NamedIn(o) { assert Refers(t); }
    case Schema(_, s, cs) =>
      assert s in FieldTexts(o) && forall i :: 0 <= i < |cs| ==> cs[i] in FieldTexts(o);
      forall f | f in FieldTexts(o) && Refers(f)
        ensures MeaningNames(OptionMeaning(n.kind, key, o, v)) && NodeOf(f) in NamedIn(o)
      {
        if f != s {
          var i :| 0 <= i < |cs| && cs[i] == f;
          assert FieldValues(cs, v)[i].Output?;
        }
      }
      if MeaningNames(OptionMeaning(n.kind, key, o, v)) && !Refers(s) {
        var i :| 0 <= i < |cs| && FieldValues(cs, v)[i].Output?;
        assert cs[i] in FieldTexts(o) && Refers(cs[i]);
      }
    case _ =>
  }

  // ----------------------------------------------------------------- slots outside the schema

  /** Slot texts occur in the schema only. */
  predicate SlotsInSchema(options: map<string, OptionValue>) {
    forall key :: key in options && key != "schema" ==> NoSlots(options[key])
  }

  /** Validation, defaults and clamping write no slot texts outside the schema on their own. */
  ghost predicate AddsNoSlots(reg: Registry) {
    forall kind, params :: reg.configure(kind, params).Some? && SlotsInSchema(params) ==>
      SlotsInSchema(reg.configure(kind, params).value.options)
  }

  lemma {:induction false} SlotlessKey(reg: Registry, c: Component, draft: Draft, fs: seq<FeedDen>, key: string)
    requires key in draft.options && Slotless(reg, draft.options[key])
    ensures FeedAll(reg, c, draft, fs).Some? ==>
              key in FeedAll(reg, c, draft, fs).value.options &&
              FeedAll(reg, c, draft, fs).value.options[key] == draft.options[key]
  {
    hide WireFeed, Slotless, ResolveMeaning;
    if fs != [] {
      SlotlessKey(reg, c, draft, fs[..|fs| - 1], key);
      SlotlessMeaning(reg, draft.options[key], Values(fs[|fs| - 1].args));
    }
  }

  lemma SlotlessMeaning(reg: Registry, m: Meaning, args: seq<Value>)
    requires Slotless(reg, m)
    ensures ResolveMeaning(reg, m, args).Some? ==> ResolveMeaning(reg, m, args).value == m
  {
    hide SlotOfValue;
    if m.SchemaMeaning? { SlotlessCells(reg, m.cells, args); }
  }

  lemma {:induction false} FeedAllKeys(reg: Registry, c: Component, draft: Draft, fs: seq<FeedDen>)
    ensures FeedAll(reg, c, draft, fs).Some? ==> FeedAll(reg, c, draft, fs).value.options.Keys == draft.options.Keys
  {
    hide WireFeed, ResolveMeaning;
    if fs != [] { FeedAllKeys(reg, c, draft, fs[..|fs| - 1]); }
  }

  lemma UnboundNames(kind: string, key: string, o: OptionValue)
    ensures !MeaningNames(OptionMeaning(kind, key, o, map[]))
  {
  }

  /** Without slots outside the schema an instance names no node there. */
  lemma SlotlessInstance(reg: Registry, p: Parsed)
    requires p.kind in reg.components && AddsNoSlots(reg) && SlotsInSchema(p.params)
    ensures Instantiate(reg, p).Some? ==> !NamesNodes(Instantiate(reg, p).value)
  {
    hide FeedAll, NoSlots, Slotless, OptionMeaning, MeaningNames;
    var cfg := reg.configure(p.kind, p.params);
    if cfg.Some? {
      var c, draft := reg.components[p.kind], Draft(OptionsMeaning(p.kind, cfg.value.options, map[]), map[]);
      var r := FeedAll(reg, c, draft, p.feeds);
      FeedAllKeys(reg, c, draft, p.feeds);
      forall key | r.Some? && key in cfg.value.options && key != "schema" ensures !MeaningNames(r.value.options[key]) {
        OptionSlotless(reg, p.kind, key, cfg.value.options[key]);
        SlotlessKey(reg, c, draft, p.feeds, key);
        UnboundNames(p.kind, key, cfg.value.options[key]);
      }
    }
  }

  // ------------------------------------------------------------------------- programs

  /** The argument is no slot text, and no custom literal that holds one. */
  ghost predicate SlotlessArg(reg: Registry, e: Expr) {
    match e
    case Call(_, _, _) => reg.literalCall(e).Some? ==> NoSlots(reg.literalCall(e).value)
    case Constant(StrC(s)) => !SlotText(s)
    case Name(id) => !SlotText(id)
    case _ => true
  }

  ghost predicate SlotlessKeywords(reg: Registry, ks: seq<Keyword>) {
    forall i :: 0 <= i < |ks| ==> ks[i].key == "schema" || SlotlessArg(reg, ks[i].arg)
  }

  /** The constructor keywords of a call chain hold slot texts under `schema` only. */
  ghost predicate SlotlessCall(reg: Registry, e: Expr) {
    e.Call? ==>
      match e.func
      case Name(_) => SlotlessKeywords(reg, e.keywords)
      case Call(_, _, _) => SlotlessCall(reg, e.func)
      case _ => true
  }

  ghost predicate SlotlessStmt(reg: Registry, st: Stmt) {
    match st
    case Assign(_, e) => SlotlessCall(reg, e)
    case ExprStmt(e) => SlotlessCall(reg, e)
  }

  lemma {:induction false} SlotlessParams(reg: Registry, kind: string, ks: seq<Keyword>, sc: Scope)
    requires kind in reg.components && SlotlessKeywords(reg, ks) && Params(reg, kind, ks, sc).Some?
    ensures SlotsInSchema(Params(reg, kind, ks, sc).value)
  {
    hide SlotText;
    if ks != [] {
      var k := ks[|ks| - 1];
      SlotlessParams(reg, kind, ks[..|ks| - 1], sc);
      if k.key != "schema" { LiteralSlotless(reg, k.arg, sc); }
    }
  }

  lemma LiteralSlotless(reg: Registry, e: Expr, sc: Scope)
    requires SlotlessArg(reg, e)
    ensures OptionLiteral(reg, e, sc).Some? ==> NoSlots(OptionLiteral(reg, e, sc).value)
    ensures SpecialLiteral(e).Some? ==> NoSlots(SpecialLiteral(e).value)
  {
    assert !SlotText("");
  }

  lemma {:induction false} SlotlessParse(reg: Registry, mode: Mode, e: Expr, single: bool, sc: Scope)
    requires e.Call? && SlotlessCall(reg, e) && DenoteParse(reg, mode, e, single, sc).Some?
    ensures SlotsInSchema(DenoteParse(reg, mode, e, single, sc).value.params)
    decreases e
  {
    hide Params, DenoteAll, DenoteKeywords, SlotlessKeywords;
    match e.func
    case Name(kind) => SlotlessParams(reg, kind, e.keywords, sc);
    case Call(_, _, _) => SlotlessParse(reg, mode, e.func, false, sc);
    case _ =>
  }

  // ------------------------------------------------------------------------- lowering

  /** Lowering an expression adds no node that names others in its texts. */
  lemma StepsTextless(reg: Registry, s0: State, s1: State)
    requires Steps(reg, s0, s1)
    ensures Textless(s0.nodes) ==> Textless(s1.nodes)
  {
    hide Ready, TextIds, ValuesGrow, TypesStay, BindingsStay;
    forall n | n in s1.nodes ensures n in s0.nodes || TextIds(n) == {} {
      var i :| 0 <= i < |s1.nodes| && s1.nodes[i] == n;
      if i < |s0.nodes| { assert s1.nodes[i] == s0.nodes[i]; }
    }
  }

  /** A placed node names others in its texts only when its term does. */
  lemma PlacedTextless(reg: Registry, u: State, n: Node, bound: bool, g: State, f: State, node: Value)
    requires Placed(reg, u, n, bound, g, f, node) && !NamesNodes(node)
    ensures Textless(u.nodes) ==> Textless(f.nodes)
  {
    hide TextIds, SchemaIds, ValuesGrow, TypesStay, BindingsStay, NamesNodes, NodeValue;
    var t := |u.nodes|;
    assert Finished(f, f.nodes[t]);
    TextsShow(f.nodes[t], f.val);
    forall m | m in f.nodes ensures m in u.nodes || TextIds(m) == {} {
      var i :| 0 <= i < |f.nodes| && f.nodes[i] == m;
      if i < t { assert f.nodes[i] == Entered(u, n, bound).nodes[i]; }
      if i > t { assert f.nodes[i] == g.nodes[i]; }
    }
  }
}
