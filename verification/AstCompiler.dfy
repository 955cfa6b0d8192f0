/** The compiler: folding, lowering, three graph passes, and the list that is returned. */
module AstCompiler {
  import opened Wrappers
  import opened Graph
  import opened Ast
  import opened Registry
  import opened NodeIds
  import opened CompilationContext
  import opened ConstantFolder
  import opened Denotation
  import opened ProgramMeaning
  import opened ExpressionCompiler
  import opened SlotTexts
  import opened Statements
  import opened AstVisitor
  import opened FoldingExactness
  import opened FoldingMeaning
  import opened PassPipeline
  import opened CompiledLists
  import opened PassChain
  import CseOptimizer
  import OrphanRemoval
  import TimeframeResolver
  import TopologicalSort

  // ------------------------------------------------- folding keeps names acceptable

  lemma {:induction false} NamesKept(reg: Registry, math: Math, e: Expr, table: Table)
    requires NamesOk(reg, e)
    ensures NamesOk(reg, TransformExpression(math, e, table))
    decreases e, 0
  {
    match e
    case Attribute(base, _) => NamesKept(reg, math, base, table);
    case Call(func, args, keywords) =>
      SameForm(math, func, table);
      if func.Name? {
        PlainKeywordsKept(reg, math, func.id, e, keywords, table);
      } else {
        NamesKept(reg, math, func, table);
      }
      AllNamesKept(reg, math, e, args, table);
      KeywordNamesKept(reg, math, e, keywords, table);
    case BinOp(_, l, r) => NamesKept(reg, math, l, table); NamesKept(reg, math, r, table);
    case Compare(first, _, others) => NamesKept(reg, math, first, table); AllNamesKept(reg, math, e, others, table);
    case BoolOp(_, values) => AllNamesKept(reg, math, e, values, table);
    case UnaryOp(_, x) => NamesKept(reg, math, x, table);
    case IfExp(a, b, c) =>
      NamesKept(reg, math, a, table);
      NamesKept(reg, math, b, table);
      NamesKept(reg, math, c, table);
    case Subscript(value, _) => NamesKept(reg, math, value, table);
    case _ =>
  }

  lemma {:induction false} AllNamesKept(reg: Registry, math: Math, whole: Expr, es: seq<Expr>, table: Table)
    requires forall i :: 0 <= i < |es| ==> es[i] < whole && NamesOk(reg, es[i])
    ensures forall i :: 0 <= i < |es| ==> NamesOk(reg, TransformAll(math, whole, es, table)[i])
    decreases whole, 0, |es|
  {
    if es != [] {
      AllNamesKept(reg, math, whole, es[..|es| - 1], table);
      NamesKept(reg, math, es[|es| - 1], table);
    }
  }

  lemma {:induction false} KeywordNamesKept(reg: Registry, math: Math, whole: Expr, ks: seq<Keyword>, table: Table)
    requires forall i :: 0 <= i < |ks| ==> ks[i].arg < whole && NamesOk(reg, ks[i].arg)
    ensures forall i :: 0 <= i < |ks| ==> NamesOk(reg, TransformKeywords(math, whole, ks, table)[i].arg)
    decreases whole, 0, |ks|
  {
    if ks != [] {
      KeywordNamesKept(reg, math, whole, ks[..|ks| - 1], table);
      NamesKept(reg, math, ks[|ks| - 1].arg, table);
    }
  }

  lemma {:induction false} PlainKeywordsKept(reg: Registry, math: Math, kind: string, whole: Expr, ks: seq<Keyword>,
                                             table: Table)
    requires forall i :: 0 <= i < |ks| ==> ks[i].arg < whole
    requires PlainKeywords(reg, kind, ks)
    ensures PlainKeywords(reg, kind, TransformKeywords(math, whole, ks, table))
  {
    if ks != [] {
      var n := |ks| - 1;
      PlainKeywordsKept(reg, math, kind, whole, ks[..n], table);
      SameForm(math, ks[n].arg, table);
      TransformKeywordsSnoc(math, whole, ks, table);
    }
  }

  lemma FoldedStmtOk(reg: Registry, math: Math, st: Stmt, table: Table)
    requires StmtOk(reg, st)
    ensures StmtOk(reg, FoldStmt(math, st, table))
  {
    NamesKept(reg, math, ExprOf(st), table);
    SameConstructor(math, ExprOf(st), table);
  }

  /** No slot text outside a schema, in the program as it is written and as it is folded. */
  ghost predicate WritesNoSlots(reg: Registry, math: Math, m: Module, table: Table) {
    AddsNoSlots(reg) && SlotlessProgram(reg, m) && LiteralsStable(reg, math, table)
  }

  lemma SlotlessFolded(reg: Registry, math: Math, m: Module, table: Table)
    requires LiteralsStable(reg, math, table) && SlotlessProgram(reg, m)
    ensures SlotlessProgram(reg, FoldModule(math, m, table))
  {
    hide LiteralsStable, SlotlessCall, TransformExpression;
    forall st | st in FoldModule(math, m, table) ensures SlotlessStmt(reg, st) {
      var i :| 0 <= i < |m| && FoldStmt(math, m[i], table) == st;
      assert m[i] in m && SlotlessStmt(reg, m[i]);
      SlotlessCallFolded(reg, math, ExprOf(m[i]), table);
    }
  }

  lemma {:induction false} SlotlessCallFolded(reg: Registry, math: Math, e: Expr, table: Table)
    requires LiteralsStable(reg, math, table) && SlotlessCall(reg, e)
    ensures SlotlessCall(reg, TransformExpression(math, e, table))
  {
    hide LiteralsStable, SlotlessKeywords, TransformKeywords, TransformAll;
    SameForm(math, e, table);
    if e.Call? {
      SameForm(math, e.func, table);
      if e.func.Call? {
        SlotlessCallFolded(reg, math, e.func, table);
      } else if e.func.Name? {
        SlotlessKeywordsFolded(reg, math, e, e.keywords, table);
      }
    }
  }

  lemma {:induction false} SlotlessKeywordsFolded(reg: Registry, math: Math, whole: Expr, ks: seq<Keyword>,
                                                  table: Table)
    requires forall i :: 0 <= i < |ks| ==> ks[i].arg < whole
    requires LiteralsStable(reg, math, table) && SlotlessKeywords(reg, ks)
    ensures SlotlessKeywords(reg, TransformKeywords(math, whole, ks, table))
  {
    hide LiteralsStable, SlotlessArg, TransformExpression, TransformKeywords;
    if ks == [] {
      NoKeywordsFolded(math, whole, ks, table);
    } else {
      var n := |ks| - 1;
      SlotlessKeywordsFolded(reg, math, whole, ks[..n], table);
      if ks[n].key != "schema" { SlotlessArgFolded(reg, math, ks[n].arg, table); }
      TransformKeywordsSnoc(math, whole, ks, table);
    }
  }

  lemma NoKeywordsFolded(math: Math, whole: Expr, ks: seq<Keyword>, table: Table)
    requires ks == []
    ensures TransformKeywords(math, whole, ks, table) == []
  {
  }

  lemma SlotlessArgFolded(reg: Registry, math: Math, e: Expr, table: Table)
    requires LiteralsStable(reg, math, table) && SlotlessArg(reg, e)
    ensures SlotlessArg(reg, TransformExpression(math, e, table))
  {
    SameForm(math, e, table);
  }

  // ------------------------------------------------------------------------ compiler

  /** What a folder with this table makes of the program. */
  ghost function FoldedMeaning(reg: Registry, math: Math, m: Module, table: Table): Option<World> {
    DenoteModule(reg, Folded, FoldModule(math, m, Identify(math, m, table)), START)
  }

  class AlgorithmAstCompiler {
    const context: Context
    const constantFolder: Folder
    const hashing: CseOptimizer.Hashing
    const rank: TimeframeResolver.Rank

    constructor (registry: Registry, math: Math, hashing: CseOptimizer.Hashing, rank: TimeframeResolver.Rank)
      ensures fresh(context) && fresh(constantFolder)
      ensures context.registry == registry && this.hashing == hashing && this.rank == rank
      ensures constantFolder.math == math && constantFolder.constantTable == map[]
    {
      this.hashing, this.rank := hashing, rank;
      var c := new Context(registry);
      var f := new Folder(math);
      this.context, this.constantFolder := c, f;
    }

    /** Folding and lowering: the context represents the folded program. */
    method Lower(m: Module) returns (r: Result<bool>)
      requires PlainRegistry(context.registry) && forall st :: st in m ==> StmtOk(context.registry, st)
      modifies context, constantFolder
      ensures Stated(context.registry, context.S(), r,
                     FoldedMeaning(context.registry, constantFolder.math, m, old(constantFolder.constantTable)))
      ensures constantFolder.constantTable == Identify(constantFolder.math, m, old(constantFolder.constantTable))
      ensures r.Ok? && WritesNoSlots(context.registry, constantFolder.math, m, constantFolder.constantTable) ==>
                Textless(context.algorithms)
    {
      hide PlainRegistry, StmtOk, Represented, DenoteModule, AddsNoSlots, SlotlessProgram, LiteralsStable, Textless;
      context.Clear();
      var folded := constantFolder.PreprocessModule(m);
      forall st | st in folded ensures StmtOk(context.registry, st) {
        var i :| 0 <= i < |folded| && folded[i] == st;
        assert m[i] in m;
        FoldedStmtOk(context.registry, constantFolder.math, m[i], constantFolder.constantTable);
      }
      r := VisitModule(context, folded);
      if WritesNoSlots(context.registry, constantFolder.math, m, constantFolder.constantTable) {
        SlotlessFolded(context.registry, constantFolder.math, m, constantFolder.constantTable);
      }
    }

    /** Duplicates merged, then dead nodes removed; fails only when there is no sink to keep. */
    method Prune(skipSinkValidation: bool, ghost w: World)
      returns (r: Result<bool>, ghost rd: CseOptimizer.Redirect, ghost live: set<Id>)
      requires Represented(context.registry, context.S(), w) && SessionsDistinct(hashing)
      modifies context
      ensures r.Ok? <==> skipSinkValidation || w.sinks != []
      ensures r.Ok? ==> Reduced(context.registry, w, hashing, old(context.algorithms), rd, live, context.algorithms)
    {
      hide Represented, IsSink, SessionsDistinct, CseOptimizer.Redirects, CseOptimizer.Survivors, OrphanRemoval.Keep,
           Sound, Feeds, IsLive;
      ghost var reg, s := context.registry, context.S();
      LoweredIsPlain(reg, s, w);
      rd := CseOptimizer.Optimize(context, hashing);
      ghost var g1 := context.algorithms;
      OptimizedHasSink(reg, w, hashing, s, rd);
      r, live := OrphanRemoval.RemoveOrphanNodes(context, skipSinkValidation);
      if w.sinks == [] {
        live := Ids(g1);
        KeepAll(g1, live);
      }
      LiveOrAll(reg, w, g1, live);
    }

    /**
     The passes in order.  A program is accepted exactly when it has a meaning, a sink unless the
     caller waives it, and timeframes for what is left of it; the sort never finds a cycle.  The
     list means the program exactly when no kept option outside a schema names a merged duplicate.
     */
    method CompileAst(m: Module, skipSinkValidation: bool)
      returns (r: Result<seq<Node>>, ghost lowered: State, ghost rd: CseOptimizer.Redirect, ghost sorted: seq<Node>)
      requires PlainRegistry(context.registry) && forall st :: st in m ==> StmtOk(context.registry, st)
      requires SessionsDistinct(hashing)
      modifies context, constantFolder
      ensures var want := FoldedMeaning(context.registry, constantFolder.math, m, old(constantFolder.constantTable));
              var reaches := want.Some? && (skipSinkValidation || want.value.sinks != []);
              && (r.Ok? <==> reaches && TimeframeResolver.Resolvable(context.registry, sorted, skipSinkValidation))
              && (reaches ==> Sorted(context.registry, want.value, hashing, lowered, rd, sorted))
      ensures r.Ok? ==> Timetabled(context.registry, rank, sorted, r.value)
      ensures var want := FoldedMeaning(context.registry, constantFolder.math, m, old(constantFolder.constantTable));
              r.Ok? ==> (CompiledUpToTime(context.registry, want.value, r.value) <==>
                         CseOptimizer.TextsKept(lowered.nodes, rd, Ids(r.value)))
      ensures var want := FoldedMeaning(context.registry, constantFolder.math, m, old(constantFolder.constantTable));
              var table := Identify(constantFolder.math, m, old(constantFolder.constantTable));
              r.Ok? ==> want.Some?
                        && (WritesNoSlots(context.registry, constantFolder.math, m, table) ==>
                              CompiledUpToTime(context.registry, want.value, r.value))
      ensures r.Ok? ==> context.nodeLookup.Keys == Ids(r.value)
                        && forall i :: 0 <= i < |r.value| ==> context.nodeLookup[r.value[i].id] == i
    {
      hide PlainRegistry, StmtOk, Represented, Delivers, Reduced, Sorted, FoldedMeaning, SessionsDistinct, Framed,
           TimeframeResolver.Resolvable, Timetabled, Meant, Compiled, CompiledUpToTime, CseOptimizer.TextsKept,
           WritesNoSlots, Textless;
      ghost var reg := context.registry;
      ghost var want := FoldedMeaning(reg, constantFolder.math, m, constantFolder.constantTable);
      rd, sorted := map[], [];
      var low := Lower(m);
      lowered := context.S();
      if low.Err? { r := Err; return; }
      ghost var live;
      var pruned;
      pruned, rd, live := Prune(skipSinkValidation, want.value);
      if pruned.Err? { r := Err; return; }
      ghost var k, v := context.algorithms, PrunedTerms(lowered.val, rd, live);
      ReducedDelivers(reg, want.value, hashing, lowered, rd, live, k);
      ReducedMeans(reg, want.value, hashing, lowered, rd, live, k);
      DeliversFramed(reg, want.value, lowered.nodes, rd, k, v);
      FramedIsAcyclic(k, v);
      var order := TopologicalSort.TopologicalSort(context.algorithms);
      sorted := order.nodes;
      SortedIsCompiled(reg, want.value, hashing, lowered.nodes, rd, live, k, v, sorted);
      SortedIs(reg, want.value, hashing, lowered, rd, live, k, sorted);
      context.algorithms := order.nodes;
      var timed;
      ghost var own;
      timed, own := TimeframeResolver.ResolveTimeframes(context, rank, skipSinkValidation);
      if timed.Err? { r := Err; return; }
      TimetabledIs(reg, rank, sorted, own, context.algorithms);
      TextlessIsKept(lowered.nodes, rd, Ids(context.algorithms));
      TimedIsCompiled(reg, rank, want.value, hashing, lowered, rd, sorted, context.algorithms);
      RebuildLookup();
      r := Ok(context.algorithms);
    }

    method RebuildLookup()
      requires Distinct(context.algorithms)
      modifies context`nodeLookup
      ensures context.nodeLookup.Keys == Ids(context.algorithms)
      ensures forall i :: 0 <= i < |context.algorithms| ==> context.nodeLookup[context.algorithms[i].id] == i
    {
      var g := context.algorithms;
      context.nodeLookup := map[];
      for i := 0 to |g|
        invariant context.nodeLookup.Keys == Ids(g[..i])
        invariant forall k :: 0 <= k < i ==> context.nodeLookup[g[k].id] == k
      {
        assert g[..i + 1] == g[..i] + [g[i]];
        assert forall k :: 0 <= k < i ==> g[k] in g[..i] && g[k].id != g[i].id;
        context.nodeLookup := context.nodeLookup[g[i].id := i];
      }
      assert g[..|g|] == g;
      assert forall i :: 0 <= i < |g| ==> g[i] in g;
    }
  }

  /** A fresh compiler; where folding is faithful the program means what its source means. */
  method CompileAlgorithm(registry: Registry, math: Math, hashing: CseOptimizer.Hashing, rank: TimeframeResolver.Rank,
                          m: Module)
    returns (r: Result<seq<Node>>, ghost lowered: State, ghost rd: CseOptimizer.Redirect, ghost sorted: seq<Node>)
    requires PlainRegistry(registry) && SessionsDistinct(hashing) && forall st :: st in m ==> StmtOk(registry, st)
    ensures var want := FoldedMeaning(registry, math, m, map[]);
            var reaches := want.Some? && want.value.sinks != [];
            && (r.Ok? <==> reaches && TimeframeResolver.Resolvable(registry, sorted, false))
            && (reaches ==> Sorted(registry, want.value, hashing, lowered, rd, sorted))
    ensures r.Ok? ==> Timetabled(registry, rank, sorted, r.value)
    ensures r.Ok? ==> (CompiledUpToTime(registry, FoldedMeaning(registry, math, m, map[]).value, r.value) <==>
                       CseOptimizer.TextsKept(lowered.nodes, rd, Ids(r.value)))
    ensures FoldsFaithfully(registry, math, m, map[]) && LiteralsStable(registry, math, Identify(math, m, map[])) ==>
              FoldedMeaning(registry, math, m, map[]) == DenoteScript(registry, math, m)
    ensures var want := FoldedMeaning(registry, math, m, map[]);
            r.Ok? ==> want.Some? && want.value.sinks != []
                      && (WritesNoSlots(registry, math, m, Identify(math, m, map[])) ==>
                            CompiledUpToTime(registry, want.value, r.value))
    ensures var script := DenoteScript(registry, math, m);
            r.Ok? && WritesNoSlots(registry, math, m, Identify(math, m, map[])) &&
            FoldsFaithfully(registry, math, m, map[]) ==>
              script.Some? && CompiledUpToTime(registry, script.value, r.value)
  {
    hide PlainRegistry, StmtOk, Sorted, DenoteModule, DenoteScript, SessionsDistinct, FoldsFaithfully, LiteralsStable,
         TimeframeResolver.Resolvable, Timetabled, CompiledUpToTime, CseOptimizer.TextsKept, AddsNoSlots,
         SlotlessProgram;
    var compiler := new AlgorithmAstCompiler(registry, math, hashing, rank);
    if FoldsFaithfully(registry, math, m, map[]) && LiteralsStable(registry, math, Identify(math, m, map[])) {
      FaithfulMeans(registry, math, m, map[]);
    }
    r, lowered, rd, sorted := compiler.CompileAst(m, false);
  }
}
