# EpochScript: a verified model

EpochScript turns a small Python-like language into a list of transform nodes that refer to each
other by texts `node#handle`. This project models that compiler in Dafny, from syntax tree to the
final list, together with three smaller loops of the same repository: the futures roll, the
timestamp index and the chart axes. Proofs are for all inputs; each `.dfy` file holds one module.

## What is proved

**Meaning.** A node denotes a finite term (`Graph.Value`): its kind, its options, the terms behind
its inputs, its timeframe and session. Literals mean the same in every timeframe and session.
A *model* gives every node of a graph its term; a graph with a model is acyclic and has only one.
Expressions and programs denote terms independently of any graph (`Denotation`, `ProgramMeaning`).

**The compiler.** `ExpressionCompiler.VisitExpr` and, above it, `AstVisitor.VisitModule` accept exactly
the programs that have a meaning, and leave a graph in which every variable and every sink has it.
Parents may be pushed before their operands: a ghost valuation records which nodes are complete.
Those meanings are tied to the language in two independent ways. `StaticTypes.Checked` is a type check
written on expressions alone; `StaticTypesExact.TypesExactly` says that exactly the expressions that check
are accepted. `Evaluation.Direct` evaluates an expression by its operators, `Evaluation.Signal` reads a term
by the names of its components, and `EvaluationExact.ExpressionComputes` says that both are the same series.
`StatementExact` does this for statements. What folding evaluates follows the laws in `ConstantLaws`.
Constant folding, duplicate elimination, orphan removal and Kahn's sort each preserve those terms, and
`AstCompiler.AlgorithmAstCompiler.CompileAst` composes them: the list it returns, run front to back,
computes every sink of the program, up to the timeframes filled in last, exactly as long as no option
outside a schema names a merged node, and the sort never finds a cycle. A program that writes slots only in
schemas never has such an option. Where a pass can fail to preserve meaning there is a theorem that says
exactly when: `FoldingExactness.FoldingDecides` for constants, `CseOptimizer.ReferencesDecide` and
`PassPipeline.PrunedDecides` for references, and `IdCollisions.CollideExactly` for ids.
`TimeframeResolver.ResolveTimeframes` says when the last step fails,
`PassChain.EliminationChangesTimesExactly` when merging changes the timeframe a node ends up with, and
`PassChain.EliminationRefusesExactly` when it makes compilation fail.

**The loops.** `FuturesContinuation.DayByDay` says, on the bars, which contract is in front and when a row
is written; roll points are exactly the changes of the front contract; the inverted timestamp index agrees
with a scan exactly when nothing was left at that time; chart series stand where their names and parents put
them over any list of transforms.

## How the model is laid out

| files | what they hold |
|---|---|
| Graph, Registry, Ast, Wrappers | nodes, references, terms, models; component metadata; syntax |
| Denotation, ProgramMeaning, Slots | what expressions, calls, slot texts and programs mean |
| NodeIds, CompilationContext, Lowering | generated ids, the shared state (class `Context`), its invariant |
| TypeChecker, Instantiation, BooleanChain, ExpressionCompiler | conversions, wiring, calls, lowering |
| NodeBuilder, Statements, SlotTexts, AstVisitor | statements, slots outside schemas, programs |
| StaticTypes, StaticTypesExact | an independent type check, and that it is exact |
| Evaluation, EvaluationExact, StatementExact | direct evaluation of expressions, and that terms compute it; statements |
| ConstantFolder, ConstantLaws, FoldingMeaning | the folding pass, the laws of its arithmetic, its meaning |
| PeriodShapes, SliceAgreement, Acceptance, FoldingExactness, FoldingExamples | exactly when folding keeps meaning |
| CseOptimizer, OrphanRemoval, TopologicalSort, IdCollisions, TimeframeResolver | the passes over graphs |
| MergedTimes, MergedConstants, MergedExamples | exactly when merging changes timeframes |
| CompiledLists | what a compiled list is |
| PassPipeline, PassChain, AstCompiler | their composition |
| FuturesContinuation, TimestampIndex, ChartAxes, ChartPanes | the secondary cores |

## Assumptions of the theorems

- Variables and assignment targets are words that do not start with `SLOT` and never have the form `base_k`
  of a generated id (`src/transforms/compiler/node_builder.cpp:30`), and an instance is not assigned to `_`
  (`NodeIds.UserName`, `Statements.TargetOk`). What happens otherwise is `IdCollisions`.
- The registry is plain (`NodeIds.PlainRegistry`): component names are words, the transforms the compiler
  inserts itself have outputs, custom literals are no plain texts, and validation adds no references of its
  own and no slots for a component without inputs. Options that pass texts through are covered
  (`PassPipeline.TablesArePlain`).
- An option text of the form `word#...` names no node of the program by its id; with any other word it is passed
  through as an opaque value (`Registry.external`, `NodeIds.NamesNoNode`). A program writes no slot text for a
  component without inputs (`NodeIds.PlainWords`).
- `EvaluationExact.ExpressionComputes` is for registries whose components have inputs of different names, and whose
  `mul`, `logical_and` and `logical_or`, which the compiler wires by fixed names, declare `SLOT0` and `SLOT1`
  (`EvaluationExact.StandardOperators`). Components other than operators, data of the wrong type, `pow`, `fmod` and
  division by zero are arbitrary functions (`Evaluation.Host`).
- Different sessions hash differently; the node hash itself is arbitrary, collisions included.
- Custom literals such as `EventMarkerSchema(...)` are not affected by slice folding.
- Charts: series ids are distinct per pane and no pane has more than 254 descriptive names, one axis each.

## Where the code and its comments part ways

- A single elimination pass does not remove all repetitions; `CseOptimizer.OnePassIsEnough` says when it does.
- Only references with `#` in inputs and schemas are redirected; `CseOptimizer.ReferencesDecide` is the condition.
- A slot resolved under another option keeps naming a removed node (`PassPipeline.TitleDangles`); the compiled
  list is right exactly when no kept option does (`PassPipeline.PrunedDecides`).
- The constant table is never emptied: constants of one program reach the next (`FoldingExamples.ConstantsLeak`).
- Constants are collected before folding, so one defined after its use is folded in as well, and the last value
  of `_` replaces earlier ones (`FoldingExamples.LateConstantIsAccepted`, `FoldingExamples.ThrowawayChanges`);
  the condition is `FoldingExactness.FoldingDecides`.
- A node without a timeframe asks its direct readers only (`TimeframeResolver.OneStepUpOnly`).
- Duplicates are merged before timeframes are resolved, so a node may take its timeframe from the reader of
  another one (`MergedExamples.ClockIsHandedOver`). Constants are merged whatever their timeframes, so nodes that
  inherit from the duplicate may get an earlier one (`MergedExamples.TimeGetsEarlier`) or none, and a program that
  would compile is refused (`MergedExamples.TimeIsTakenAway`). `PassChain.EliminationChangesTimesExactly` and
  `PassChain.EliminationRefusesExactly` are the conditions.
- Handles of all timeframes share one table of series positions, so a link across timeframes leads to an
  unrelated series (`ChartPanes.StrayLink`).
- A null literal is returned with handle `result` although its component declares `value`.
- The last phase of orphan removal visits survivors only and releases no id.
- On a strategy-roll row the front prices are still the old contract's under the new label
  (`FuturesContinuation.StaleFront`).
- A second pipeline run repeats index entries, because neither table is emptied (`TimestampIndex.RunAgain`).
- The axis manager has two different initial layouts, 85/15 and 70/30; the provider only reaches the first.

## Model

| member | source | states |
|---|---|---|
| `AstCompiler.AlgorithmAstCompiler.CompileAst` | src/transforms/compiler/ast_compiler.cpp:207-294 | accepted exactly when the folded program has a meaning, a sink (unless waived) and timeframes for what is left after the sort; the sort never reports a cycle; of the list returned, inputs come first, only needed nodes remain, and it runs and delivers exactly the program's sink terms, each executor as often as it is called, timeframes in the terms apart, if and only if no kept option outside a schema names a merged duplicate; a program that writes no slot outside schemas always gets such a list; before timeframes the terms are equal as they are, and nodes whose texts name no duplicate keep theirs in any case; the lookup table is its index |
| `AstCompiler.CompileAlgorithm` | src/transforms/compiler/ast_compiler.cpp:197-294 | the same for a fresh compiler, and against the unfolded source whenever folding is faithful to the program (FoldingExactness says when): an accepted program of that kind without slots outside schemas has a meaning, and the list returned computes it, timeframes in the terms apart |
| `AstCompiler.AlgorithmAstCompiler.constructor` | src/transforms/compiler/ast_compiler.cpp:148-195 | a new compiler starts from an empty constant table and its own context |
| `AstCompiler.AlgorithmAstCompiler.Lower` | src/transforms/compiler/ast_compiler.cpp:209-222 | clearing, folding and visiting leave the context representing the folded program; the constant table keeps what earlier programs put there; a program without slots outside schemas leaves no option there that names a node |
| `AstCompiler.AlgorithmAstCompiler.Prune` | src/transforms/compiler/ast_compiler.cpp:227-246 | merging duplicates and dropping orphans keep every sink term; failure only without a sink |
| `PassChain.SortedIsCompiled` | src/transforms/compiler/ast_compiler.cpp:257-293 | whatever order the sort picks, the sorted list is assembled, and it is a compiled list for the program exactly when no kept text names a duplicate |
| `PassChain.ReducedMeans` | src/transforms/compiler/ast_compiler.cpp:232-246 | whatever the texts name: sinks and executors are those of the program, and every kept node whose own texts name no duplicate keeps its term |
| `PassChain.TimedIsCompiled` | src/transforms/compiler/ast_compiler.cpp:276-293 | filling in timeframes last keeps that: the list returned is compiled up to timeframes exactly when no kept text names a duplicate |
| `PassChain.LiteralTextsDecide` | src/transforms/compiler/cse_optimizer.cpp:46-154 | where slots outside schemas select literals and hashes do not collide: no kept text names a duplicate if and only if none selects a literal whose term an earlier node has |
| `PassChain.TextsDecide` | src/transforms/compiler/cse_optimizer.cpp:46-154 | whatever slots outside schemas select, computed nodes included: no kept text names a duplicate if and only if none selects a node whose term an earlier node has, written with the same options and references |
| `PassChain.EliminationChangesTimesExactly` | src/transforms/compiler/ast_compiler.cpp:232-276 | against the lowered graph as orphan removal leaves it without elimination: the timeframe of a node gets earlier, or is lost, exactly when one that counted for it (inherited, or else inherited by a reader) is later than all that count once constants are dated as the nodes they are merged into and readers are shared, and later in the opposite case; where no lineage passes a constant merged with one of another timeframe it never gets earlier, and later exactly by a gained reader that is later than its own |
| `PassChain.EliminationRefusesExactly` | src/transforms/compiler/ast_compiler.cpp:232-388 | a list that resolves without elimination is refused with it if and only if some node, and every reader it has afterwards, had timeframes only through constants merged with one of another timeframe, and gets none from those; without such constants it never is |
| `AstCompiler.SlotlessFolded` | src/transforms/compiler/constant_folder.cpp:47-63 | folding writes no slot into a program without slots outside schemas |
| `CompiledLists.RetimedRuns` | src/transforms/compiler/ast_compiler.cpp:301-342 | changing timeframes of nodes changes terms in their timeframes only |
| `CompiledLists.TimelessFeeds` | src/transforms/compiler/ast_compiler.cpp:301-342 | a list that delivers the sinks of a program delivers them up to timeframes, each executor as often as calls agree up to timeframes |
| `CompiledLists.RetimedIsCompiled` | src/transforms/compiler/ast_compiler.cpp:276-293 | a compiled list stays compiled up to timeframes, in order and without dead nodes, whatever timeframes are filled in |
| `CompiledLists.CallsAreCounted` | src/transforms/compiler/cse_optimizer.cpp:299-310 | each call for a term through a trade_signal_executor, trade_manager_executor or portfolio_executor has its own node computing it, and no other node does |
| `MergedTimes.EliminationMerges` | src/transforms/compiler/cse_optimizer.cpp:84-163 | elimination is a quotient of the graph whose merged constants are dated as the nodes they are merged into: each survivor stands for the nodes merged into it and reads what stands for their inputs |
| `MergedTimes.KeptMerges` | src/transforms/compiler/ast_compiler.cpp:437-493 | so are the lists left of both graphs by orphan removal |
| `MergedTimes.MergingChangesTimesExactly` | src/transforms/compiler/timeframe_resolver.cpp:113-170 | for any quotient of an acyclic graph that keeps timeframes: the timeframe of a node changes exactly when a reader gained by merging is later than all readers of its own |
| `MergedConstants.MergingRetimesExactly` | src/transforms/compiler/timeframe_resolver.cpp:36-168 | for any dating of a graph and any quotient of that: whether the timeframe of a node gets earlier, is lost or gets later, in terms of the timeframes that count before and after |
| `MergedConstants.SteadyOnlyGains` | src/transforms/compiler/timeframe_resolver.cpp:113-170 | away from nodes dated otherwise merging only adds readers |
| `MergedConstants.OwnTimeTurns` | src/transforms/compiler/timeframe_resolver.cpp:36-78 | what a node inherits gets earlier, or is lost, exactly when a timeframe on a lineage through a node dated otherwise was later than all it inherits now |
| `MergedConstants.CleanStays` | src/transforms/compiler/timeframe_resolver.cpp:36-78 | lineages past no node dated otherwise are the same before and after |
| `MergedConstants.RefusedExactly` | src/transforms/compiler/ast_compiler.cpp:344-388 | the refusal condition for any dating and quotient |
| `MergedConstants.TurnedExactly` | src/transforms/compiler/cse_optimizer.cpp:251-260 | elimination dates otherwise just the constants that are merged with one of another timeframe |
| `MergedTimes.RedatedExactly` | src/transforms/compiler/cse_optimizer.cpp:172-297 | a node is merged with one of another timeframe only if it is a constant |
| `MergedExamples.ClockIsHandedOver` | src/transforms/compiler/ast_compiler.cpp:232-276 | of two equal clocks without a timeframe, one read daily and one hourly, the second is hourly without elimination, and the node it is merged into is daily |
| `MergedExamples.ClocksExist` | src/transforms/compiler/ast_compiler.cpp:232-276 | a concrete graph of that shape |
| `MergedExamples.TimeIsTakenAway` | src/transforms/compiler/ast_compiler.cpp:232-388 | a = bool_true(); b = bool_true(timeframe="1H"); y = not b; report()(y) resolves without elimination and is refused with it |
| `MergedExamples.TimeGetsEarlier` | src/transforms/compiler/ast_compiler.cpp:232-276 | with the report on 1Min the negation is hourly without elimination and on 1Min with it |
| `MergedExamples.FlagsExist` | src/transforms/compiler/cse_optimizer.cpp:251-260 | a concrete graph of that shape |
| `AstCompiler.AlgorithmAstCompiler.RebuildLookup` | src/transforms/compiler/ast_compiler.cpp:283-290 | the lookup maps each id to its final position |
| `TimeframeResolver.ResolveTimeframes` | src/transforms/compiler/ast_compiler.cpp:301-390 | succeeds exactly when every component without a timeframe is known and, unless validation is waived, every node is a scalar or has a timeframe: its own, the latest along its inputs, or a reader's; only timeframes change; each node with a lineage gets the latest timeframe on it |
| `TimeframeResolver.InheritTimes` | src/transforms/compiler/timeframe_resolver.cpp:38-112 | after the first pass a node has the latest timeframe among all walks down its inputs, and none iff no walk ends in one |
| `TimeframeResolver.OrderIsIrrelevant` | src/transforms/compiler/ast_compiler.cpp:301-390 | whether timeframes can be resolved does not depend on the order the sort picked |
| `TimeframeResolver.ChainExists` | src/transforms/compiler/timeframe_resolver.cpp:113-170 | a clock, a relay and an hourly relay are such a chain, all three components known and none a constant |
| `TimeframeResolver.OneStepUpOnly` | src/transforms/compiler/timeframe_resolver.cpp:113-170 | a node two steps below the only node with a timeframe is left without one, and compilation fails |
| `PassPipeline.RepresentedIsSound` | src/transforms/compiler/ast_compiler.cpp:217-230 | a lowered program is an acyclic graph with distinct ids whose every reference resolves and whose option references are wired, directly or through one cast |
| `PassPipeline.OptimizedIsFramed` | src/transforms/compiler/cse_optimizer.cpp:84-163 | elimination keeps the graph acyclic, its inputs and schema columns present and its option references wired |
| `PassPipeline.OptimizedValue` | src/transforms/compiler/cse_optimizer.cpp:84-163 | a survivor whose texts name no duplicate computes its old term |
| `PassPipeline.OptimizedDelivers` | src/transforms/compiler/cse_optimizer.cpp:46-82 | the set of sink terms is the same before and after elimination, and so are the executors computing each term |
| `PassPipeline.KeptIsFramed` | src/transforms/compiler/ast_compiler.cpp:454-493 | orphan removal keeps the graph acyclic, its inputs and schema columns present and its option references wired |
| `PassPipeline.KeptDelivers` | src/transforms/compiler/ast_compiler.cpp:437-493 | all sinks survive orphan removal with their terms |
| `PassPipeline.PrunedDecides` | src/transforms/compiler/cse_optimizer.cpp:108-154 | after both passes no option dangles if and only if no kept option outside a schema named a merged duplicate, and exactly then the terms are those of the lowered graph |
| `PassPipeline.TitleDangles` | src/transforms/compiler/node_builder.cpp:511-540 | bar_chart_report(title="SLOT1")(x, z) with a second equal literal z: the title resolves to z, z is merged, the input follows and the title keeps naming z |
| `PassPipeline.TablesArePlain` | src/transforms/components/reports/bar_chart_report.h:66-90 | any table of components with plain names may pass options through and meet the assumptions of the theorems: texts, numbers, flags, and schemas that name no node themselves |
| `PassPipeline.BarChartsArePlain` | src/transforms/components/reports/bar_chart_report.h:66-90 | the table of bar_chart_report, with its String options, is one |
| `PassPipeline.ChartProgramExists` | src/transforms/components/reports/bar_chart_report.h:66-90 | a concrete graph of the shape that TitleDangles speaks about |
| `PassPipeline.NeededKept` | src/transforms/compiler/ast_compiler.cpp:437-493 | whatever survives is still needed by a surviving sink of the final list |
| `PassPipeline.ExecutorsCounted` | src/transforms/compiler/cse_optimizer.cpp:299-310 | a program that calls for a term through an executor n times has n executor nodes computing it |
| `PassPipeline.SortedIsOrdered` | src/transforms/compiler/ast_compiler.cpp:90-121 | inputs first plus wired columns: schema columns, too, precede the node that names them |
| `PassPipeline.SortedRuns` | src/transforms/compiler/ast_compiler.cpp:254-257 | running the sorted list front to back computes the terms the graph had before sorting |
| `Graph.SplitJoined` | src/transforms/compiler/expression_compiler.cpp:1236-1239 | joining an id and a handle with "#" and splitting at the first "#" is a round trip for ids without "#" |
| `Graph.ModelIsUnique` | src/transforms/compiler/ast_compiler.cpp:207-294 | the terms of a graph are determined by the graph |
| `Graph.ModelMeansAcyclic` | src/transforms/compiler/ast_compiler.cpp:123-143 | a graph whose nodes all have finite terms has no cycle |
| `Graph.MentionIsBelow` | src/transforms/compiler/node_builder.cpp:389-453 | whatever a node reads or names in its schema is a proper part of its term |
| `Graph.RunIsModel` | src/transforms/compiler/ast_compiler.cpp:254-257 | running any dependency-ordered list gives every node its term |
| `TopologicalSort.TopologicalSort` | src/transforms/compiler/ast_compiler.cpp:46-146 | succeeds exactly on graphs with distinct ids and no internal cycle, for every seed order and with repeated references; the result is a permutation with inputs first; on failure the reported ids are exactly those that reach a cycle |
| `TopologicalSort.StuckReachesCycle` | src/transforms/compiler/ast_compiler.cpp:123-134 | a node left with pending references reaches a cycle (pigeonhole over what is left) |
| `TopologicalSort.EmittedAvoidsCycles` | src/transforms/compiler/ast_compiler.cpp:104-121 | an emitted node reaches no cycle |
| `TopologicalSort.CountDependencies` | src/transforms/compiler/ast_compiler.cpp:58-88 | in-degrees and dependents agree with one log of internal references |
| `TopologicalSort.Release` | src/transforms/compiler/ast_compiler.cpp:112-120 | lowering in-degrees along a list with repetitions queues exactly the ids that reach zero |
| `IdCollisions.CollideExactly` | src/transforms/compiler/expression_compiler.cpp:1220-1234 | for any sequence of requests for ids, names taken as they are and bases numbered, the ids differ exactly when no name is taken twice and none is the k-th id of a base from which more than k ids are generated |
| `IdCollisions.Serve` | src/transforms/compiler/expression_compiler.cpp:1220-1234 | a context serving the requests hands out exactly those ids |
| `IdCollisions.CandidateSplits` | src/transforms/compiler/expression_compiler.cpp:1220-1234 | an id determines its base and its number |
| `IdCollisions.SortProgram` | src/transforms/compiler/node_builder.cpp:30-66 | an acyclic graph over such ids is sorted exactly when they differ; otherwise it counts as circular with no node remaining |
| `IdCollisions.CollidingProgram` | src/transforms/compiler/node_builder.cpp:30-66 | number_0 = source(); x = 1.0: the literal gets the variable's id, and the sort of the acyclic result fails as circular |
| `OrphanRemoval.MarkNeeded` | src/transforms/compiler/ast_compiler.cpp:437-481 | the search ends on every graph, cyclic ones included, and marks exactly what some sink transitively reads |
| `OrphanRemoval.RemoveOrphanNodes` | src/transforms/compiler/ast_compiler.cpp:407-511 | exactly the needed nodes stay, in order; fails iff there is no sink and the check is on; the last phase releases no id |
| `OrphanRemoval.RemovalKeepsValues` | src/transforms/compiler/ast_compiler.cpp:484-493 | with wired options survivors compute what they computed before |
| `OrphanRemoval.RemovalDecides` | src/transforms/compiler/ast_compiler.cpp:484-493 | on any graph, wired or not: meaning is kept if and only if no survivor's option names a dropped node |
| `OrphanRemoval.NamedSurvives` | src/transforms/compiler/ast_compiler.cpp:454-493 | whatever a survivor's option names is kept when it is wired |
| `OrphanRemoval.RemovalKeepsWiring` | src/transforms/compiler/ast_compiler.cpp:454-493 | wired columns stay wired among the survivors |
| `CseOptimizer.Optimize` | src/transforms/compiler/cse_optimizer.cpp:33-170 | the vector becomes the survivors under the redirect map of all duplicates, and exactly the removed ids are released |
| `CseOptimizer.FindDuplicates` | src/transforms/compiler/cse_optimizer.cpp:36-82 | every node that is no executor and equals the first such node of its hash is redirected to it, and nothing else; RepetitionsGo says which nodes those are |
| `CseOptimizer.EqualNodesHashEqually` | src/transforms/compiler/cse_optimizer.cpp:172-297 | semantic equality is equality of what the hash reads, so equal nodes hash equally |
| `CseOptimizer.OptimizeKeepsValues` | src/transforms/compiler/cse_optimizer.cpp:84-163 | each survivor keeps its term; the canonical node of a removed one had exactly the removed one's term |
| `CseOptimizer.OptimizeReflectsValues` | src/transforms/compiler/cse_optimizer.cpp:84-163 | conversely every meaning of the optimized graph is the restriction of one of the original |
| `CseOptimizer.ReferencesDecide` | src/transforms/compiler/cse_optimizer.cpp:84-154 | meaning is preserved if and only if no survivor names a removed node in a reference the pass skips: an input without "#", or an option other than the schema |
| `CseOptimizer.OptionsReferToKept` | src/transforms/compiler/cse_optimizer.cpp:108-154 | after the pass no option names a removed node if and only if no survivor's option outside the schema named one before |
| `CseOptimizer.RedirectIsOneStep` | src/transforms/compiler/cse_optimizer.cpp:57-81 | no removed node is itself a target: domain and range of the redirect map are disjoint |
| `CseOptimizer.ReplaceExtends` | src/transforms/compiler/cse_optimizer.cpp:128-142 | replacing one more id after any others is one larger simultaneous substitution, so the map's iteration order is irrelevant |
| `CseOptimizer.NoReferenceToRemoved` | src/transforms/compiler/cse_optimizer.cpp:84-154 | after the pass no input and no schema column refers to a removed node; for the other options OptionsReferToKept says when |
| `CseOptimizer.SurvivorsSplit` | src/transforms/compiler/cse_optimizer.cpp:156-163 | survivors keep their relative order |
| `CseOptimizer.SurvivorIds` | src/transforms/compiler/cse_optimizer.cpp:156-169 | surviving ids are the old ids minus the removed ones, still distinct |
| `CseOptimizer.ExecutorsSurvive` | src/transforms/compiler/cse_optimizer.cpp:299-310 | a node of one of the three executor kinds, written out, is never merged |
| `CseOptimizer.OptimizeKeepsWiring` | src/transforms/compiler/cse_optimizer.cpp:111-154 | columns named by schemas stay wired, now through canonical nodes |
| `CseOptimizer.RemovesEveryRepetition` | src/transforms/compiler/cse_optimizer.cpp:46-82 | without hash collisions a node is removed exactly when an equal eligible one precedes it |
| `CseOptimizer.RepetitionsGo` | src/transforms/compiler/cse_optimizer.cpp:46-82 | without hash collisions, the three executor kinds by name: a node is gone after the pass exactly when it is of none of those kinds and an equal node precedes it |
| `CseOptimizer.EqualExactly` | src/transforms/compiler/cse_optimizer.cpp:172-297 | two nodes are equal exactly when they differ in their ids only, or, being constants, in ids, timeframes and sessions |
| `CseOptimizer.RepeatedLiteralIsMerged` | src/transforms/compiler/cse_optimizer.cpp:46-82 | without hash collisions a node that refers to nothing is removed exactly when an earlier eligible node has the same term |
| `CseOptimizer.RepeatedNodeIsMerged` | src/transforms/compiler/cse_optimizer.cpp:46-82 | without hash collisions any node is removed exactly when an earlier eligible one has its term and is written with the same options and references |
| `CseOptimizer.ShrinksOrIsFinished` | src/transforms/compiler/cse_optimizer.cpp:46-163 | a pass shrinks the graph or changes nothing, and then no two eligible nodes are equal |
| `CseOptimizer.PassesEnd` | src/transforms/compiler/cse_optimizer.cpp:46-163 | where hashes collide on none of the graphs reached, repeating the pass ends, after at most one pass per node, with no two equal eligible nodes |
| `CseOptimizer.OnePassIsEnough` | src/transforms/compiler/cse_optimizer.cpp:46-163 | one pass leaves no equal eligible nodes if and only if sending each reference to the first node equal to its target makes no two different eligible nodes equal |
| `CseOptimizer.OnePassMayLeaveRepetitions` | src/transforms/compiler/cse_optimizer.cpp:46-163 | the readers of two equal nodes become equal only through the pass and both survive it |
| `CseOptimizer.ReadersExist` | src/transforms/compiler/cse_optimizer.cpp:46-163 | x = 1; y = 1; x[1]; y[1] is such a graph |
| `ConstantFolder.Folder.PreprocessModule` | src/transforms/compiler/constant_folder.cpp:11-24 | all constants are recorded, on top of those of earlier programs, before any slice is folded; what they evaluate to ConstantLaws says |
| `ConstantFolder.Folder.IdentifyConstants` | src/transforms/compiler/constant_folder.cpp:26-45 | the table gains every constant assignment in order, later ones overwriting |
| `ConstantFolder.Folder.FoldConstants` | src/transforms/compiler/constant_folder.cpp:47-63 | every statement is rewritten with the final table |
| `ConstantLaws.WholeArithmetic` | src/transforms/compiler/constant_folder.cpp:331-388 | of integers and truth values: the sum less one operand is the other, the difference plus the subtrahend is the minuend, the product is repeated addition |
| `ConstantLaws.WholeRemainder` | src/transforms/compiler/constant_folder.cpp:407-434 | the remainder of integers leaves a multiple of the divisor, is smaller than it and has the sign of the dividend; only a zero divisor fails |
| `ConstantLaws.RealArithmetic` | src/transforms/compiler/constant_folder.cpp:331-449 | with a real among the operands sum, difference and product are real; quotients are always real, and times the divisor give the dividend |
| `ConstantLaws.NumericFailures` | src/transforms/compiler/constant_folder.cpp:331-509 | a numeric operator or order fails exactly when an operand is no number or the divisor is zero |
| `ConstantLaws.Orders` | src/transforms/compiler/constant_folder.cpp:450-509 | orders compare the numeric values |
| `ConstantLaws.Equalities` | src/transforms/compiler/constant_folder.cpp:510-547 | constants are equal exactly when type and value are; there is no answer for None and None |
| `ConstantLaws.Connectives` | src/transforms/compiler/constant_folder.cpp:548-565 | conjunction and disjunction of truth values, and none for None |
| `ConstantLaws.BooleanChains` | src/transforms/compiler/constant_folder.cpp:136-162 | a chain of and, or of or, holds exactly when all, or some, of its values do, and has no value exactly when one is None |
| `ConstantLaws.Unaries` | src/transforms/compiler/constant_folder.cpp:279-322 | minus x plus x is zero, plus x is x, not x is false exactly when x is truthy; exactly numbers have signs, everything but None a truth value |
| `ConstantLaws.Atoms` | src/transforms/compiler/constant_folder.cpp:89-122 | literals are themselves, names what the table holds, and an operation without a value of an operand has none |
| `ConstantLaws.Comparisons` | src/transforms/compiler/constant_folder.cpp:124-134 | a single comparison is its operator, a chain of comparisons has no value |
| `ConstantLaws.ConstantForms` | src/transforms/compiler/constant_folder.cpp:65-87 | constant expressions are exactly those built from literals and recorded names by unary and binary operators |
| `ConstantLaws.RecordedExactly` | src/transforms/compiler/constant_folder.cpp:26-45 | an assignment of a constant gives every name among its targets that value and changes nothing else |
| `FoldingMeaning.FoldedSlice` | src/transforms/compiler/expression_compiler.cpp:938-991 | after folding, a slice is accepted iff the original evaluates to a nonzero integer, gives exactly that period, and never takes the unary-minus branch |
| `FoldingMeaning.FoldTwice` | src/transforms/compiler/constant_folder.cpp:168-277 | folding is idempotent |
| `FoldingMeaning.FoldSliceTwice` | src/transforms/compiler/constant_folder.cpp:251-273 | folding a folded slice changes nothing |
| `FoldingMeaning.MeaningKept` | src/transforms/compiler/constant_folder.cpp:168-277 | a folded expression read literally means what the original means with the constants at hand |
| `FoldingMeaning.SameMeaning` | src/transforms/compiler/constant_folder.cpp:251-273 | only the constants named in slices matter |
| `SliceAgreement.SlicesDecide` | src/transforms/compiler/expression_compiler.cpp:938-991 | an accepted expression means the same under another reading of slices exactly when every slice it evaluates has the same period under both, or both have one where only acceptance shows |
| `SliceAgreement.StmtDecides` | src/transforms/compiler/constant_folder.cpp:47-63 | the same for statements: constructor calls, feeds, assignments and sinks |
| `Acceptance.AcceptedExactly` | src/transforms/compiler/expression_compiler.cpp:938-991 | a statement is accepted exactly when it would be with every evaluated slice given some period, and every evaluated slice has one: which one never matters |
| `Acceptance.AcceptedReads` | src/transforms/compiler/expression_compiler.cpp:938-991 | every slice that an accepted expression evaluates has a period |
| `FoldingExactness.FoldingDecides` | src/transforms/compiler/constant_folder.cpp:11-63 | for any program and any table left by earlier ones: the folded run agrees with the source statement by statement if and only if at every statement of acceptable form that is reached the evaluated slices agree under the constants known there and the final ones, or neither gives all of them a period |
| `FoldingExactness.LeftoversDecide` | src/transforms/compiler/constant_folder.cpp:11-24 | what an earlier program left in the table changes a run if and only if, at a statement of acceptable form that is reached, it changes how an evaluated slice reads, or gives every evaluated slice a period where one had none |
| `FoldingExactness.FaithfulMeans` | src/transforms/compiler/constant_folder.cpp:11-63 | then the folded program means what the source means |
| `FoldingExactness.AcceptedFoldsFaithfully` | src/transforms/compiler/constant_folder.cpp:11-63 | every program that the source accepts is folded faithfully by a fresh folder, unless a slice mentions "_" |
| `FoldingExactness.DefinedFoldsFaithfully` | src/transforms/compiler/constant_folder.cpp:11-63 | so is every program, accepted or not, that defines constants before use |
| `FoldingExamples.LateConstantIsAccepted` | src/transforms/compiler/constant_folder.cpp:11-24 | x = 2.0; y = x[k]; k = 1: rejected as it stands, accepted after folding, because k has a period in the final table only |
| `FoldingExamples.ThrowawayChanges` | src/transforms/compiler/constant_folder.cpp:26-45 | _ = 1; x = 2.0; y = x[_]; _ = 2: both accepted, y lags by 1 in the source and by 2 after folding |
| `FoldingExamples.ConstantsLeak` | src/transforms/compiler/constant_folder.cpp:11-24 | x = 2.0; y = x[k] is rejected alone and accepted after a program that sets k, because only then k has a period |
| `NodeIds.DecimalInjective` | src/transforms/compiler/expression_compiler.cpp:1224-1224 | different numbers have different decimal texts |
| `NodeIds.CandidatesRunOut` | src/transforms/compiler/expression_compiler.cpp:1220-1234 | a set of n used ids cannot contain n + 1 candidates of one base |
| `CompilationContext.Context.UniqueNodeId` | src/transforms/compiler/expression_compiler.cpp:1220-1234 | returns the first unused candidate with at most one probe more than there are used ids, and reserves it |
| `CompilationContext.Context.Clear` | src/transforms/compiler/ast_compiler.cpp:209-215 | every table is emptied |
| `Lowering.FreshId` | src/transforms/compiler/node_builder.cpp:474-488 | a generated id is no existing node's id, user-named nodes included, when variables never have the form of one |
| `TypeChecker.TypeAgrees` | src/transforms/compiler/type_checker.cpp:14-121 | the type read from the tables is the type of what the handle stands for |
| `TypeChecker.CastTo` | src/transforms/compiler/type_checker.cpp:149-216 | converts exactly when types do not fit and a conversion exists; the new node reads the old handle |
| `TypeChecker.WireKeywordArgs` | src/transforms/compiler/node_builder.cpp:332-379 | succeeds iff every keyword names an input and fits; each value ends up last in its input, for every map order |
| `TypeChecker.WirePositionalArgs` | src/transforms/compiler/node_builder.cpp:383-453 | arguments go to the inputs in order, the surplus to the last; every argument is then wired directly or through one cast |
| `TypeChecker.WireInputs` | src/transforms/compiler/expression_compiler.cpp:1241-1422 | one feed step means what the feed means; a component without inputs ignores positional arguments |
| `ExpressionCompiler.VisitExpr` | src/transforms/compiler/expression_compiler.cpp:18-68 | succeeds iff the expression has a meaning; the handle then stands for it, all earlier nodes and bindings are untouched; which expressions have one TypesExactly says, and what the handle computes ExpressionComputes |
| `ExpressionCompiler.VisitName` | src/transforms/compiler/expression_compiler.cpp:179-245 | names resolve to literals, handles or the only output of an instance |
| `ExpressionCompiler.ResolveHandle` | src/transforms/compiler/expression_compiler.cpp:1148-1218 | only instances have handles, and only declared ones |
| `ExpressionCompiler.LookupIsBound` | src/transforms/compiler/expression_compiler.cpp:1171-1182 | the fallback to an unbound node never applies to a user's variable |
| `ExpressionCompiler.VisitAttribute` | src/transforms/compiler/expression_compiler.cpp:153-177 | attribute access on names and on expressions |
| `ExpressionCompiler.VisitConstant` | src/transforms/compiler/expression_compiler.cpp:247-269 | one literal node per constant, with its value and type |
| `ExpressionCompiler.VisitBinOp` | src/transforms/compiler/expression_compiler.cpp:271-465 | correct although the node is pushed empty, recursed past and filled by index; by ExpressionComputes the node computes the operator on its converted operands |
| `ExpressionCompiler.VisitCompare` | src/transforms/compiler/expression_compiler.cpp:552-713 | single comparisons only; both operands converted to the declared inputs |
| `ExpressionCompiler.VisitUnaryOp` | src/transforms/compiler/expression_compiler.cpp:467-550 | plus is the operand, minus is (-1) * operand, not is a logical_not node |
| `ExpressionCompiler.VisitBoolOp` | src/transforms/compiler/expression_compiler.cpp:715-806 | the returned node computes the nested chain over all operands, each cast to Boolean |
| `ExpressionCompiler.VisitIfExp` | src/transforms/compiler/expression_compiler.cpp:887-936 | the select variant follows the branch types |
| `ExpressionCompiler.VisitSubscript` | src/transforms/compiler/expression_compiler.cpp:938-1028 | the lag variant follows the value's type; nonzero integer literals only |
| `ExpressionCompiler.VisitCall` | src/transforms/compiler/expression_compiler.cpp:70-151 | an inline call computes its component on its converted arguments; exactly one output |
| `ExpressionCompiler.ParseConstructorAndFeeds` | src/transforms/compiler/constructor_parser.cpp:31-159 | the call chain is read as constructor keywords followed by feed steps, arguments lowered in order |
| `ExpressionCompiler.ParseParams` | src/transforms/compiler/constructor_parser.cpp:69-114 | only declared options and the two special parameters; a repeated key overwrites |
| `ExpressionCompiler.ParseOptionName` | src/transforms/compiler/constructor_parser.cpp:224-268 | an option given by name is the literal the variable is bound to, or the bare word |
| `EvaluationExact.ExpressionComputes` | src/transforms/compiler/expression_compiler.cpp:271-1028 | for every accepted expression, with components read by their literal names over series (add, sub, mul and div compute on the first and second declared input, lt and so on compare, logical_not negates, boolean_select_* chooses, lag_* shifts by its period, casts convert): the term of the expression is the series that the operators of the expression compute directly, at any handle |
| `EvaluationExact.FeedsCompute` | src/transforms/compiler/constructor_parser.cpp:31-159 | a call chain names its component, its keywords, and feeds it what its arguments compute, step by step |
| `EvaluationExact.ColumnsSignal` | src/transforms/compiler/node_builder.cpp:332-453 | each input of a call is wired with the series of its keyword argument, then of its positional arguments in order, step by step, each converted to the declared type |
| `StaticTypesExact.TypesExactly` | src/transforms/compiler/expression_compiler.cpp:18-1028 | an independent type check, written with the names of operators and types, accepts exactly the expressions that have a meaning, and gives each the component, handle and recorded type its node has |
| `StaticTypesExact.CoerceExactly` | src/transforms/compiler/type_checker.cpp:123-216 | for every pair of types: a value is wired as it is, through the one named conversion to the type wanted, or refused |
| `StaticTypesExact.InputIsNamed` | src/transforms/compiler/node_builder.cpp:285-322 | an input "*" followed by a number is the slot of that number, any other input has its own name |
| `StaticTypesExact.ParamsExactly` | src/transforms/compiler/constructor_parser.cpp:69-114 | keywords of a constructor are read exactly when each has a value; the options set are the names used, each by its last keyword |
| `StatementExact.LoweredComputes` | src/transforms/compiler/expression_compiler.cpp:18-68 | lowering succeeds exactly on expressions that check; the node returned is of the kind checked and computes what the expression computes directly |
| `BooleanChain.BuildChain` | src/transforms/compiler/expression_compiler.cpp:742-805 | n operands give exactly n - 1 nodes, both slots of each wired once, the first one being the whole chain |
| `BooleanChain.WireChain` | src/transforms/compiler/expression_compiler.cpp:764-797 | the two-operand, first, middle and last cases wire exactly the links of the chain |
| `BooleanChain.ReserveAll` | src/transforms/compiler/expression_compiler.cpp:746-762 | any number of ids reserved in a row are new and distinct |
| `BooleanChain.ChainIsNary` | src/transforms/compiler/expression_compiler.cpp:742-797 | the chain is true iff all (or some) of its operands are |
| `Denotation.NullHandleDeclared` | src/transforms/compiler/expression_compiler.cpp:1086-1104 | a null literal's handle is a declared output exactly when the component has an output "result"; with the declared "value" it is not |
| `Lowering.FillKeeps` | src/transforms/compiler/expression_compiler.cpp:436-441 | completing a placeholder by index keeps the invariant of the tables |
| `Lowering.PlaceholderGrows` | src/transforms/compiler/expression_compiler.cpp:332-346 | push, any steps in between, and fill together are one step that changes no earlier node |
| `Lowering.ScopeStays` | src/transforms/compiler/compilation_context.h:43-60 | lowering an expression leaves the meaning of every variable alone |
| `Lowering.StillRepresents` | src/transforms/compiler/compilation_context.h:43-60 | handles keep standing for the same value |
| `NodeBuilder.ApplyFeed` | src/transforms/compiler/node_builder.cpp:74-80 | wiring a feed step and then resolving the slots of the options means what the feed step means |
| `NodeBuilder.ResolveSlotReferencesInOptions` | src/transforms/compiler/node_builder.cpp:495-688 | slot texts of all options, schemas and plain texts, are replaced by references to the arguments, or the call fails: text by text, as in ResolvedExactly |
| `NodeBuilder.ResolvedNear` | src/transforms/compiler/node_builder.cpp:389-688 | every reference that resolution puts into an option, schema or not, is wired, directly or through one cast |
| `NodeBuilder.BuildNode` | src/transforms/compiler/node_builder.cpp:31-80 | entered under any fresh id, the node of a call computes what the call means; fails iff the call has no meaning |
| `Slots.OptionsAgree` | src/transforms/compiler/node_builder.cpp:511-687 | resolving texts to references and reading them is resolving the values, for texts under any option and for event-marker and table schemas |
| `Slots.ResolveValue` | src/transforms/compiler/node_builder.cpp:513-674 | strict schemas must select a slot, unreadable slots are skipped, slots beyond the arguments fail, and every other text is put as ResolvedExactly says |
| `Slots.ResolveColumnIds` | src/transforms/compiler/node_builder.cpp:589-614 | columns are resolved one by one; the first slot out of range fails |
| `Slots.ResolvedExactly` | src/transforms/compiler/node_builder.cpp:513-674 | text by text, written out without the resolving functions: a text is replaced by the argument it selects and otherwise kept, in a schema the selecting key and every column; it fails exactly when some text selects an argument that is not there or a strict schema selects none; a table whose key cannot be read is left alone |
| `Slots.AllResolvedExactly` | src/transforms/compiler/node_builder.cpp:495-688 | the same for all options of a node together |
| `Slots.NoSlotRemains` | src/transforms/compiler/node_builder.cpp:589-674 | in a resolved option no text selects an argument any more |
| `NodeBuilder.ArgsSelectNone` | src/transforms/compiler/node_builder.cpp:495-540 | references to lowered arguments are no slots themselves |
| `Statements.HandleConstructorAssignment` | src/transforms/compiler/node_builder.cpp:15-187 | named and tuple targets: fails on bound names or a wrong number of outputs, otherwise binds exactly the new names |
| `Statements.HandleNonConstructorAssignment` | src/transforms/compiler/node_builder.cpp:189-211 | the name is bound to what the expression means |
| `Statements.HandleSinkNode` | src/transforms/compiler/node_builder.cpp:213-271 | a report or executor call adds exactly one sink term |
| `Statements.BindOutputs` | src/transforms/compiler/node_builder.cpp:173-181 | outputs are bound left to right, "_" thrown away |
| `StatementExact.AssignsValue` | src/transforms/compiler/node_builder.cpp:189-211 | assigning an expression is accepted exactly when the name is free and the expression checks; then only that name changes, and reads what the expression computes |
| `StatementExact.AssignsInstance` | src/transforms/compiler/node_builder.cpp:15-134 | assigning a call chain is accepted exactly when the name is free and the instance exists; the name stands for it, and it is a sink exactly when its component has no outputs |
| `StatementExact.AssignsOutputs` | src/transforms/compiler/node_builder.cpp:136-187 | a tuple takes one free name per output; each name but "_" stands for the output at its position, the last of equal names deciding, and no other name changes |
| `StatementExact.StandsAlone` | src/transforms/compiler/ast_visitor.cpp:60-94 | a statement without target is accepted exactly for call chains of components without outputs, and adds that one sink |
| `StatementExact.OtherTargets` | src/transforms/compiler/ast_visitor.cpp:32-58 | no other target, and no more than one, can be assigned to |
| `StatementExact.InstanceExactly` | src/transforms/compiler/node_builder.cpp:31-80 | an instance exists exactly when its chain feeds its component by the type check, its keywords can be read and validated, and its slots select arguments that are there |
| `StatementExact.InstanceComputes` | src/transforms/compiler/node_builder.cpp:31-80 | an instance is of the component called, its inputs are the series the chain feeds it, and its timeframe and session those configured, none for literals |
| `Statements.StepsRepresented` | src/transforms/compiler/expression_compiler.cpp:18-68 | lowering an expression adds no sink and leaves no node without a term |
| `AstVisitor.VisitAssign` | src/transforms/compiler/ast_visitor.cpp:32-58 | one target, no attribute target, dispatch on the right-hand side |
| `AstVisitor.VisitExprStmt` | src/transforms/compiler/ast_visitor.cpp:60-94 | only components without outputs may stand alone |
| `AstVisitor.VisitModule` | src/transforms/compiler/ast_visitor.cpp:12-18 | a program is accepted iff it has a meaning, and the context then represents exactly its variables and sinks; without slots outside schemas no option there names a node |
| `SlotTexts.TextsShow` | src/transforms/compiler/node_builder.cpp:495-688 | a node names others outside its schema exactly when its term does |
| `SlotTexts.SlotlessInstance` | src/transforms/compiler/node_builder.cpp:495-688 | an instance without slot texts outside its schema names no node there, when validation adds none |
| `FuturesContinuation.BuildBars` | src/data/futures_continuation/continuations.cpp:52-255 | one contract is passed through; otherwise legs and roll points are those of the roller after the whole timeline, which DayByDay describes time by time on the bars |
| `FuturesContinuation.RollExpired` | src/data/futures_continuation/continuations.cpp:176-183 | every contract passed over ended before the time, the one reached has not or is the last; the coming row is marked once |
| `FuturesContinuation.DayByDay` | src/data/futures_continuation/continuations.cpp:165-255 | one time, said of the bars: on a new day every contract passed over ended before it and the one reached has not ended or is the last; the strategy leaves it exactly when it has started, both legs have data and the strategy says so; the coming row is marked exactly when the front contract changes, once; a row is written exactly when it has started (on a new day) and front and back have data before the strategy acts and after, with the stated labels and first bars from then on |
| `FuturesContinuation.FrontLives` | src/data/futures_continuation/continuations.cpp:176-222 | after the first time of a day the front contract is the last one or has not ended; of the contracts passed that had not ended there is at most one, the one the strategy left |
| `FuturesContinuation.RolloverPointsExact` | src/data/futures_continuation/continuations.cpp:165-255 | roll points increase strictly; a row is one iff its front contract differs from the row before; only the last may equal the row count; the front index never decreases |
| `FuturesContinuation.FrontConstantPerDate` | src/data/futures_continuation/continuations.cpp:168-171 | all rows of one date have the same front contract |
| `FuturesContinuation.EveryRowFrom` | src/data/futures_continuation/continuations.cpp:185-254 | stamps, labels and bars of both legs, row by row, in timeline order |
| `FuturesContinuation.NoLookAhead` | src/data/futures_continuation/continuations.cpp:122-162 | with one time per date and a bar wherever a contract trades, both bars carry the row's own time and times increase strictly |
| `FuturesContinuation.RowIsTimelyExactly` | src/data/futures_continuation/continuations.cpp:122-162 | row by row, without any completeness: both bars carry the row's time if and only if the contract behind the front data, and the next one when it supplies the back data, has a bar there |
| `FuturesContinuation.LegsAligned` | src/data/futures_continuation/continuations.cpp:143-162 | in general both legs share the row's time and no bar is earlier than it |
| `FuturesContinuation.GetDataIsLeast` | src/data/futures_continuation/continuations.cpp:143-162 | the bar found is the earliest at or after the time; none iff all bars are earlier |
| `FuturesContinuation.ExactBar` | src/data/futures_continuation/continuations.cpp:143-162 | it carries the time itself iff the contract has a bar there |
| `FuturesContinuation.StaleFrontExactly` | src/data/futures_continuation/continuations.cpp:187-233 | front label and front prices belong to different contracts exactly on strategy-roll rows |
| `FuturesContinuation.StaleFront` | src/data/futures_continuation/continuations.cpp:187-233 | two contracts and one time at which the strategy rolls: label of the new contract, prices of the old one on both legs |
| `TimestampIndex.GetTimestampIndexMapping` | src/data/database/database_impl.cpp:384-400 | for any frame: exactly its times, each with its first and last row |
| `TimestampIndex.RangeIsScanIff` | src/data/database/database_impl.cpp:384-400 | the rows of a range are the rows at that time exactly when those are contiguous |
| `TimestampIndex.RangesPartition` | src/data/database/database_impl.cpp:384-400 | in a sorted frame every row is in exactly one range |
| `TimestampIndex.LengthsAddUp` | src/data/database/database_impl.cpp:384-400 | the lengths of the ranges of a sorted frame sum to its number of rows |
| `TimestampIndex.DatabaseImpl.CompletePipeline` | src/data/database/database_impl.cpp:232-295 | one item per nonempty frame is added, then all items, old ones included, are entered again |
| `TimestampIndex.DatabaseImpl.HandleData` | src/data/database/database.cpp:12-29 | one call per entry at that time, with the entry's rows; fails iff an entry no longer fits the frames |
| `TimestampIndex.VisitsAreScan` | src/data/database/database.cpp:12-29 | the visits at a time show each frame with rows there once, with exactly those rows |
| `TimestampIndex.RunAndHandle` | src/data/database/database_impl.cpp:263-295 | after one run from empty tables the index agrees with a scan at every time |
| `TimestampIndex.RunAgain` | src/data/database/database_impl.cpp:180-183 | after one more run over any tables and any new frames the visits at a time agree with a scan if and only if neither the old index nor an old indexer item had anything there |
| `TimestampIndex.RunThenRefresh` | src/data/database/database_impl.cpp:180-183 | running the pipeline twice over the same frames makes every frame with rows at a time be visited three times |
| `ChartPanes.ChartMetadataProvider.constructor` | src/chart_metadata/chart_metadata_provider.cpp:58-171 | series are candlestick, volume and the drawn transforms in order; an own-axis series stands on the axis of its name, unlinked; any other has the axis and link of the first known series it reads; the named axes are exactly the names in use, two less than the axes; panes lie where the layout puts them; session ranges appear once |
| `ChartPanes.LinkIsProducer` | src/chart_metadata/chart_metadata_provider.cpp:113-160 | a series is linked to the transform that produced its first known handle if and only if that transform is in the same timeframe |
| `ChartPanes.BasePanesLie` | src/chart_metadata/chart_metadata_provider.cpp:98-106 | without indicator panes the price lies over the volume, 85 points and 15 |
| `ChartPanes.PaneLies` | src/chart_metadata/chart_metadata_provider.cpp:158-170 | with them every pane lies at its share of the hundred points |
| `ChartPanes.HandleHasProducer` | src/chart_metadata/chart_metadata_provider.cpp:150-156 | every known handle was produced by a shown transform, and carries its position in its own timeframe |
| `ChartPanes.StrayLink` | src/chart_metadata/chart_metadata_provider.cpp:113-160 | a transform on 1D reading the output of one on 1H is linked to an unrelated 1D series |
| `ChartPanes.DrawMixed` | src/chart_metadata/chart_metadata_provider.cpp:58-171 | the provider run on those three transforms draws that link |
| `ChartAxes.AssignOk` | src/chart_metadata/axis_manager.cpp:14-60 | assigning one transform keeps all of that |
| `ChartAxes.WithNamedAxisOk` | src/chart_metadata/axis_manager.cpp:134-162 | a new name gets the next axis, a known one its own |
| `ChartAxes.InheritedOk` | src/chart_metadata/axis_manager.cpp:62-107 | the inherited axis exists and the link is an earlier series on it; which one, LinkIsProducer says |
| `ChartAxes.IndexExact` | src/chart_metadata/axis_manager.cpp:134-141 | axis numbers are positions exactly below 256 axes |
| `ChartAxes.AxisManager.AssignAxis` | src/chart_metadata/axis_manager.cpp:14-60 | axis, link and board are those of the specification; other timeframes are untouched |
| `ChartAxes.AxisManager.DetermineAxisFromInputs` | src/chart_metadata/axis_manager.cpp:62-107 | first known parent, then price, then volume, then price |
| `ChartAxes.AxisExactly` | src/chart_metadata/axis_manager.cpp:62-107 | connection by connection: a transform without an axis of its own goes to the first series it reads that is drawn already; with none, to axis 1 and the volume series exactly when some connection names column "v" (alone, or after the first "#") and none names "o", "h", "l" or "c", and else to axis 0 and the candles |
| `ChartAxes.NameExactly` | src/chart_metadata/axis_manager.cpp:14-60 | an own axis is named after the transform, and after the connection it is chained to when one input is another output |
| `ChartAxes.PanesExactly` | src/chart_metadata/axis_manager.cpp:164-186 | in whole points: of n + 1 equal shares the price has two and every other pane the next one |
| `ChartAxes.PriceIsDouble` | src/chart_metadata/axis_manager.cpp:164-186 | the price pane is twice as high as any other, up to a point lost to truncation |
| `ChartAxes.AxisManager.FindOrCreateIndicatorAxis` | src/chart_metadata/axis_manager.cpp:142-162 | finds the name's axis or creates it and lays the panes out again |
| `ChartAxes.Relaid` | src/chart_metadata/axis_manager.cpp:164-186 | the running top yields exactly the layout |
| `ChartAxes.AxisManager.RegisterSeries` | src/chart_metadata/axis_manager.cpp:118-123 | the series is appended and recorded on its axis |
| `ChartAxes.PanesInOrder` | src/chart_metadata/axis_manager.cpp:174-185 | neighbouring panes never overlap and leave at most one point free |
| `ChartAxes.PanesFit` | src/chart_metadata/axis_manager.cpp:174-185 | the first pane starts at 0, the last one ends at 99 or 100 |
| `ChartAxes.PanesVisible` | src/chart_metadata/axis_manager.cpp:174-185 | a pane has a positive height iff there are fewer than a hundred |

## Left out

- Session nodes created automatically (`src/transforms/compiler/ast_compiler.cpp:228`): nothing reads them, so with a sink they are removed as orphans, unless such an id, which is not checked against those in use, is also that of a needed node; where the sink is waived and there is none they stay in the list, and resolving their timeframes may fail when their component is unknown.
- `TimeframeResolver.ResolveTimeframes`: timeframes are texts with an arbitrary rank in place of their offsets, and a missing timeframe is one failure, whichever of the two messages it has.
- Special node validators of single components, beyond the generic wiring rules.
- Option parsing, defaults, clamping and the two special parameters are one arbitrary partial function `configure` of the registry, and custom literal calls another; a failure anywhere in them is a failure of the call.
- `ExpressionCompiler.ParseConstructorAndFeeds`: the original collects the chain in a vector and walks it; the model recurses along the chain, in the same order of evaluation.
- `ConstantFolder.Folder.PreprocessModule`: integers are mathematical, the original's are 32 bits wide; `pow` and `fmod` are uninterpreted, and rewriting builds a new tree instead of moving the old one.
- `CseOptimizer.Optimize`: schemas are records of text fields instead of JSON text; keys and fields without references are not modelled, nor is the arithmetic of the hash.
- `BooleanChain.BuildChain`: lookup and type entries of the links are written from the last link up, the original writes them from the first; the ids are distinct, so the tables are the same.
- `PassPipeline.ChartProgramExists`: gives the graph itself; that the compiler makes just these ids for the program is not derived.
- `IdCollisions.CollidingProgram`: enters the two nodes the way the statements do instead of visiting them, because the invariant of lowering needs names without generated form.
- `NodeIds.PlainWords`: an option text that names a node of the program by its own id, without a slot, is excluded: nothing in the list tells it from a resolved slot.
- `IdCollisions.SortProgram`: speaks about the ids a program asks for, in order; lowering as a whole is proved for programs whose names have no generated form.
- The executor count, line and column numbers, and the text of error messages.
- `FuturesContinuation.BuildBars`: grouping rows into contracts, sorting them by expiration and the price adjustments before and after the loop; the roll strategy is an arbitrary predicate.
- `TimestampIndex.DatabaseImpl.CompletePipeline`: parallel indexing is any order of whole frames; resampling, transforming and loading data are not modelled.
- `ChartPanes.ChartMetadataProvider.constructor`: display names, data mappings, z-index and plot options of a series; heights use exact arithmetic where the original uses doubles.
- `ChartAxes.AxisManager.AssignAxis`: descriptive names and the own-axis flag come with the transform instead of being computed from its metadata.
- The parser, YAML and JSON text, SQL validation, data loading, websockets, tools and scripts.
