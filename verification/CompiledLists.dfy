/** What the compiler promises about a list, before and after timeframes are filled in. */
module CompiledLists {
  import opened Wrappers
  import opened Graph
  import opened Registry
  import opened Denotation
  import opened ProgramMeaning
  import opened PassPipeline
  import CseOptimizer
  import OrphanRemoval
  import TopologicalSort

  /** A list in running order, without dead nodes, whose inputs and schema columns are all there. */
  ghost predicate Assembled(reg: Registry, w: World, g: seq<Node>) {
    && Distinct(g) && TopologicalSort.InputsFirst(g)
    && (forall n :: n in g ==> InputIds(n) + SchemaIds(n) <= Ids(g))
    && (w.sinks != [] ==> forall n :: n in g ==> OrphanRemoval.Needed(reg, g, n.id))
  }

  /**
   A compiled list: nothing dangles in any option either, it runs front to back, and it delivers
   exactly the sink terms of the program, each executor as often as the program calls it.
   */
  ghost predicate Compiled(reg: Registry, w: World, g: seq<Node>) {
    && Assembled(reg, w, g) && NoDangling(g) && Ordered(g) && IsModel(g, Run(g))
    && Feeds(reg, w, g, Run(g))
  }

  /** The sink terms of the graph are those of the program. */
  ghost predicate Feeds(reg: Registry, w: World, g: seq<Node>, v: Valuation) {
    && (forall x :: IsSinkTerm(reg, g, v, x) <==> x in w.sinks)
    && (ExecutorsAreSinks(reg) ==>
          forall x :: KindOf(x) in CseOptimizer.EXECUTOR_KINDS ==> |Executors(g, v, x)| == Occurrences(w.sinks, x))
  }

  /** The nodes that compute this term. */
  function Computing(g: seq<Node>, v: Valuation, x: Value): set<Id> {
    set n | n in g && n.id in v && v[n.id] == x :: n.id
  }

  /** Each call of an executor has a node of its own, and no other node computes the same. */
  lemma CallsAreCounted(reg: Registry, w: World, g: seq<Node>, v: Valuation, x: Value)
    requires IsModel(g, v) && Feeds(reg, w, g, v)
    requires IsSink(reg, "trade_signal_executor") && IsSink(reg, "trade_manager_executor")
             && IsSink(reg, "portfolio_executor")
    requires KindOf(x) in {"trade_signal_executor", "trade_manager_executor", "portfolio_executor"}
    ensures |Computing(g, v, x)| == Occurrences(w.sinks, x)
  {
    hide IsSink, Occurrences, IsSinkTerm;
    forall n | n in g && n.id in v && v[n.id] == x ensures n.kind in CseOptimizer.EXECUTOR_KINDS { }
    assert Executors(g, v, x) == Computing(g, v, x);
  }

  // ------------------------------------------------------------- terms without timeframes

  /** The term with every timeframe in it erased. */
  function Timeless(v: Value): Value {
    match v
    case Apply(kind, options, inputs, _, session) =>
      Apply(kind, map key | key in options :: TimelessMeaning(options[key]),
            map k | k in inputs :: TimelessArgs(inputs[k]), None, session)
    case Output(node, port) => Output(Timeless(node), port)
    case External(_) => v
  }

  function TimelessArgs(a: Args): Args {
    Args(seq(|a.values|, i requires 0 <= i < |a.values| => Timeless(a.values[i])))
  }

  function TimelessMeaning(m: Meaning): Meaning {
    match m
    case Raw(_) => m
    case TextMeaning(v) => TextMeaning(Timeless(v))
    case SchemaMeaning(strict, s, cs) =>
      SchemaMeaning(strict, Timeless(s), seq(|cs|, i requires 0 <= i < |cs| => Timeless(cs[i])))
  }

  function TimelessAll(vs: seq<Value>): seq<Value> { seq(|vs|, i requires 0 <= i < |vs| => Timeless(vs[i])) }

  function TimelessTerms(v: Valuation): Valuation { map id | id in v :: Timeless(v[id]) }

  function TimelessNode(n: Node): Node { n.(timeframe := None) }

  lemma TimelessField(f: string, v: Valuation)
    ensures FieldValue(f, TimelessTerms(v)) == Timeless(FieldValue(f, v))
    ensures RefValue(f, TimelessTerms(v)) == Timeless(RefValue(f, v))
  {
  }

  lemma TimelessOption(kind: string, key: string, o: OptionValue, v: Valuation)
    ensures OptionMeaning(kind, key, o, TimelessTerms(v)) == TimelessMeaning(OptionMeaning(kind, key, o, v))
  {
    hide FieldValue, Timeless;
    match o
    case Text(t) => TimelessField(t, v);
    case Schema(_, s, cs) =>
      TimelessField(s, v);
      forall i | 0 <= i < |cs| ensures FieldValue(cs[i], TimelessTerms(v)) == Timeless(FieldValue(cs[i], v)) {
        TimelessField(cs[i], v);
      }
    case _ =>
  }

  lemma TimelessRefs(refs: seq<string>, v: Valuation)
    ensures Args(RefValues(refs, TimelessTerms(v))) == TimelessArgs(Args(RefValues(refs, v)))
  {
    hide RefValue, Timeless;
    forall i | 0 <= i < |refs| ensures RefValue(refs[i], TimelessTerms(v)) == Timeless(RefValue(refs[i], v)) {
      TimelessField(refs[i], v);
    }
  }

  /** Without timeframes a node computes the same from inputs without timeframes. */
  lemma TimelessNodeValue(n: Node, v: Valuation)
    ensures NodeValue(TimelessNode(n), TimelessTerms(v)) == Timeless(NodeValue(n, v))
  {
    hide OptionMeaning, RefValues, TimelessMeaning, TimelessArgs, TimelessTerms;
    var a, b := NodeValue(TimelessNode(n), TimelessTerms(v)), Timeless(NodeValue(n, v));
    forall key | key in n.options ensures a.options[key] == b.options[key] {
      TimelessOption(n.kind, key, n.options[key], v);
    }
    assert a.options == b.options;
    forall k | k in n.inputs ensures a.inputs[k] == b.inputs[k] { TimelessRefs(n.inputs[k], v); }
    assert a.inputs == b.inputs;
  }

  // --------------------------------------------------------- timeframes filled in afterwards

  /** Only timeframes differ. */
  ghost predicate Retimed(g: seq<Node>, out: seq<Node>) {
    |out| == |g| && forall i :: 0 <= i < |g| ==> out[i] == g[i].(timeframe := out[i].timeframe)
  }

  lemma {:induction false} RetimedRuns(g: seq<Node>, out: seq<Node>)
    requires Retimed(g, out)
    ensures TimelessTerms(Run(out)) == TimelessTerms(Run(g))
  {
    hide Timeless, NodeValue;
    if g != [] {
      var n := |g| - 1;
      var v, w := Run(g[..n]), Run(out[..n]);
      RetimedRuns(g[..n], out[..n]);
      TimelessNodeValue(g[n], v);
      TimelessNodeValue(out[n], w);
      assert TimelessNode(out[n]) == TimelessNode(g[n]);
      assert TimelessTerms(Run(g)) == TimelessTerms(v)[g[n].id := Timeless(NodeValue(g[n], v))];
      assert TimelessTerms(Run(out)) == TimelessTerms(w)[out[n].id := Timeless(NodeValue(out[n], w))];
    }
  }

  lemma RetimedIds(g: seq<Node>, out: seq<Node>)
    requires Retimed(g, out)
    ensures Ids(out) == Ids(g) && forall i :: 0 <= i <= |g| ==> Ids(out[..i]) == Ids(g[..i])
    ensures forall i :: 0 <= i < |g| ==> SameLinks(g[i], out[i])
  {
    forall i | 0 <= i <= |g| ensures Ids(out[..i]) == Ids(g[..i]) {
      forall id ensures id in Ids(out[..i]) <==> id in Ids(g[..i]) {
        if id in Ids(g[..i]) { var k := NodeWithId(g[..i], id); assert out[..i][k].id == id; }
        if id in Ids(out[..i]) { var k := NodeWithId(out[..i], id); assert g[..i][k].id == id; }
      }
    }
    assert g[..|g|] == g && out[..|g|] == out;
  }

  /** The same node as far as ids, kinds and references go. */
  ghost predicate SameLinks(n: Node, m: Node) {
    && n.id == m.id && n.kind == m.kind && InputIds(n) == InputIds(m)
    && OptionIds(n) == OptionIds(m) && SchemaIds(n) == SchemaIds(m)
  }

  lemma {:induction false} RetimedFirst(g: seq<Node>, out: seq<Node>, id: Id)
    requires |g| == |out| && forall i :: 0 <= i < |g| ==> SameLinks(g[i], out[i])
    ensures OrphanRemoval.FirstWithId(out, id) == OrphanRemoval.FirstWithId(g, id)
  {
    hide InputIds, OptionIds, SchemaIds;
    if g != [] {
      assert SameLinks(g[0], out[0]);
      RetimedFirst(g[1..], out[1..], id);
    }
  }

  lemma RetimedNeeded(reg: Registry, g: seq<Node>, out: seq<Node>, id: Id)
    requires |g| == |out| && forall i :: 0 <= i < |g| ==> SameLinks(g[i], out[i])
    requires OrphanRemoval.Needed(reg, g, id)
    ensures OrphanRemoval.Needed(reg, out, id)
  {
    hide InputIds, OptionIds, SchemaIds, OrphanRemoval.FirstWithId, IsSink;
    var p :| OrphanRemoval.Trail(reg, g, p) && p[|p| - 1] == id;
    var n :| n in g && n.id == p[0] && IsSink(reg, n.kind);
    var k :| 0 <= k < |g| && g[k] == n;
    assert out[k] in out && SameLinks(g[k], out[k]);
    forall i | 0 <= i < |p| - 1 ensures OrphanRemoval.Marks(out, p[i], p[i + 1]) {
      RetimedFirst(g, out, p[i]);
      assert OrphanRemoval.Marks(g, p[i], p[i + 1]);
    }
    assert OrphanRemoval.Trail(reg, out, p);
  }

  /** The two lists are linked alike, position by position. */
  ghost predicate Parallel(g: seq<Node>, out: seq<Node>) {
    && |g| == |out| && (forall i :: 0 <= i < |g| ==> SameLinks(g[i], out[i]))
    && forall i :: 0 <= i <= |g| ==> Ids(out[..i]) == Ids(g[..i])
  }

  lemma ParallelIds(g: seq<Node>, out: seq<Node>)
    requires Parallel(g, out)
    ensures Ids(out) == Ids(g)
  {
    hide SameLinks;
    assert g[..|g|] == g && out[..|out|] == out;
  }

  lemma ParallelOrder(g: seq<Node>, out: seq<Node>)
    requires Parallel(g, out)
    ensures Distinct(out) <==> Distinct(g)
    ensures TopologicalSort.InputsFirst(out) <==> TopologicalSort.InputsFirst(g)
    ensures Ordered(out) <==> Ordered(g)
  {
    hide InputIds, OptionIds, SchemaIds;
    ParallelIds(g, out);
    assert forall i :: 0 <= i < |g| ==> SameLinks(g[i], out[i]);
  }

  lemma ParallelPresent(g: seq<Node>, out: seq<Node>)
    requires Parallel(g, out)
    ensures NoDangling(out) <==> NoDangling(g)
    ensures (forall n :: n in g ==> InputIds(n) + SchemaIds(n) <= Ids(g)) ==>
              forall n :: n in out ==> InputIds(n) + SchemaIds(n) <= Ids(out)
  {
    hide InputIds, OptionIds, SchemaIds;
    ParallelIds(g, out);
    assert forall i :: 0 <= i < |g| ==> SameLinks(g[i], out[i]) && g[i] in g && out[i] in out;
  }

  lemma RetimedAssembled(reg: Registry, w: World, g: seq<Node>, out: seq<Node>)
    requires Retimed(g, out) && Assembled(reg, w, g)
    ensures Assembled(reg, w, out)
    ensures NoDangling(out) <==> NoDangling(g)
    ensures Ordered(out) <==> Ordered(g)
  {
    hide OrphanRemoval.Needed, InputIds, OptionIds, SchemaIds, Ordered, NoDangling, Distinct,
         TopologicalSort.InputsFirst, Ids;
    RetimedIds(g, out);
    assert Parallel(g, out);
    ParallelOrder(g, out);
    ParallelPresent(g, out);
    if w.sinks != [] {
      forall n | n in out ensures OrphanRemoval.Needed(reg, out, n.id) {
        var i :| 0 <= i < |out| && out[i] == n;
        assert SameLinks(g[i], out[i]) && g[i] in g;
        RetimedNeeded(reg, g, out, n.id);
      }
    }
  }

  // ------------------------------------------------------------ sinks without timeframes

  function TimelessWorld(w: World): World { World(w.scope, TimelessAll(w.sinks)) }

  /** A compiled list, timeframes in its terms and in the program's terms apart. */
  ghost predicate CompiledUpToTime(reg: Registry, w: World, g: seq<Node>) {
    && Assembled(reg, w, g) && NoDangling(g) && Ordered(g) && IsModel(g, Run(g))
    && Feeds(reg, TimelessWorld(w), g, TimelessTerms(Run(g)))
  }

  function Having(ids: set<Id>, v: Valuation, x: Value): set<Id> { set id | id in ids && id in v && v[id] == x }

  function HavingTimeless(ids: set<Id>, v: Valuation, y: Value): set<Id> {
    set id | id in ids && id in v && Timeless(v[id]) == y
  }

  lemma HasOne(ids: set<Id>, v: Valuation, xs: seq<Value>, x: Value) returns (id: Id)
    requires |Having(ids, v, x)| == Occurrences(xs + [x], x)
    ensures id in ids && id in v && v[id] == x
  {
    OccurrencesSnoc(xs, x, x);
    assert Having(ids, v, x) != {};
    id :| id in Having(ids, v, x);
  }

  lemma TimelessLess(ids: set<Id>, v: Valuation, y: Value, id: Id)
    requires id in ids && id in v
    ensures |HavingTimeless(ids, v, y)| == |HavingTimeless(ids - {id}, v, y)| + (if Timeless(v[id]) == y then 1 else 0)
  {
    hide Timeless;
    if Timeless(v[id]) == y {
      assert HavingTimeless(ids, v, y) == HavingTimeless(ids - {id}, v, y) + {id};
    } else {
      assert HavingTimeless(ids, v, y) == HavingTimeless(ids - {id}, v, y);
    }
  }

  /** Counting by timeless terms adds up the counts of the terms behind them. */
  lemma {:induction false} TimelessCounts(ids: set<Id>, v: Valuation, xs: seq<Value>, y: Value)
    requires ids <= v.Keys && forall id :: id in ids ==> KindOf(v[id]) in CseOptimizer.EXECUTOR_KINDS
    requires forall x :: KindOf(x) in CseOptimizer.EXECUTOR_KINDS ==> |Having(ids, v, x)| == Occurrences(xs, x)
    requires KindOf(y) in CseOptimizer.EXECUTOR_KINDS
    ensures |HavingTimeless(ids, v, y)| == Occurrences(TimelessAll(xs), y)
  {
    hide Timeless, CseOptimizer.EXECUTOR_KINDS;
    if xs == [] {
      NoneLeft(ids, v);
    } else {
      var n := |xs| - 1;
      var x := xs[n];
      assert xs == xs[..n] + [x] && TimelessAll(xs) == TimelessAll(xs[..n]) + [Timeless(x)];
      OccurrencesSnoc(TimelessAll(xs[..n]), Timeless(x), y);
      KeepsKind(x);
      if KindOf(x) in CseOptimizer.EXECUTOR_KINDS {
        var id := HasOne(ids, v, xs[..n], x);
        OneLess(ids, v, xs[..n], x, id);
        TimelessCounts(ids - {id}, v, xs[..n], y);
        TimelessLess(ids, v, y, id);
      } else {
        forall z | KindOf(z) in CseOptimizer.EXECUTOR_KINDS ensures |Having(ids, v, z)| == Occurrences(xs[..n], z) {
          OccurrencesSnoc(xs[..n], x, z);
        }
        TimelessCounts(ids, v, xs[..n], y);
      }
    }
  }

  lemma KeepsKind(x: Value)
    ensures KindOf(Timeless(x)) == KindOf(x)
  {
  }

  lemma NoneLeft(ids: set<Id>, v: Valuation)
    requires ids <= v.Keys && forall id :: id in ids ==> KindOf(v[id]) in CseOptimizer.EXECUTOR_KINDS
    requires forall x :: KindOf(x) in CseOptimizer.EXECUTOR_KINDS ==> |Having(ids, v, x)| == 0
    ensures ids == {}
  {
    assert forall id :: id in ids ==> id in Having(ids, v, v[id]);
  }

  lemma OneLess(ids: set<Id>, v: Valuation, xs: seq<Value>, x: Value, id: Id)
    requires id in Having(ids, v, x)
    requires forall z :: KindOf(z) in CseOptimizer.EXECUTOR_KINDS ==> |Having(ids, v, z)| == Occurrences(xs + [x], z)
    ensures forall z :: KindOf(z) in CseOptimizer.EXECUTOR_KINDS ==> |Having(ids - {id}, v, z)| == Occurrences(xs, z)
  {
    hide CseOptimizer.EXECUTOR_KINDS;
    forall z | KindOf(z) in CseOptimizer.EXECUTOR_KINDS ensures |Having(ids - {id}, v, z)| == Occurrences(xs, z) {
      OccurrencesSnoc(xs, x, z);
      assert Having(ids - {id}, v, z) == Having(ids, v, z) - {id};
    }
  }

  function ExecutorNodes(g: seq<Node>): set<Id> { set n | n in g && n.kind in CseOptimizer.EXECUTOR_KINDS :: n.id }

  lemma ExecutorsHaving(g: seq<Node>, v: Valuation, x: Value)
    requires Distinct(g)
    ensures Executors(g, v, x) == Having(ExecutorNodes(g), v, x)
    ensures Executors(g, TimelessTerms(v), x) == HavingTimeless(ExecutorNodes(g), v, x)
  {
    hide Timeless;
  }

  lemma TimelessFeeds(reg: Registry, w: World, g: seq<Node>, v: Valuation)
    requires Distinct(g) && IsModel(g, v) && Feeds(reg, w, g, v)
    ensures Feeds(reg, TimelessWorld(w), g, TimelessTerms(v))
  {
    hide Timeless, IsSink, Executors, CseOptimizer.EXECUTOR_KINDS, ExecutorNodes, HavingTimeless, Having, IsModel;
    forall y ensures IsSinkTerm(reg, g, TimelessTerms(v), y) <==> y in TimelessAll(w.sinks) {
      TimelessSinks(reg, w, g, v, y);
    }
    if ExecutorsAreSinks(reg) {
      ExecutorNodesAre(g, v);
      forall x | KindOf(x) in CseOptimizer.EXECUTOR_KINDS
        ensures |Having(ExecutorNodes(g), v, x)| == Occurrences(w.sinks, x)
      {
        ExecutorsHaving(g, v, x);
      }
      forall y | KindOf(y) in CseOptimizer.EXECUTOR_KINDS
        ensures |Executors(g, TimelessTerms(v), y)| == Occurrences(TimelessAll(w.sinks), y)
      {
        ExecutorsHaving(g, v, y);
        TimelessCounts(ExecutorNodes(g), v, w.sinks, y);
      }
    }
  }

  lemma ExecutorNodesAre(g: seq<Node>, v: Valuation)
    requires IsModel(g, v)
    ensures ExecutorNodes(g) <= v.Keys
    ensures forall id :: id in ExecutorNodes(g) ==> KindOf(v[id]) in CseOptimizer.EXECUTOR_KINDS
  {
  }

  lemma TimelessSinks(reg: Registry, w: World, g: seq<Node>, v: Valuation, y: Value)
    requires Feeds(reg, w, g, v)
    ensures IsSinkTerm(reg, g, TimelessTerms(v), y) <==> y in TimelessAll(w.sinks)
  {
    hide Timeless, IsSink, Executors, Occurrences, CseOptimizer.EXECUTOR_KINDS;
    if IsSinkTerm(reg, g, TimelessTerms(v), y) {
      var n :| n in g && IsSink(reg, n.kind) && n.id in v && Timeless(v[n.id]) == y;
      assert IsSinkTerm(reg, g, v, v[n.id]);
      var i :| 0 <= i < |w.sinks| && w.sinks[i] == v[n.id];
      assert TimelessAll(w.sinks)[i] == y;
    }
    if y in TimelessAll(w.sinks) {
      var i :| 0 <= i < |w.sinks| && TimelessAll(w.sinks)[i] == y;
      assert w.sinks[i] in w.sinks && IsSinkTerm(reg, g, v, w.sinks[i]);
    }
  }

  lemma RetimedFeeds(reg: Registry, w: World, g: seq<Node>, out: seq<Node>, v: Valuation)
    requires Retimed(g, out) && Feeds(reg, w, g, v)
    ensures Feeds(reg, w, out, v)
  {
    hide IsSink, CseOptimizer.EXECUTOR_KINDS;
    assert forall i :: 0 <= i < |g| ==> g[i] in g && out[i] in out;
    forall x
      ensures IsSinkTerm(reg, out, v, x) <==> IsSinkTerm(reg, g, v, x)
      ensures Executors(out, v, x) == Executors(g, v, x)
    {
    }
  }

  /** With timeframes filled in, a list is compiled up to timeframes exactly when it was compiled before. */
  lemma RetimedIsCompiled(reg: Registry, w: World, g: seq<Node>, out: seq<Node>)
    requires Retimed(g, out) && Assembled(reg, w, g)
    ensures Compiled(reg, w, g) ==> CompiledUpToTime(reg, w, out)
    ensures NoDangling(out) <==> NoDangling(g)
  {
    hide NoDangling, Ordered, IsModel, Feeds, Run, TimelessTerms, Retimed;
    RetimedAssembled(reg, w, g, out);
    if Compiled(reg, w, g) {
      RetimedRuns(g, out);
      TimelessFeeds(reg, w, g, Run(g));
      RetimedFeeds(reg, TimelessWorld(w), g, out, TimelessTerms(Run(g)));
      RunIsModel(out);
    }
  }
}
