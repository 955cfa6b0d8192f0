/** What the optimizer, the orphan removal and the sort keep together. */
module PassPipeline {
  import opened Wrappers
  import opened Graph
  import opened Registry
  import opened NodeIds
  import opened CompilationContext
  import opened Denotation
  import opened ProgramMeaning
  import opened Lowering
  import opened Slots
  import opened Statements
  import CseOptimizer
  import OrphanRemoval
  import TopologicalSort

  // -------------------------------------------------------------- nothing dangles

  /** Every input and every reference in an option names a node of the graph. */
  ghost predicate NoDangling(g: seq<Node>) {
    forall n :: n in g ==> InputIds(n) + OptionIds(n) <= Ids(g)
  }

  /** What every pass keeps, whatever the options outside the schemas name. */
  ghost predicate Framed(g: seq<Node>, v: Valuation) {
    && Distinct(g) && PlainIds(g) && Descends(g, v) && OptionsWired(g)
    && forall n :: n in g ==> InputIds(n) + SchemaIds(n) <= Ids(g)
  }

  /** A graph that means what its terms say, and in which no reference dangles. */
  ghost predicate Sound(g: seq<Node>, v: Valuation) { Framed(g, v) && IsModel(g, v) && NoDangling(g) }

  // ------------------------------------------------------------- what is delivered

  ghost predicate IsSinkTerm(reg: Registry, g: seq<Node>, v: Valuation, x: Value) {
    exists n :: n in g && IsSink(reg, n.kind) && n.id in v && v[n.id] == x
  }

  /** The executor nodes that compute x. */
  function Executors(g: seq<Node>, v: Valuation, x: Value): set<Id> {
    set n | n in g && n.kind in CseOptimizer.EXECUTOR_KINDS && n.id in v && v[n.id] == x :: n.id
  }

  // ----------------------------------------------------------------- after lowering

  lemma NearIsWired(g: seq<Node>, n: Node, d: Id)
    requires n in g && Near(g, n, d) && InputIds(n) <= Ids(g) && d in Ids(g)
    ensures Reaches(g, n.id, d)
  {
    if d in InputIds(n) {
      assert DependsOn(g, n.id, d);
      assert Walk(g, [n.id, d]);
    } else {
      var m :| m in g && m.id in InputIds(n) && d in InputIds(m);
      assert DependsOn(g, n.id, m.id) && DependsOn(g, m.id, d);
      assert Walk(g, [n.id, m.id, d]);
    }
  }

  /** A represented program is a sound graph. */
  lemma RepresentedIsSound(reg: Registry, s: State, w: World)
    requires Represented(reg, s, w)
    ensures Sound(s.nodes, s.val)
    ensures forall n, r :: n in s.nodes && r in InputRefs(n) ==> HasHash(r)
  {
    hide Represented, InputIds, InputRefs, SchemaIds, TextIds, NodeValue, Reaches, Refers, HasHash;
    forall n | n in s.nodes
      ensures n.id in s.val && s.val[n.id] == NodeValue(n, s.val) && Word(n.id)
      ensures InputIds(n) + OptionIds(n) <= Ids(s.nodes)
      ensures forall r :: r in InputRefs(n) ==> HasHash(r)
      ensures forall d :: d in OptionIds(n) ==> Reaches(s.nodes, n.id, d)
    {
      RepresentedNode(reg, s, w, n);
    }
    RepresentedKeys(reg, s, w);
    ModelDescends(s.nodes, s.val);
  }

  lemma RepresentedKeys(reg: Registry, s: State, w: World)
    requires Represented(reg, s, w)
    ensures s.val.Keys == Ids(s.nodes) && Distinct(s.nodes)
  {
  }

  lemma RepresentedNode(reg: Registry, s: State, w: World, n: Node)
    requires Represented(reg, s, w) && n in s.nodes
    ensures n.id in s.val && s.val[n.id] == NodeValue(n, s.val) && Word(n.id)
    ensures InputIds(n) + OptionIds(n) <= Ids(s.nodes)
    ensures forall r :: r in InputRefs(n) ==> HasHash(r)
    ensures forall d :: d in OptionIds(n) ==> Reaches(s.nodes, n.id, d)
  {
    hide InputIds, SchemaIds, TextIds, NodeValue, Reaches, Near, Bound, ScopeOf, SinkTerms;
    assert n.id in Ids(s.nodes);
    assert Finished(s, n) && KnownName(reg, s, n.id);
    forall d | d in OptionIds(n) ensures Reaches(s.nodes, n.id, d) { NearIsWired(s.nodes, n, d); }
  }

  lemma SchemaIsOption(n: Node)
    ensures SchemaIds(n) <= OptionIds(n)
  {
  }

  lemma {:induction false} SinkTermsAreTerms(reg: Registry, g: seq<Node>, v: Valuation, x: Value)
    requires forall n :: n in g ==> n.id in v
    ensures x in SinkTerms(reg, g, v) <==> IsSinkTerm(reg, g, v, x)
  {
    if g != [] {
      var init, last := g[..|g| - 1], g[|g| - 1];
      assert g == init + [last];
      SinkTermsAreTerms(reg, init, v, x);
    }
  }

  function Occurrences(xs: seq<Value>, x: Value): nat {
    if xs == [] then 0 else Occurrences(xs[..|xs| - 1], x) + (if xs[|xs| - 1] == x then 1 else 0)
  }

  predicate ExecutorsAreSinks(reg: Registry) {
    forall kind :: kind in CseOptimizer.EXECUTOR_KINDS ==> IsSink(reg, kind)
  }

  lemma ExecutorsSnoc(g: seq<Node>, n: Node, v: Valuation, x: Value)
    ensures Executors(g + [n], v, x) == Executors(g, v, x) + Executors([n], v, x)
  {
    assert forall m :: m in g + [n] <==> m in g || m == n;
  }

  lemma ExecutorsOfOne(n: Node, v: Valuation, x: Value)
    ensures Executors([n], v, x) ==
              if n.kind in CseOptimizer.EXECUTOR_KINDS && n.id in v && v[n.id] == x then {n.id} else {}
  {
  }

  lemma OccurrencesSnoc(xs: seq<Value>, y: Value, x: Value)
    ensures Occurrences(xs + [y], x) == Occurrences(xs, x) + (if y == x then 1 else 0)
  {
    assert (xs + [y])[..|xs|] == xs;
  }

  /** There are as many executor nodes computing x as statements that call for x. */
  lemma {:induction false} ExecutorsCounted(reg: Registry, g: seq<Node>, v: Valuation, x: Value)
    requires Distinct(g) && ExecutorsAreSinks(reg) && KindOf(x) in CseOptimizer.EXECUTOR_KINDS
    requires forall n :: n in g ==> n.id in v && KindOf(v[n.id]) == n.kind
    ensures |Executors(g, v, x)| == Occurrences(SinkTerms(reg, g, v), x)
  {
    if g == [] {
      assert Executors(g, v, x) == {};
    } else {
      var init, last := g[..|g| - 1], g[|g| - 1];
      InitIsNew(g);
      ExecutorsCounted(reg, init, v, x);
      OneMoreCounted(reg, init, last, v, x);
    }
  }

  lemma InitIsNew(g: seq<Node>)
    requires Distinct(g) && g != []
    ensures g == g[..|g| - 1] + [g[|g| - 1]] && Distinct(g[..|g| - 1])
    ensures forall n :: n in g[..|g| - 1] ==> n in g && n.id != g[|g| - 1].id
  {
  }

  lemma OneMoreCounted(reg: Registry, g: seq<Node>, n: Node, v: Valuation, x: Value)
    requires ExecutorsAreSinks(reg) && KindOf(x) in CseOptimizer.EXECUTOR_KINDS && n.id in v
    requires KindOf(v[n.id]) == n.kind
    requires forall m :: m in g ==> m.id != n.id
    requires |Executors(g, v, x)| == Occurrences(SinkTerms(reg, g, v), x)
    ensures |Executors(g + [n], v, x)| == Occurrences(SinkTerms(reg, g + [n], v), x)
  {
    hide Executors, CseOptimizer.EXECUTOR_KINDS, SinkTerms, Occurrences;
    ExecutorsSnoc(g, n, v, x);
    ExecutorsOfOne(n, v, x);
    ExecutorIds(g, v, x, n.id);
    SinkTermsAppend(reg, g, [n], v);
    OneSinkTerm(reg, n, v);
    OccurrencesSnoc(SinkTerms(reg, g, v), v[n.id], x);
    assert v[n.id] == x ==> IsSink(reg, n.kind);
    assert SinkTerms(reg, g, v) + [] == SinkTerms(reg, g, v);
    assert Executors(g, v, x) + {} == Executors(g, v, x);
  }

  lemma ExecutorIds(g: seq<Node>, v: Valuation, x: Value, id: Id)
    requires forall n :: n in g ==> n.id != id
    ensures id !in Executors(g, v, x)
  {
  }

  // --------------------------------------------------------------- after the optimizer

  /** What the optimizer needs to know of the lowered graph. */
  ghost predicate Optimizable(h: CseOptimizer.Hashing, g: seq<Node>, rd: CseOptimizer.Redirect, v: Valuation) {
    && Sound(g, v) && CseOptimizer.SessionsTold(h, g) && CseOptimizer.Redirects(h, g, rd)
    && forall n, r :: n in g && r in InputRefs(n) ==> HasHash(r)
  }

  lemma OptimizableFacts(h: CseOptimizer.Hashing, g: seq<Node>, rd: CseOptimizer.Redirect, v: Valuation)
    requires Optimizable(h, g, rd, v)
    ensures CseOptimizer.Assumptions(h, g, rd) && CseOptimizer.BareRefsKept(g, rd) && OptionsWired(g)
    ensures Distinct(g) && v.Keys == Ids(g) && IsModel(g, v) && NoDangling(g)
  {
  }

  lemma CanonicalValue(h: CseOptimizer.Hashing, g: seq<Node>, rd: CseOptimizer.Redirect, v: Valuation, d: Id)
    requires Optimizable(h, g, rd, v) && d in v
    ensures CseOptimizer.Target(rd, d) in v - rd.Keys && v[CseOptimizer.Target(rd, d)] == v[d]
  {
    if d in rd { CseOptimizer.RemovedHasCanonicalValue(h, g, rd, v, d); }
  }

  lemma OptimizedDescends(h: CseOptimizer.Hashing, g: seq<Node>, rd: CseOptimizer.Redirect, v: Valuation, s: Node)
    requires Optimizable(h, g, rd, v) && s in CseOptimizer.Survivors(g, rd)
    ensures s.id in v - rd.Keys && Word(s.id)
    ensures forall d :: d in InputIds(s) ==> d in v - rd.Keys && (v[s.id] decreases to v[d])
    ensures forall d :: d in SchemaIds(s) ==> d in v - rd.Keys
  {
    hide CseOptimizer.Survivors, CseOptimizer.Redirects, CseOptimizer.SessionsTold, InputIds, SchemaIds, TextIds,
         NodeValue;
    var n := CseOptimizer.SurvivorOrigin(g, rd, s);
    CseOptimizer.RedirectIsOneStep(h, g, rd);
    CseOptimizer.PlainTargets(g, rd);
    forall d' | d' in InputIds(s) ensures d' in v - rd.Keys && (v[s.id] decreases to v[d']) {
      var d := CseOptimizer.RewrittenInputBack(n, rd, d');
      assert d in Ids(g);
      CanonicalValue(h, g, rd, v, d);
      MentionIsBelow(n, v, d);
    }
    forall d' | d' in SchemaIds(s) ensures d' in v - rd.Keys {
      var d := CseOptimizer.RewrittenSchemaId(n, rd, d');
      assert d in Ids(g);
      CanonicalValue(h, g, rd, v, d);
    }
  }

  lemma OptimizedIsFramed(h: CseOptimizer.Hashing, g: seq<Node>, rd: CseOptimizer.Redirect, v: Valuation)
    requires Optimizable(h, g, rd, v)
    ensures Framed(CseOptimizer.Survivors(g, rd), v - rd.Keys)
  {
    hide InputIds, SchemaIds, CseOptimizer.Survivors, CseOptimizer.Assumptions, CseOptimizer.BareRefsKept, Optimizable,
         OptionsWired, Descends, Distinct;
    var g1 := CseOptimizer.Survivors(g, rd);
    OptimizableFacts(h, g, rd, v);
    CseOptimizer.OptimizeKeepsWiring(h, g, rd);
    CseOptimizer.SurvivorIds(g, rd);
    OptimizedTermsDescend(h, g, rd, v);
    forall s | s in g1 ensures Word(s.id) && InputIds(s) + SchemaIds(s) <= Ids(g1) {
      OptimizedDescends(h, g, rd, v, s);
    }
  }

  lemma OptimizedTermsDescend(h: CseOptimizer.Hashing, g: seq<Node>, rd: CseOptimizer.Redirect, v: Valuation)
    requires Optimizable(h, g, rd, v)
    ensures Descends(CseOptimizer.Survivors(g, rd), v - rd.Keys)
  {
    hide InputIds, SchemaIds, CseOptimizer.Survivors, Optimizable;
    OptimizableFacts(h, g, rd, v);
    CseOptimizer.SurvivorIds(g, rd);
    forall s, d | s in CseOptimizer.Survivors(g, rd) && d in InputIds(s) && d in v - rd.Keys
      ensures (v - rd.Keys)[s.id] decreases to (v - rd.Keys)[d]
    {
      OptimizedDescends(h, g, rd, v, s);
    }
  }

  /** A survivor that names no removed node outside its schema keeps its term. */
  lemma OptimizedValue(h: CseOptimizer.Hashing, g: seq<Node>, rd: CseOptimizer.Redirect, v: Valuation, n: Node)
    requires Optimizable(h, g, rd, v) && n in g && n.id !in rd && forall d :: d in TextIds(n) ==> d !in rd
    ensures NodeValue(CseOptimizer.RewriteNode(n, rd), v - rd.Keys) == v[n.id]
  {
    hide CseOptimizer.Redirects, CseOptimizer.SessionsTold, TextIds, NodeValue, InputRefs;
    CseOptimizer.ModelsAreLinked(h, g, rd, v);
    CseOptimizer.RewrittenNode(n, v, v - rd.Keys, rd);
  }

  /** Survivors are rewritten nodes of the old graph; executors are among them. */
  ghost predicate Optimized(g: seq<Node>, g1: seq<Node>, rd: CseOptimizer.Redirect) {
    && (forall s :: s in g1 ==> exists n :: n in g && n.id !in rd && s == CseOptimizer.RewriteNode(n, rd))
    && (forall n :: n in g && n.kind in CseOptimizer.EXECUTOR_KINDS ==>
          n.id !in rd && CseOptimizer.RewriteNode(n, rd) in g1)
  }

  lemma SurvivorsAreOptimized(h: CseOptimizer.Hashing, g: seq<Node>, rd: CseOptimizer.Redirect)
    requires Distinct(g) && CseOptimizer.Redirects(h, g, rd)
    ensures Optimized(g, CseOptimizer.Survivors(g, rd), rd)
  {
    hide Distinct, CseOptimizer.Redirects, CseOptimizer.Survivors, CseOptimizer.RewriteNode;
    forall s | s in CseOptimizer.Survivors(g, rd)
      ensures exists n :: n in g && n.id !in rd && s == CseOptimizer.RewriteNode(n, rd)
    {
      var n := CseOptimizer.SurvivorOrigin(g, rd, s);
    }
    forall n | n in g && n.kind in CseOptimizer.EXECUTOR_KINDS
      ensures n.id !in rd && CseOptimizer.RewriteNode(n, rd) in CseOptimizer.Survivors(g, rd)
    {
      CseOptimizer.ExecutorsSurvive(h, g, rd, n);
    }
  }

  /** A sink that is merged away leaves a sink with the same term. */
  lemma SinkTermSurvives(reg: Registry, h: CseOptimizer.Hashing, g: seq<Node>, rd: CseOptimizer.Redirect, v: Valuation,
                         x: Value)
    requires CseOptimizer.Assumptions(h, g, rd) && IsModel(g, v) && IsSinkTerm(reg, g, v, x)
    ensures IsSinkTerm(reg, CseOptimizer.Survivors(g, rd), v - rd.Keys, x)
  {
    hide CseOptimizer.Survivors, CseOptimizer.Redirects, CseOptimizer.SessionsTold, IsModel, IsSink;
    var n :| n in g && IsSink(reg, n.kind) && n.id in v && v[n.id] == x;
    var c := n;
    if n.id in rd {
      c := CseOptimizer.RemovedLikeCanonical(h, g, rd, n);
      CseOptimizer.RemovedHasCanonicalValue(h, g, rd, v, n.id);
    }
    CseOptimizer.SurvivorStays(g, rd, c);
    var s := CseOptimizer.RewriteNode(c, rd);
    assert s in CseOptimizer.Survivors(g, rd) && s.kind == n.kind && s.id in v - rd.Keys;
  }

  lemma SoundIsModel(h: CseOptimizer.Hashing, g: seq<Node>, rd: CseOptimizer.Redirect, v: Valuation)
    requires Sound(g, v) && CseOptimizer.SessionsTold(h, g) && CseOptimizer.Redirects(h, g, rd)
    ensures CseOptimizer.Assumptions(h, g, rd) && IsModel(g, v)
  {
  }

  /** Sinks may be merged, but every sink term is still delivered; executors are not merged. */
  lemma OptimizedDelivers(reg: Registry, h: CseOptimizer.Hashing, g: seq<Node>, rd: CseOptimizer.Redirect, v: Valuation,
                          x: Value)
    requires Sound(g, v) && CseOptimizer.SessionsTold(h, g) && CseOptimizer.Redirects(h, g, rd)
    ensures IsSinkTerm(reg, CseOptimizer.Survivors(g, rd), v - rd.Keys, x) <==> IsSinkTerm(reg, g, v, x)
    ensures Executors(CseOptimizer.Survivors(g, rd), v - rd.Keys, x) == Executors(g, v, x)
  {
    hide CseOptimizer.Survivors, CseOptimizer.Redirects, CseOptimizer.SessionsTold, Sound, IsSink, IsModel, Framed,
         Executors, Optimized;
    var g1, v1 := CseOptimizer.Survivors(g, rd), v - rd.Keys;
    SoundIsModel(h, g, rd, v);
    if IsSinkTerm(reg, g, v, x) { SinkTermSurvives(reg, h, g, rd, v, x); }
    SurvivorsAreOptimized(h, g, rd);
    if IsSinkTerm(reg, g1, v1, x) {
      var s :| s in g1 && IsSink(reg, s.kind) && s.id in v1 && v1[s.id] == x;
      var n := CseOptimizer.SurvivorOrigin(g, rd, s);
      assert n.kind == s.kind && n.id == s.id;
    }
    ExecutorsMatch(g, g1, v, v1, x, rd);
  }

  lemma ExecutorsMatch(g: seq<Node>, g1: seq<Node>, v: Valuation, v1: Valuation, x: Value, rd: CseOptimizer.Redirect)
    requires v1 == v - rd.Keys && Optimized(g, g1, rd)
    ensures Executors(g1, v1, x) == Executors(g, v, x)
  {
    forall id | id in Executors(g, v, x) ensures id in Executors(g1, v1, x) {
      var n :| n in g && n.kind in CseOptimizer.EXECUTOR_KINDS && n.id in v && v[n.id] == x && n.id == id;
      var s := CseOptimizer.RewriteNode(n, rd);
      assert s in g1 && s.id == id && s.kind == n.kind;
    }
    forall id | id in Executors(g1, v1, x) ensures id in Executors(g, v, x) {
      var s :| s in g1 && s.kind in CseOptimizer.EXECUTOR_KINDS && s.id in v1 && v1[s.id] == x && s.id == id;
      var n :| n in g && n.id !in rd && s == CseOptimizer.RewriteNode(n, rd);
    }
  }

  // ---------------------------------------------------------- after orphan removal

  ghost predicate MarkedNeeded(reg: Registry, g: seq<Node>, marked: set<Id>) {
    forall id :: id in marked <==> OrphanRemoval.Needed(reg, g, id)
  }

  lemma NeededIsClosed(reg: Registry, g: seq<Node>, marked: set<Id>)
    requires MarkedNeeded(reg, g, marked)
    ensures OrphanRemoval.Closed(g, marked, [])
  {
    forall a, b | a in marked && OrphanRemoval.Marks(g, a, b) ensures b in marked {
      OrphanRemoval.MarkedIsNeeded(reg, g, a, b);
    }
  }

  lemma WiredReaches(g: seq<Node>, n: Node, d: Id)
    requires OptionsWired(g) && n in g && d in OptionIds(n) && d in Ids(g)
    ensures Reaches(g, n.id, d)
  {
  }

  /** The ids to keep are closed under inputs. */
  lemma KeptIsFramed(g: seq<Node>, marked: set<Id>, v: Valuation)
    requires Framed(g, v) && OrphanRemoval.Closed(g, marked, [])
    ensures Framed(OrphanRemoval.Keep(g, marked), v - (v.Keys - marked))
  {
    hide InputIds, SchemaIds, Reaches, Distinct, OptionsWired, PlainIds, Descends, OrphanRemoval.Closed;
    OrphanRemoval.KeepDistinct(g, marked);
    OrphanRemoval.KeepIds(g, marked);
    OrphanRemoval.RemovalKeepsWiring(g, marked);
    KeptDescends(g, marked, v);
    forall n | n in OrphanRemoval.Keep(g, marked)
      ensures n in g && n.id in marked && InputIds(n) + SchemaIds(n) <= marked
    {
      OrphanRemoval.KeepMembers(g, marked, n);
      forall d | d in InputIds(n) ensures d in marked { OrphanRemoval.InputSurvives(g, marked, n, d); }
      forall d | d in SchemaIds(n) ensures d in marked {
        SchemaIsOption(n);
        WiredReaches(g, n, d);
        OrphanRemoval.NamedSurvives(g, marked, n, d);
      }
    }
  }

  lemma KeptDescends(g: seq<Node>, marked: set<Id>, v: Valuation)
    requires PlainIds(g) && Descends(g, v)
    ensures PlainIds(OrphanRemoval.Keep(g, marked)) && Descends(OrphanRemoval.Keep(g, marked), v - (v.Keys - marked))
  {
    hide InputIds, Word, OrphanRemoval.Keep;
    OrphanRemoval.KeepIds(g, marked);
    forall n ensures n in OrphanRemoval.Keep(g, marked) <==> n in g && n.id in marked {
      OrphanRemoval.KeepMembers(g, marked, n);
    }
  }

  /** All sinks stay, and with them what they compute. */
  lemma KeptDelivers(reg: Registry, g: seq<Node>, marked: set<Id>, v: Valuation, x: Value)
    requires forall n :: n in g && IsSink(reg, n.kind) ==> n.id in marked
    ensures IsSinkTerm(reg, OrphanRemoval.Keep(g, marked), v - (v.Keys - marked), x) <==> IsSinkTerm(reg, g, v, x)
    ensures ExecutorsAreSinks(reg) ==>
              Executors(OrphanRemoval.Keep(g, marked), v - (v.Keys - marked), x) == Executors(g, v, x)
  {
    var g1, v1 := OrphanRemoval.Keep(g, marked), v - (v.Keys - marked);
    forall n ensures n in g1 <==> n in g && n.id in marked { OrphanRemoval.KeepMembers(g, marked, n); }
    if ExecutorsAreSinks(reg) {
      forall id ensures id in Executors(g1, v1, x) <==> id in Executors(g, v, x) { }
    }
  }

  // ------------------------------------------------------------ both removals together

  /** The graph after duplicates and then everything outside `marked` are removed. */
  function Pruned(g: seq<Node>, rd: CseOptimizer.Redirect, marked: set<Id>): seq<Node> {
    OrphanRemoval.Keep(CseOptimizer.Survivors(g, rd), marked)
  }

  function PrunedTerms(v: Valuation, rd: CseOptimizer.Redirect, marked: set<Id>): Valuation {
    (v - rd.Keys) - ((v - rd.Keys).Keys - marked)
  }

  lemma PrunedOrigin(g: seq<Node>, rd: CseOptimizer.Redirect, marked: set<Id>, m: Node) returns (n: Node)
    requires m in Pruned(g, rd, marked)
    ensures n in g && n.id !in rd && m == CseOptimizer.RewriteNode(n, rd) && m in CseOptimizer.Survivors(g, rd)
    ensures m.id == n.id && m.id in marked && TextIds(m) == TextIds(n)
  {
    hide TextIds;
    OrphanRemoval.KeepMembers(CseOptimizer.Survivors(g, rd), marked, m);
    n := CseOptimizer.SurvivorOrigin(g, rd, m);
    CseOptimizer.TextIdsStay(n, rd);
  }

  /** A kept node's option outside the schema dangles exactly when it names a duplicate. */
  lemma PrunedText(h: CseOptimizer.Hashing, g: seq<Node>, rd: CseOptimizer.Redirect, v: Valuation, marked: set<Id>,
                   m: Node, d: Id)
    requires Optimizable(h, g, rd, v) && OrphanRemoval.Closed(CseOptimizer.Survivors(g, rd), marked, [])
    requires m in Pruned(g, rd, marked) && d in TextIds(m)
    ensures d in Ids(Pruned(g, rd, marked)) <==> d !in rd
  {
    hide CseOptimizer.Survivors, Optimizable, CseOptimizer.Assumptions, CseOptimizer.BareRefsKept, TextIds, Reaches,
         OptionsWired, NoDangling, IsModel, Distinct, OrphanRemoval.Closed, OrphanRemoval.Keep;
    var g1 := CseOptimizer.Survivors(g, rd);
    OptimizableFacts(h, g, rd, v);
    var n := PrunedOrigin(g, rd, marked, m);
    NoneDangles(g, n, d);
    TextIsOption(m, d);
    CseOptimizer.SurvivorIds(g, rd);
    OrphanRemoval.KeepIds(g1, marked);
    CseOptimizer.OptimizeKeepsWiring(h, g, rd);
    if d !in rd {
      WiredReaches(g1, m, d);
      OrphanRemoval.NamedSurvives(g1, marked, m, d);
    }
  }

  lemma TextIsOption(n: Node, d: Id)
    requires d in TextIds(n)
    ensures d in OptionIds(n)
  {
  }

  lemma NoneDangles(g: seq<Node>, n: Node, d: Id)
    requires NoDangling(g) && n in g && d in TextIds(n)
    ensures d in Ids(g)
  {
  }

  lemma PrunedIsFramed(h: CseOptimizer.Hashing, g: seq<Node>, rd: CseOptimizer.Redirect, v: Valuation, marked: set<Id>)
    requires Optimizable(h, g, rd, v) && OrphanRemoval.Closed(CseOptimizer.Survivors(g, rd), marked, [])
    ensures Framed(Pruned(g, rd, marked), PrunedTerms(v, rd, marked))
  {
    OptimizedIsFramed(h, g, rd, v);
    KeptIsFramed(CseOptimizer.Survivors(g, rd), marked, v - rd.Keys);
  }

  lemma PrunedValue(h: CseOptimizer.Hashing, g: seq<Node>, rd: CseOptimizer.Redirect, v: Valuation, marked: set<Id>,
                    m: Node)
    requires Optimizable(h, g, rd, v) && OrphanRemoval.Closed(CseOptimizer.Survivors(g, rd), marked, [])
    requires m in Pruned(g, rd, marked) && forall d :: d in TextIds(m) ==> d !in rd
    ensures m.id in v && NodeValue(m, PrunedTerms(v, rd, marked)) == v[m.id]
  {
    hide CseOptimizer.Survivors, CseOptimizer.Redirects, CseOptimizer.SessionsTold, SchemaIds, TextIds, InputIds,
         Reaches, NodeValue, InputRefs;
    var g1 := CseOptimizer.Survivors(g, rd);
    var n := PrunedOrigin(g, rd, marked, m);
    assert n.id in Ids(g);
    CseOptimizer.SurvivorIds(g, rd);
    CseOptimizer.OptimizeKeepsWiring(h, g, rd);
    OptimizedValue(h, g, rd, v, n);
    forall d | d in OptionIds(m) && d in Ids(g1) ensures d in marked { OrphanRemoval.NamedSurvives(g1, marked, m, d); }
    OrphanRemoval.KeptValue(g1, marked, v - rd.Keys, m);
  }

  /** Exactly the texts outside schemas that name duplicates can dangle; without them meaning is kept. */
  lemma PrunedDecides(h: CseOptimizer.Hashing, g: seq<Node>, rd: CseOptimizer.Redirect, v: Valuation, marked: set<Id>)
    requires Optimizable(h, g, rd, v) && OrphanRemoval.Closed(CseOptimizer.Survivors(g, rd), marked, [])
    ensures NoDangling(Pruned(g, rd, marked)) <==> CseOptimizer.TextsKept(g, rd, Ids(Pruned(g, rd, marked)))
    ensures NoDangling(Pruned(g, rd, marked)) <==> Sound(Pruned(g, rd, marked), PrunedTerms(v, rd, marked))
  {
    hide Pruned, PrunedTerms, Optimizable, Framed, NoDangling, IsModel, TextIds, CseOptimizer.TextsKept,
         CseOptimizer.Survivors, OrphanRemoval.Closed;
    var k, w := Pruned(g, rd, marked), PrunedTerms(v, rd, marked);
    OptimizableFacts(h, g, rd, v);
    PrunedIsFramed(h, g, rd, v, marked);
    PrunedTexts(g, rd, marked);
    PrunedDangles(h, g, rd, v, marked);
    if NoDangling(k) { PrunedModel(h, g, rd, v, marked); }
  }

  lemma FramedDangles(g: seq<Node>, v: Valuation)
    requires Framed(g, v)
    ensures NoDangling(g) <==> forall m, d :: m in g && d in TextIds(m) ==> d in Ids(g)
  {
    hide TextIds, SchemaIds, InputIds, Descends, OptionsWired, Distinct, PlainIds;
  }

  lemma PrunedDangles(h: CseOptimizer.Hashing, g: seq<Node>, rd: CseOptimizer.Redirect, v: Valuation, marked: set<Id>)
    requires Optimizable(h, g, rd, v) && OrphanRemoval.Closed(CseOptimizer.Survivors(g, rd), marked, [])
    requires Framed(Pruned(g, rd, marked), PrunedTerms(v, rd, marked))
    ensures NoDangling(Pruned(g, rd, marked)) <==>
            forall m, d :: m in Pruned(g, rd, marked) && d in TextIds(m) ==> d !in rd
  {
    hide Pruned, Optimizable, Framed, NoDangling, TextIds, Ids, OrphanRemoval.Closed, CseOptimizer.Survivors;
    var k := Pruned(g, rd, marked);
    FramedDangles(k, PrunedTerms(v, rd, marked));
    forall m, d | m in k && d in TextIds(m) ensures d in Ids(k) <==> d !in rd {
      PrunedText(h, g, rd, v, marked, m, d);
    }
  }

  lemma PrunedModel(h: CseOptimizer.Hashing, g: seq<Node>, rd: CseOptimizer.Redirect, v: Valuation, marked: set<Id>)
    requires Optimizable(h, g, rd, v) && OrphanRemoval.Closed(CseOptimizer.Survivors(g, rd), marked, [])
    requires forall m, d :: m in Pruned(g, rd, marked) && d in TextIds(m) ==> d !in rd
    ensures IsModel(Pruned(g, rd, marked), PrunedTerms(v, rd, marked))
  {
    hide Pruned, Optimizable, NodeValue, TextIds, OrphanRemoval.Closed, CseOptimizer.Survivors;
    var k, w := Pruned(g, rd, marked), PrunedTerms(v, rd, marked);
    OptimizableFacts(h, g, rd, v);
    PrunedKeys(g, rd, v, marked);
    forall m | m in k ensures m.id in w && w[m.id] == NodeValue(m, w) {
      assert m.id in Ids(k);
      PrunedValue(h, g, rd, v, marked, m);
    }
  }

  lemma PrunedKeys(g: seq<Node>, rd: CseOptimizer.Redirect, v: Valuation, marked: set<Id>)
    requires Distinct(g) && v.Keys == Ids(g)
    ensures PrunedTerms(v, rd, marked).Keys == Ids(Pruned(g, rd, marked))
  {
    CseOptimizer.SurvivorIds(g, rd);
    OrphanRemoval.KeepIds(CseOptimizer.Survivors(g, rd), marked);
  }

  /** The texts of the kept nodes are those of the nodes they were before. */
  lemma PrunedTexts(g: seq<Node>, rd: CseOptimizer.Redirect, marked: set<Id>)
    requires Distinct(g)
    ensures CseOptimizer.TextsKept(g, rd, Ids(Pruned(g, rd, marked))) <==>
            forall m, d :: m in Pruned(g, rd, marked) && d in TextIds(m) ==> d !in rd
  {
    hide TextIds;
    var k := Pruned(g, rd, marked);
    forall m | m in k ensures exists n :: n in g && n.id == m.id && TextIds(n) == TextIds(m) {
      var n := PrunedOrigin(g, rd, marked, m);
    }
    forall n | n in g && n.id in Ids(k) ensures exists m :: m in k && TextIds(m) == TextIds(n) {
      var i := NodeWithId(k, n.id);
      var o := PrunedOrigin(g, rd, marked, k[i]);
      assert o == n by {
        var a :| 0 <= a < |g| && g[a] == n;
        var b :| 0 <= b < |g| && g[b] == o;
        assert a == b;
      }
    }
  }

  /** Nothing is dropped when everything is marked. */
  lemma {:induction false} KeepAll(g: seq<Node>, marked: set<Id>)
    requires Ids(g) <= marked
    ensures OrphanRemoval.Keep(g, marked) == g
  {
    if g != [] {
      var init, last := g[..|g| - 1], g[|g| - 1];
      assert g == init + [last];
      assert Ids(init) <= Ids(g) && last.id in Ids(g);
      KeepAll(init, marked);
    }
  }

  lemma AllIsClosed(g: seq<Node>)
    requires forall n :: n in g ==> InputIds(n) <= Ids(g)
    ensures OrphanRemoval.Closed(g, Ids(g), [])
  {
    forall a, b | OrphanRemoval.Marks(g, a, b) ensures b in Ids(g) {
      assert g[OrphanRemoval.FirstWithId(g, a)] in g;
    }
  }

  // ------------------------------------------------------------------ after the sort

  ghost predicate SameMembers(a: seq<Node>, b: seq<Node>) { forall n :: n in a <==> n in b }

  lemma SameMembersReach(a: seq<Node>, b: seq<Node>)
    requires SameMembers(a, b) && OptionsWired(a)
    ensures Ids(a) == Ids(b) && OptionsWired(b)
  {
    hide InputIds, OptionIds;
    assert Ids(a) == Ids(b);
    assert forall x, y :: DependsOn(a, x, y) <==> DependsOn(b, x, y);
    forall n, d | n in b && d in OptionIds(n) && d in Ids(b) ensures Reaches(b, n.id, d) {
      assert Reaches(a, n.id, d);
      var p :| Walk(a, p) && |p| >= 2 && p[0] == n.id && p[|p| - 1] == d;
      assert Walk(b, p);
    }
  }

  lemma SameMembersFramed(a: seq<Node>, b: seq<Node>, v: Valuation)
    requires Framed(a, v) && SameMembers(a, b) && Distinct(b)
    ensures Framed(b, v) && Ids(a) == Ids(b)
    ensures Sound(a, v) <==> Sound(b, v)
    ensures NoDangling(a) <==> NoDangling(b)
  {
    hide InputIds, OptionIds, SchemaIds, OptionsWired, Distinct, NodeValue, Ids;
    SameMembersReach(a, b);
  }

  /** Along inputs one only gets further to the front. */
  lemma {:induction false} WalkGoesBack(g: seq<Node>, p: seq<Id>, i: nat, k: nat)
    requires Distinct(g) && TopologicalSort.InputsFirst(g) && Walk(g, p)
    requires k < |g| && g[k].id == p[0] && 1 <= i < |p|
    ensures p[i] in Ids(g[..k])
  {
    if i == 1 {
      assert DependsOn(g, p[0], p[1]);
      DependencyBefore(g, k, p[1]);
    } else {
      WalkGoesBack(g, p, i - 1, k);
      var j := NodeWithId(g[..k], p[i - 1]);
      assert DependsOn(g, p[i - 1], p[i]);
      DependencyBefore(g, j, p[i]);
      assert g[..k][..j] == g[..j];
      PrefixIds(g, j, k);
    }
  }

  lemma PrefixIds(g: seq<Node>, j: nat, k: nat)
    requires j <= k <= |g|
    ensures Ids(g[..j]) <= Ids(g[..k])
  {
    assert forall n :: n in g[..j] ==> n in g[..k];
  }

  lemma DependencyBefore(g: seq<Node>, k: nat, d: Id)
    requires Distinct(g) && TopologicalSort.InputsFirst(g) && k < |g| && DependsOn(g, g[k].id, d)
    ensures d in Ids(g[..k])
  {
    var n :| n in g && n.id == g[k].id && d in InputIds(n) && d in Ids(g);
    var i :| 0 <= i < |g| && g[i] == n;
    assert i == k;
  }

  /** With inputs first, and wired what options name, the list can be run front to back. */
  lemma SortedIsOrdered(g: seq<Node>)
    requires Distinct(g) && TopologicalSort.InputsFirst(g) && OptionsWired(g)
    ensures Ordered(g)
  {
    forall i, d | 0 <= i < |g| && d in InputIds(g[i]) + OptionIds(g[i]) && d in Ids(g)
      ensures d in Ids(g[..i])
    {
      if d !in InputIds(g[i]) {
        assert g[i] in g && Reaches(g, g[i].id, d);
        var p :| Walk(g, p) && |p| >= 2 && p[0] == g[i].id && p[|p| - 1] == d;
        WalkGoesBack(g, p, |p| - 1, i);
      }
    }
  }

  /** Running the sorted list computes the terms the graph already had. */
  lemma SortedRuns(g: seq<Node>, v: Valuation)
    requires Sound(g, v) && TopologicalSort.InputsFirst(g)
    ensures Ordered(g) && Run(g) == v
  {
    hide NodeValue, InputIds, OptionIds, SchemaIds, Reaches, Descends, PlainIds, Distinct, Run, Ordered,
         TopologicalSort.InputsFirst;
    SortedIsOrdered(g);
    RunIsModel(g);
    forall id | id in v ensures Run(g)[id] == v[id] { ModelIsUnique(g, Run(g), v, id); }
  }

  // ------------------------------------------------------------------ no dead nodes

  lemma MarksKept(reg: Registry, g: seq<Node>, marked: set<Id>, g': seq<Node>, a: Id, b: Id)
    requires SameMembers(OrphanRemoval.Keep(g, marked), g') && Distinct(g')
    requires a in marked && OrphanRemoval.Marks(g, a, b)
    ensures OrphanRemoval.Marks(g', a, b)
  {
    var n := g[OrphanRemoval.FirstWithId(g, a)];
    OrphanRemoval.KeepMembers(g, marked, n);
    var i :| 0 <= i < |g'| && g'[i] == n;
    assert OrphanRemoval.FirstWithId(g', a) == i;
  }

  /** Whatever survives is still needed by a surviving sink. */
  lemma NeededKept(reg: Registry, g: seq<Node>, marked: set<Id>, g': seq<Node>, id: Id)
    requires MarkedNeeded(reg, g, marked) && SameMembers(OrphanRemoval.Keep(g, marked), g') && Distinct(g')
    requires OrphanRemoval.Needed(reg, g, id)
    ensures OrphanRemoval.Needed(reg, g', id)
  {
    var p :| OrphanRemoval.Trail(reg, g, p) && p[|p| - 1] == id;
    NeededIsClosed(reg, g, marked);
    forall s | OrphanRemoval.SinkId(reg, g, s) ensures s in marked && OrphanRemoval.SinkId(reg, g', s) {
      OrphanRemoval.SinkIsNeeded(reg, g, s);
      var n :| n in g && n.id == s && IsSink(reg, n.kind);
      OrphanRemoval.KeepMembers(g, marked, n);
    }
    forall i | 0 <= i < |p| - 1 ensures OrphanRemoval.Marks(g', p[i], p[i + 1]) {
      OrphanRemoval.TrailStays(reg, g, marked, p, i);
      MarksKept(reg, g, marked, g', p[i], p[i + 1]);
    }
    assert OrphanRemoval.Trail(reg, g', p);
  }

  // ------------------------------------------------------ a slot outside the schema

  const BAR_CHART := Component({"title", "category"},
                               [Input("label", StringType, false), Input("value", NumberType, false)], [], false)

  /** Validation that passes everything through as it is written but what is of no use. */
  function PassThrough(reg: Registry, kind: string, params: map<string, OptionValue>): Option<Config>
    requires kind in reg.components
  {
    var c := reg.components[kind];
    if exists key :: key in params && Unusable(c, kind, key, Sealed(reg, kind, key, params[key])) then None
    else Some(Config(SealedAll(reg, kind, params), None, None))
  }

  /** Any table of components may pass options through: texts, numbers, flags and schemas. */
  lemma TablesArePlain(reg: Registry)
    requires forall kind :: kind in reg.components ==> PlainName(kind)
    requires forall kind :: kind in BUILT_IN_KINDS ==> !IsSink(reg, kind)
    requires "text" in reg.components ==> reg.components["text"].inputs == []
    requires forall e :: reg.literalCall(e).Some? ==> reg.literalCall(e).value.Schema?
    requires forall x :: reg.external(x) ==> !Reserved(reg, x) && !SlotText(x)
    requires forall kind, params :: kind in reg.components ==>
               reg.configure(kind, params) == PassThrough(reg, kind, params)
    ensures PlainRegistry(reg)
  {
    hide PlainName, IsSink;
    forall kind, params | kind in reg.components && reg.configure(kind, params).Some?
      ensures PlainConfig(reg, reg.components[kind], kind, params, reg.configure(kind, params).value.options)
    {
      PassedThroughIsPlain(reg, reg.components[kind], kind, params);
    }
  }

  /** The metadata of bar_chart_report: two String options, two inputs, no output. */
  predicate BarCharts(reg: Registry) {
    && "bar_chart_report" in reg.components && reg.components["bar_chart_report"] == BAR_CHART
    && reg.slotNumber("1") == Some(1)
  }

  lemma BarChartsArePlain(reg: Registry)
    requires BarCharts(reg) && reg.components.Keys == {"bar_chart_report"}
    requires forall e :: reg.literalCall(e).Some? ==> reg.literalCall(e).value.Schema?
    requires forall x :: reg.external(x) ==> !Reserved(reg, x) && !SlotText(x)
    requires forall kind, params :: kind in reg.components ==>
               reg.configure(kind, params) == PassThrough(reg, kind, params)
    ensures PlainRegistry(reg)
  {
    assert "bar_chart_report"[0] == 'b';
    TablesArePlain(reg);
  }

  function One(id: Id): Node { Node("number", id, map["value" := Number(1.0)], map[], None, None) }

  function Report(id: Id, name: string, value: string, title: string): Node {
    Node("bar_chart_report", id, map["title" := Text(title)], map["label" := [name], "value" := [value]], None, None)
  }

  /** x = "a"; y = 1; z = 1; bar_chart_report(title="SLOT1")(x, z), lowered. */
  ghost predicate ChartProgram(g: seq<Node>, text: Node, y: Id, z: Id, id: Id) {
    && g == [text, One(y), One(z), Report(id, JoinId(text.id, "result"), JoinId(z, "result"), JoinId(z, "result"))]
    && Distinct(g) && PlainIds(g) && text.kind == "text"
  }

  lemma ChartProgramExists() returns (g: seq<Node>)
    ensures ChartProgram(g, Node("text", "text_0", map["value" := Text("a")], map[], None, None), "number_0",
                         "number_1", "node_0")
  {
    assert Word("text_0") && Word("number_0") && Word("number_1") && Word("node_0");
    assert "text_0" != "number_0" && "text_0" != "number_1" && "text_0" != "node_0";
    assert "number_0"[7] != "number_1"[7] && "number_0"[1] != "node_0"[1] && "number_1"[1] != "node_0"[1];
    g := [Node("text", "text_0", map["value" := Text("a")], map[], None, None), One("number_0"), One("number_1"),
          Report("node_0", JoinId("text_0", "result"), JoinId("number_1", "result"), JoinId("number_1", "result"))];
  }

  lemma SecondIsMerged(h: CseOptimizer.Hashing, g: seq<Node>, rd: CseOptimizer.Redirect, text: Node, y: Id, z: Id,
                       id: Id)
    requires ChartProgram(g, text, y, z, id) && CseOptimizer.Redirects(h, g, rd)
    requires CseOptimizer.SemanticHash(h, text) != CseOptimizer.SemanticHash(h, One(y))
    ensures CseOptimizer.Duplicate(h, g, 2) && z in rd && rd[z] == y
  {
    hide Distinct, PlainIds;
    var a, b := g[1], g[2];
    assert a == One(y) && b == One(z);
    SameKeyAsOther(h, y, z);
    var j := CseOptimizer.FirstAlike(h, g, 2);
    assert j == 1;
  }

  lemma SameKeyAsOther(h: CseOptimizer.Hashing, y: Id, z: Id)
    ensures CseOptimizer.SemanticEquals(h, One(z), One(y))
    ensures CseOptimizer.SemanticHash(h, One(z)) == CseOptimizer.SemanticHash(h, One(y))
    ensures CseOptimizer.Eligible(One(z)) && CseOptimizer.Eligible(One(y))
  {
  }

  lemma ReportStays(h: CseOptimizer.Hashing, g: seq<Node>, rd: CseOptimizer.Redirect, text: Node, y: Id, z: Id, id: Id)
    requires ChartProgram(g, text, y, z, id) && CseOptimizer.Redirects(h, g, rd)
    ensures id !in rd
  {
    hide PlainIds;
    forall k: nat | k < 3 ensures CseOptimizer.SemanticKey(h, g[k]).kind != "bar_chart_report" { }
    CseOptimizer.RedirectedIffDuplicate(h, g, rd, 3);
  }

  lemma TitleNames(id: Id, name: string, z: Id)
    requires Word(z)
    ensures z in TextIds(Report(id, name, JoinId(z, "result"), JoinId(z, "result")))
  {
    var n := Report(id, name, JoinId(z, "result"), JoinId(z, "result"));
    WordIsPlain(z);
    SplitJoined(z, "result");
    assert Refers(JoinId(z, "result"));
    assert FieldTexts(n.options["title"])[0] == JoinId(z, "result");
    assert z in NamedIn(n.options["title"]) && "title" != "schema";
  }

  /**
   The slot of the title is resolved to the second number, which is merged away: the report's
   input follows, its title does not.
   */
  lemma TitleDangles(reg: Registry, h: CseOptimizer.Hashing, g: seq<Node>, rd: CseOptimizer.Redirect, text: Node, y: Id,
                     z: Id, id: Id)
    requires BarCharts(reg) && ChartProgram(g, text, y, z, id) && CseOptimizer.Redirects(h, g, rd)
    requires CseOptimizer.SemanticHash(h, text) != CseOptimizer.SemanticHash(h, One(y))
    ensures ResolveOption(reg, Text("SLOT1"), [JoinId(text.id, "result"), JoinId(z, "result")]) ==
              Some(g[3].options["title"])
    ensures z in rd && z in TextIds(g[3]) && !CseOptimizer.TextsKept(g, rd, {id})
    ensures CseOptimizer.RewriteNode(g[3], rd) in CseOptimizer.Survivors(g, rd)
    ensures CseOptimizer.RewriteNode(g[3], rd).options["title"] == Text(JoinId(z, "result"))
    ensures CseOptimizer.RewriteNode(g[3], rd).inputs["value"] == [JoinId(y, "result")]
  {
    hide CseOptimizer.Redirects, CseOptimizer.Survivors, CseOptimizer.SemanticHash, CseOptimizer.Duplicate, TextIds,
         Word, PlainIds, Distinct, ResolveOption, BarCharts, CseOptimizer.RewriteRefs;
    assert g[2] in g && g[3] in g;
    assert Word(z) by { ChartIds(g, text, y, z, id); }
    SecondIsMerged(h, g, rd, text, y, z, id);
    ReportStays(h, g, rd, text, y, z, id);
    TitleNames(id, JoinId(text.id, "result"), z);
    CseOptimizer.SurvivorStays(g, rd, g[3]);
    SecondSlot(reg, JoinId(text.id, "result"), JoinId(z, "result"));
    ValueFollows(rd, y, z);
  }

  lemma ChartIds(g: seq<Node>, text: Node, y: Id, z: Id, id: Id)
    requires ChartProgram(g, text, y, z, id)
    ensures Word(z)
  {
    assert g[2] in g;
  }

  lemma SecondSlot(reg: Registry, a: string, b: string)
    requires BarCharts(reg)
    ensures ResolveOption(reg, Text("SLOT1"), [a, b]) == Some(Text(b))
  {
    assert "SLOT1"[..4] == "SLOT" && "SLOT1"[4..] == "1";
  }

  lemma ValueFollows(rd: CseOptimizer.Redirect, y: Id, z: Id)
    requires z in rd && rd[z] == y && Word(z)
    ensures CseOptimizer.RewriteRefs([JoinId(z, "result")], rd) == [JoinId(y, "result")]
  {
    WordIsPlain(z);
    SplitJoined(z, "result");
    assert y + ("#" + "result") == JoinId(y, "result");
    assert CseOptimizer.RewriteRef(JoinId(z, "result"), rd) == JoinId(y, "result");
  }
}
