/** From the lowered context, through elimination and orphan removal, to the sorted and timed list. */
module PassChain {
  import opened Wrappers
  import opened Graph
  import opened Registry
  import opened CompilationContext
  import opened Denotation
  import opened ProgramMeaning
  import opened Lowering
  import opened SlotTexts
  import opened Statements
  import opened PassPipeline
  import opened CompiledLists
  import opened MergedConstants
  import CseOptimizer
  import MergedTimes
  import OrphanRemoval
  import TimeframeResolver
  import TopologicalSort

  ghost predicate HasSink(reg: Registry, g: seq<Node>) { exists n :: n in g && IsSink(reg, n.kind) }

  /** Different sessions hash differently. */
  ghost predicate SessionsDistinct(h: CseOptimizer.Hashing) {
    forall a, b :: h.session(a) == h.session(b) ==> a == b
  }

  // ------------------------------------------------------------------ between passes

  lemma LoweredFeeds(reg: Registry, s: State, w: World)
    requires Represented(reg, s, w)
    ensures Sound(s.nodes, s.val) && Feeds(reg, w, s.nodes, s.val)
    ensures forall n, r :: n in s.nodes && r in InputRefs(n) ==> HasHash(r)
  {
    hide Represented, Sound, IsSink, Executors, SinkTerms, Occurrences;
    RepresentedIsSound(reg, s, w);
    RepresentedTerms(reg, s, w);
    forall x ensures IsSinkTerm(reg, s.nodes, s.val, x) <==> x in w.sinks {
      SinkTermsAreTerms(reg, s.nodes, s.val, x);
    }
    if ExecutorsAreSinks(reg) { LoweredExecutors(reg, s, w); }
  }

  lemma LoweredExecutors(reg: Registry, s: State, w: World)
    requires Represented(reg, s, w) && ExecutorsAreSinks(reg)
    ensures forall x :: KindOf(x) in CseOptimizer.EXECUTOR_KINDS ==>
              |Executors(s.nodes, s.val, x)| == Occurrences(w.sinks, x)
  {
    hide Represented, IsSink, Executors, SinkTerms, Occurrences;
    RepresentedTerms(reg, s, w);
    forall x | KindOf(x) in CseOptimizer.EXECUTOR_KINDS
      ensures |Executors(s.nodes, s.val, x)| == Occurrences(w.sinks, x)
    {
      ExecutorsCounted(reg, s.nodes, s.val, x);
    }
  }

  lemma RepresentedTerms(reg: Registry, s: State, w: World)
    requires Represented(reg, s, w)
    ensures Distinct(s.nodes) && SinkTerms(reg, s.nodes, s.val) == w.sinks
    ensures forall n :: n in s.nodes ==> n.id in s.val && KindOf(s.val[n.id]) == n.kind
  {
    forall n | n in s.nodes ensures n.id in s.val && KindOf(s.val[n.id]) == n.kind {
      assert n.id in Ids(s.nodes) && Finished(s, n);
    }
  }

  /** Everything a sink needs is live; without a sink, everything is. */
  ghost predicate IsLive(reg: Registry, w: World, g: seq<Node>, live: set<Id>) {
    if w.sinks == [] then live == Ids(g) else MarkedNeeded(reg, g, live)
  }

  /** k is the lowered graph g with duplicates merged and everything dead removed. */
  ghost predicate Reduced(reg: Registry, w: World, h: CseOptimizer.Hashing, g: seq<Node>, rd: CseOptimizer.Redirect,
                          live: set<Id>, k: seq<Node>)
  {
    CseOptimizer.Redirects(h, g, rd) && k == Pruned(g, rd, live) && IsLive(reg, w, CseOptimizer.Survivors(g, rd), live)
  }

  lemma LiveIsClosed(reg: Registry, w: World, g: seq<Node>, v: Valuation, live: set<Id>)
    requires Framed(g, v) && IsLive(reg, w, g, live) && Feeds(reg, w, g, v)
    ensures OrphanRemoval.Closed(g, live, [])
    ensures forall n :: n in g && IsSink(reg, n.kind) ==> n.id in live
  {
    hide SchemaIds, InputIds, OptionsWired, Executors, IsSink, Descends;
    if w.sinks == [] { AllIsClosed(g); } else { NeededIsClosed(reg, g, live); }
    forall n | n in g && IsSink(reg, n.kind) ensures n.id in live {
      assert n.id in Ids(g);
      if w.sinks != [] { OrphanRemoval.SinkIsNeeded(reg, g, n.id); }
    }
  }

  /** What elimination and orphan removal leave of a lowered program. */
  ghost predicate Delivers(reg: Registry, w: World, g: seq<Node>, rd: CseOptimizer.Redirect, k: seq<Node>, v: Valuation)
  {
    && Framed(k, v) && Feeds(reg, w, k, v)
    && (NoDangling(k) <==> CseOptimizer.TextsKept(g, rd, Ids(k)))
    && (NoDangling(k) ==> Sound(k, v))
  }

  lemma OptimizedFeeds(reg: Registry, w: World, h: CseOptimizer.Hashing, g: seq<Node>, rd: CseOptimizer.Redirect,
                       v: Valuation)
    requires Optimizable(h, g, rd, v) && Feeds(reg, w, g, v)
    ensures Feeds(reg, w, CseOptimizer.Survivors(g, rd), v - rd.Keys)
  {
    hide Sound, IsSinkTerm, Executors, CseOptimizer.Survivors, CseOptimizer.Redirects, CseOptimizer.SessionsTold;
    forall x
      ensures IsSinkTerm(reg, CseOptimizer.Survivors(g, rd), v - rd.Keys, x) <==> IsSinkTerm(reg, g, v, x)
      ensures Executors(CseOptimizer.Survivors(g, rd), v - rd.Keys, x) == Executors(g, v, x)
    {
      OptimizedDelivers(reg, h, g, rd, v, x);
    }
  }

  lemma KeptFeeds(reg: Registry, w: World, g: seq<Node>, live: set<Id>, v: Valuation)
    requires Feeds(reg, w, g, v) && forall n :: n in g && IsSink(reg, n.kind) ==> n.id in live
    ensures Feeds(reg, w, OrphanRemoval.Keep(g, live), v - (v.Keys - live))
  {
    hide IsSinkTerm, Executors, OrphanRemoval.Keep, IsSink;
    forall x
      ensures IsSinkTerm(reg, OrphanRemoval.Keep(g, live), v - (v.Keys - live), x) <==> IsSinkTerm(reg, g, v, x)
      ensures ExecutorsAreSinks(reg) ==>
                Executors(OrphanRemoval.Keep(g, live), v - (v.Keys - live), x) == Executors(g, v, x)
    {
      KeptDelivers(reg, g, live, v, x);
    }
  }

  lemma ReducedDelivers(reg: Registry, w: World, h: CseOptimizer.Hashing, s: State, rd: CseOptimizer.Redirect,
                        live: set<Id>, k: seq<Node>)
    requires Represented(reg, s, w) && SessionsDistinct(h) && Reduced(reg, w, h, s.nodes, rd, live, k)
    ensures Delivers(reg, w, s.nodes, rd, k, PrunedTerms(s.val, rd, live))
  {
    hide Represented, Sound, Framed, Feeds, NoDangling, CseOptimizer.Redirects, CseOptimizer.Survivors,
         OrphanRemoval.Keep, OrphanRemoval.Closed, IsLive, IsSink, CseOptimizer.TextsKept;
    var g, v := s.nodes, s.val;
    LoweredFeeds(reg, s, w);
    SessionsAreTold(h, g);
    assert Optimizable(h, g, rd, v);
    hide Optimizable;
    OptimizedIsFramed(h, g, rd, v);
    OptimizedFeeds(reg, w, h, g, rd, v);
    LiveIsClosed(reg, w, CseOptimizer.Survivors(g, rd), v - rd.Keys, live);
    KeptFeeds(reg, w, CseOptimizer.Survivors(g, rd), live, v - rd.Keys);
    PrunedIsFramed(h, g, rd, v, live);
    PrunedDecides(h, g, rd, v, live);
  }

  /** The terms the program gave to the nodes that are left. */
  function TermsLeft(v: Valuation, g: seq<Node>): Valuation { map id | id in Ids(g) && id in v :: v[id] }

  /**
   What holds whatever the options name: the nodes that are left are wired to compute the terms they
   were lowered for, the sinks' among them; only a text that names a duplicate puts its own node off.
   */
  ghost predicate Meant(reg: Registry, w: World, lowered: State, rd: CseOptimizer.Redirect, g: seq<Node>) {
    var v := TermsLeft(lowered.val, g);
    && Framed(g, v) && Feeds(reg, w, g, v)
    && forall n :: n in g && (forall d :: d in TextIds(n) ==> d !in rd) ==> n.id in v && NodeValue(n, v) == v[n.id]
  }

  lemma ReducedMeans(reg: Registry, w: World, h: CseOptimizer.Hashing, s: State, rd: CseOptimizer.Redirect,
                     live: set<Id>, k: seq<Node>)
    requires Represented(reg, s, w) && SessionsDistinct(h) && Reduced(reg, w, h, s.nodes, rd, live, k)
    ensures Meant(reg, w, s, rd, k)
    ensures TermsLeft(s.val, k) == PrunedTerms(s.val, rd, live)
  {
    hide Represented, Sound, Framed, Feeds, NoDangling, CseOptimizer.Redirects, CseOptimizer.Survivors,
         OrphanRemoval.Keep, OrphanRemoval.Closed, IsLive, IsSink, CseOptimizer.TextsKept, TextIds, NodeValue;
    var g, v := s.nodes, s.val;
    ReducedDelivers(reg, w, h, s, rd, live, k);
    LoweredFeeds(reg, s, w);
    SessionsAreTold(h, g);
    assert Optimizable(h, g, rd, v);
    hide Optimizable;
    OptimizedIsFramed(h, g, rd, v);
    OptimizedFeeds(reg, w, h, g, rd, v);
    LiveIsClosed(reg, w, CseOptimizer.Survivors(g, rd), v - rd.Keys, live);
    FramedKeys(k, PrunedTerms(v, rd, live));
    assert TermsLeft(v, k) == PrunedTerms(v, rd, live);
    forall m | m in k && forall d :: d in TextIds(m) ==> d !in rd
      ensures m.id in v && NodeValue(m, TermsLeft(v, k)) == v[m.id]
    {
      PrunedValue(h, g, rd, v, live, m);
    }
  }

  lemma FramedKeys(g: seq<Node>, v: Valuation)
    requires Framed(g, v)
    ensures v.Keys == Ids(g)
  {
  }

  lemma SortedStillMeant(reg: Registry, w: World, lowered: State, rd: CseOptimizer.Redirect, a: seq<Node>, b: seq<Node>)
    requires Meant(reg, w, lowered, rd, a) && SameMembers(a, b) && Distinct(b)
    ensures Meant(reg, w, lowered, rd, b)
  {
    hide Framed, Feeds, TextIds, NodeValue;
    var v := TermsLeft(lowered.val, a);
    SameMembersFramed(a, b, v);
    SameMembersFeed(reg, w, a, b, v);
    assert TermsLeft(lowered.val, b) == v;
  }

  /** What would be left of the lowered graph without elimination. */
  ghost function Unmerged(reg: Registry, w: World, g: seq<Node>): seq<Node> {
    if w.sinks == [] then g else OrphanRemoval.Keep(g, set id | id in Ids(g) && OrphanRemoval.Needed(reg, g, id))
  }

  /** The same, with each merged constant dated as the node it is merged into. */
  ghost function AsMerged(reg: Registry, w: World, g: seq<Node>, rd: CseOptimizer.Redirect): seq<Node> {
    MergedTimes.Redated(g, rd, Unmerged(reg, w, g))
  }

  /** The node of the final list that stands for each of them. */
  ghost function Kept(reg: Registry, w: World, g: seq<Node>, rd: CseOptimizer.Redirect): MergedTimes.Standing {
    MergedTimes.Narrowed(MergedTimes.Stands(rd, g), Unmerged(reg, w, g))
  }

  /** The final list is that with nodes merged. */
  ghost predicate Merges(reg: Registry, w: World, lowered: State, rd: CseOptimizer.Redirect, g: seq<Node>) {
    var r := AsMerged(reg, w, lowered.nodes, rd);
    && MergedTimes.Quotient(r, g, Kept(reg, w, lowered.nodes, rd)) && Descends(r, TermsLeft(lowered.val, r))
    && Distinct(Unmerged(reg, w, lowered.nodes)) && Retimed(Unmerged(reg, w, lowered.nodes), r)
  }

  lemma ReducedMerges(reg: Registry, w: World, h: CseOptimizer.Hashing, s: State, rd: CseOptimizer.Redirect,
                      live: set<Id>, k: seq<Node>, g: seq<Node>)
    requires Represented(reg, s, w) && SessionsDistinct(h) && Reduced(reg, w, h, s.nodes, rd, live, k)
    requires SameMembers(k, g) && Distinct(g)
    ensures Merges(reg, w, s, rd, g)
  {
    hide Represented, Sound, Feeds, CseOptimizer.Redirects, CseOptimizer.Survivors, OrphanRemoval.Keep,
         MergedTimes.Redated, MergedTimes.Quotient, MergedTimes.Narrowed, MergedTimes.Stands, InputIds, Descends,
         Distinct, OrphanRemoval.Needed, CseOptimizer.Assumptions, CseOptimizer.BareRefsKept, Retimed;
    var n, a, b := s.nodes, MergedTimes.Redated(s.nodes, rd, s.nodes), CseOptimizer.Survivors(s.nodes, rd);
    var to, u := MergedTimes.Stands(rd, n), Unmerged(reg, w, n);
    LoweredMerges(reg, s, w, h, rd);
    if w.sinks == [] {
      KeepAll(b, live);
      StandsNarrowed(n, rd);
    } else {
      var needed := set id | id in Ids(n) && OrphanRemoval.Needed(reg, n, id);
      NeededAreThere(reg, a, b, to);
      SameNeeded(reg, n, rd);
      MergedTimes.RedatedIds(n, rd, n);
      MergedTimes.KeptMerges(reg, a, b, to, needed, live);
      KeptStillDescends(a, needed, s.val);
      MergedTimes.KeptRedated(n, rd, n, needed);
      MergedTimes.RedatedIds(n, rd, u);
      SameNarrowed(to, u, MergedTimes.Redated(n, rd, u));
    }
    QuotientDistinct(MergedTimes.Redated(n, rd, u), k, Kept(reg, w, n, rd));
    MergedTimes.RedatedIds(n, rd, u);
    RedatedIsRetimed(n, rd, u);
    MergedTimes.PermutedMerges(MergedTimes.Redated(n, rd, u), k, g, Kept(reg, w, n, rd));
  }

  lemma QuotientDistinct(a: seq<Node>, b: seq<Node>, to: MergedTimes.Standing)
    requires MergedTimes.Quotient(a, b, to)
    ensures Distinct(a)
  {
  }

  lemma SameNarrowed(to: MergedTimes.Standing, a: seq<Node>, b: seq<Node>)
    requires Ids(a) == Ids(b)
    ensures MergedTimes.Narrowed(to, a) == MergedTimes.Narrowed(to, b)
  {
  }

  lemma RedatedIsRetimed(g: seq<Node>, rd: CseOptimizer.Redirect, k: seq<Node>)
    ensures Retimed(k, MergedTimes.Redated(g, rd, k)) && Retimed(MergedTimes.Redated(g, rd, k), k)
  {
    hide MergedTimes.Redate;
    forall i | 0 <= i < |k|
      ensures MergedTimes.Redate(g, rd, k[i]) == k[i].(timeframe := MergedTimes.Redate(g, rd, k[i]).timeframe)
    {
      MergedTimes.SameIdRedated(g, rd, k[i]);
    }
  }

  lemma SameNeeded(reg: Registry, g: seq<Node>, rd: CseOptimizer.Redirect)
    ensures forall id :: OrphanRemoval.Needed(reg, MergedTimes.Redated(g, rd, g), id) <==>
              OrphanRemoval.Needed(reg, g, id)
  {
    hide OrphanRemoval.Needed, MergedTimes.Redated, SameLinks, Retimed;
    var r := MergedTimes.Redated(g, rd, g);
    RedatedIsRetimed(g, rd, g);
    RetimedSize(g, r);
    RetimedIds(g, r);
    RetimedIds(r, g);
    forall id ensures OrphanRemoval.Needed(reg, r, id) <==> OrphanRemoval.Needed(reg, g, id) {
      if OrphanRemoval.Needed(reg, g, id) { RetimedNeeded(reg, g, r, id); }
      if OrphanRemoval.Needed(reg, r, id) { RetimedNeeded(reg, r, g, id); }
    }
  }

  lemma RetimedSize(g: seq<Node>, out: seq<Node>)
    requires Retimed(g, out)
    ensures |out| == |g|
  {
  }

  lemma LoweredMerges(reg: Registry, s: State, w: World, h: CseOptimizer.Hashing, rd: CseOptimizer.Redirect)
    requires Represented(reg, s, w) && SessionsDistinct(h) && CseOptimizer.Redirects(h, s.nodes, rd)
    ensures var a := MergedTimes.Redated(s.nodes, rd, s.nodes);
            && MergedTimes.Quotient(a, CseOptimizer.Survivors(s.nodes, rd), MergedTimes.Stands(rd, s.nodes))
            && Descends(a, s.val) && TermsLeft(s.val, a) == s.val
  {
    hide Represented, CseOptimizer.Redirects, CseOptimizer.Survivors, MergedTimes.Quotient, Feeds,
         CseOptimizer.SessionsTold, IsModel;
    LoweredFeeds(reg, s, w);
    SessionsAreTold(h, s.nodes);
    hide InputIds, Descends, MergedTimes.Redated, CseOptimizer.Assumptions, CseOptimizer.BareRefsKept;
    SoundCanMerge(h, s.nodes, rd, s.val);
    MergedTimes.EliminationMerges(h, s.nodes, rd);
    MergedTimes.RedatedIds(s.nodes, rd, s.nodes);
    RedatedDescends(s.nodes, rd, s.val);
  }

  lemma SoundCanMerge(h: CseOptimizer.Hashing, g: seq<Node>, rd: CseOptimizer.Redirect, v: Valuation)
    requires Sound(g, v) && CseOptimizer.SessionsTold(h, g) && CseOptimizer.Redirects(h, g, rd)
    requires forall n, r :: n in g && r in InputRefs(n) ==> HasHash(r)
    ensures CseOptimizer.Assumptions(h, g, rd) && CseOptimizer.BareRefsKept(g, rd) && Descends(g, v)
    ensures forall n :: n in g ==> InputIds(n) <= Ids(g)
    ensures v.Keys == Ids(g)
  {
  }

  lemma RedatedDescends(g: seq<Node>, rd: CseOptimizer.Redirect, v: Valuation)
    requires Descends(g, v)
    ensures Descends(MergedTimes.Redated(g, rd, g), v) && TermsLeft(v, MergedTimes.Redated(g, rd, g)) == v
  {
    hide InputIds, MergedTimes.Redated;
    MergedTimes.RedatedIds(g, rd, g);
    forall n, d | n in MergedTimes.Redated(g, rd, g) && d in InputIds(n) && d in v
      ensures n.id in v && (v[n.id] decreases to v[d])
    {
      var m := MergedTimes.RedatedFrom(g, rd, g, n);
    }
  }

  lemma StandsNarrowed(g: seq<Node>, rd: CseOptimizer.Redirect)
    ensures MergedTimes.Narrowed(MergedTimes.Stands(rd, g), g) == MergedTimes.Stands(rd, g)
  {
  }

  lemma NeededAreThere(reg: Registry, a: seq<Node>, b: seq<Node>, to: MergedTimes.Standing)
    requires MergedTimes.Quotient(a, b, to)
    ensures forall id :: OrphanRemoval.Needed(reg, a, id) ==> id in Ids(a)
  {
    hide MergedTimes.StandsFor, Distinct;
    forall id | OrphanRemoval.Needed(reg, a, id) ensures id in Ids(a) {
      var p :| OrphanRemoval.Trail(reg, a, p) && p[|p| - 1] == id;
      MergedTimes.NeededAfter(reg, a, b, to, p, |p| - 1);
    }
  }

  lemma KeptStillDescends(g: seq<Node>, live: set<Id>, v: Valuation)
    requires Descends(g, v)
    ensures Descends(OrphanRemoval.Keep(g, live), TermsLeft(v, OrphanRemoval.Keep(g, live)))
  {
    hide InputIds, OrphanRemoval.Keep;
    OrphanRemoval.KeepIds(g, live);
    forall n ensures n in OrphanRemoval.Keep(g, live) <==> n in g && n.id in live {
      OrphanRemoval.KeepMembers(g, live, n);
    }
  }

  lemma SessionsAreTold(h: CseOptimizer.Hashing, g: seq<Node>)
    requires SessionsDistinct(h)
    ensures CseOptimizer.SessionsTold(h, g)
  {
  }

  lemma SinkMeansTerm(reg: Registry, w: World, g: seq<Node>, v: Valuation)
    requires Framed(g, v) && Feeds(reg, w, g, v)
    ensures HasSink(reg, g) <==> w.sinks != []
  {
    if HasSink(reg, g) {
      var n :| n in g && IsSink(reg, n.kind);
      assert n.id in Ids(g) && IsSinkTerm(reg, g, v, v[n.id]);
    }
    if w.sinks != [] { assert IsSinkTerm(reg, g, v, w.sinks[0]); }
  }

  lemma PermutedMembers(a: seq<Node>, b: seq<Node>)
    requires multiset(a) == multiset(b)
    ensures SameMembers(a, b)
  {
    forall n ensures n in a <==> n in b {
      assert n in a <==> multiset(a)[n] > 0;
      assert n in b <==> multiset(b)[n] > 0;
    }
  }

  lemma SameMembersFeed(reg: Registry, w: World, a: seq<Node>, b: seq<Node>, v: Valuation)
    requires Feeds(reg, w, a, v) && SameMembers(a, b)
    ensures Feeds(reg, w, b, v)
  {
    forall x
      ensures IsSinkTerm(reg, b, v, x) <==> IsSinkTerm(reg, a, v, x)
      ensures Executors(b, v, x) == Executors(a, v, x)
    {
    }
  }

  lemma SortedStillDelivers(reg: Registry, w: World, g: seq<Node>, rd: CseOptimizer.Redirect, a: seq<Node>,
                            b: seq<Node>, v: Valuation)
    requires Delivers(reg, w, g, rd, a, v) && SameMembers(a, b) && Distinct(b)
    ensures Delivers(reg, w, g, rd, b, v)
  {
    hide Framed, Sound, Feeds, NoDangling, CseOptimizer.TextsKept, SameMembers;
    SameMembersFramed(a, b, v);
    SameMembersFeed(reg, w, a, b, v);
  }

  lemma LiveAreNeeded(reg: Registry, w: World, g1: seq<Node>, live: set<Id>, g3: seq<Node>)
    requires IsLive(reg, w, g1, live) && w.sinks != [] && SameMembers(OrphanRemoval.Keep(g1, live), g3) && Distinct(g3)
    ensures forall n :: n in g3 ==> OrphanRemoval.Needed(reg, g3, n.id)
  {
    forall n | n in g3 ensures OrphanRemoval.Needed(reg, g3, n.id) {
      OrphanRemoval.KeepMembers(g1, live, n);
      NeededKept(reg, g1, live, g3, n.id);
    }
  }

  /** Without dangling options the sorted list is a compiled list. */
  lemma SoundIsCompiled(reg: Registry, w: World, g: seq<Node>, v: Valuation)
    requires Assembled(reg, w, g) && Sound(g, v) && Feeds(reg, w, g, v)
    ensures Compiled(reg, w, g)
  {
    hide IsSinkTerm, Executors, Ordered, OptionsWired, OrphanRemoval.Needed, TopologicalSort.InputsFirst, InputIds,
         SchemaIds, TextIds, Run, Distinct, NodeValue, Descends;
    SortedRuns(g, v);
  }

  /** Whatever order the sort picks: the list is assembled, and compiled exactly when no kept text names a duplicate. */
  lemma SortedIsCompiled(reg: Registry, w: World, h: CseOptimizer.Hashing, g: seq<Node>, rd: CseOptimizer.Redirect,
                         live: set<Id>, k: seq<Node>, v: Valuation, sorted: seq<Node>)
    requires Reduced(reg, w, h, g, rd, live, k) && Delivers(reg, w, g, rd, k, v)
    requires multiset(sorted) == multiset(k) && Distinct(sorted) && TopologicalSort.InputsFirst(sorted)
    ensures Assembled(reg, w, sorted)
    ensures Compiled(reg, w, sorted) <==> CseOptimizer.TextsKept(g, rd, Ids(sorted))
    ensures NoDangling(sorted) <==> CseOptimizer.TextsKept(g, rd, Ids(sorted))
  {
    hide Feeds, Ordered, OptionsWired, OrphanRemoval.Keep, OrphanRemoval.Needed, IsLive, TopologicalSort.InputsFirst,
         InputIds, SchemaIds, TextIds, Sound, NoDangling, IsModel, SameMembers, Run, Distinct, Descends, PlainIds,
         CseOptimizer.Survivors, CseOptimizer.Redirects, CseOptimizer.TextsKept;
    PermutedMembers(k, sorted);
    SortedStillDelivers(reg, w, g, rd, k, sorted, v);
    if w.sinks != [] { LiveAreNeeded(reg, w, CseOptimizer.Survivors(g, rd), live, sorted); }
    assert Assembled(reg, w, sorted);
    if NoDangling(sorted) { SoundIsCompiled(reg, w, sorted, v); }
  }

  lemma FramedIsAcyclic(g: seq<Node>, v: Valuation)
    requires Framed(g, v)
    ensures Distinct(g) && Acyclic(g)
  {
    DescendsMeansAcyclic(g, v);
  }

  lemma LoweredIsPlain(reg: Registry, s: State, w: World)
    requires Represented(reg, s, w)
    ensures Distinct(s.nodes) && PlainIds(s.nodes)
  {
    hide Feeds;
    LoweredFeeds(reg, s, w);
  }

  lemma OptimizedHasSink(reg: Registry, w: World, h: CseOptimizer.Hashing, s: State, rd: CseOptimizer.Redirect)
    requires Represented(reg, s, w) && SessionsDistinct(h) && CseOptimizer.Redirects(h, s.nodes, rd)
    ensures HasSink(reg, CseOptimizer.Survivors(s.nodes, rd)) <==> w.sinks != []
  {
    hide Represented, Sound, Framed, Feeds, CseOptimizer.Redirects, CseOptimizer.Survivors;
    LoweredFeeds(reg, s, w);
    SessionsAreTold(h, s.nodes);
    assert Optimizable(h, s.nodes, rd, s.val);
    OptimizedIsFramed(h, s.nodes, rd, s.val);
    OptimizedFeeds(reg, w, h, s.nodes, rd, s.val);
    SinkMeansTerm(reg, w, CseOptimizer.Survivors(s.nodes, rd), s.val - rd.Keys);
  }

  lemma LiveOrAll(reg: Registry, w: World, g: seq<Node>, live: set<Id>)
    requires if w.sinks == [] then live == Ids(g) else forall id :: id in live <==> OrphanRemoval.Needed(reg, g, id)
    ensures IsLive(reg, w, g, live)
  {
  }

  lemma DeliversFramed(reg: Registry, w: World, g: seq<Node>, rd: CseOptimizer.Redirect, k: seq<Node>, v: Valuation)
    requires Delivers(reg, w, g, rd, k, v)
    ensures Framed(k, v)
  {
  }

  /** The sorted list of an accepted program, and when it means what the program means. */
  ghost predicate Sorted(reg: Registry, w: World, h: CseOptimizer.Hashing, lowered: State, rd: CseOptimizer.Redirect,
                         g: seq<Node>)
  {
    && Represented(reg, lowered, w) && CseOptimizer.Redirects(h, lowered.nodes, rd)
    && Assembled(reg, w, g) && Meant(reg, w, lowered, rd, g) && Merges(reg, w, lowered, rd, g)
    && (NoDangling(g) <==> CseOptimizer.TextsKept(lowered.nodes, rd, Ids(g)))
    && (Compiled(reg, w, g) <==> CseOptimizer.TextsKept(lowered.nodes, rd, Ids(g)))
  }

  lemma SortedIs(reg: Registry, w: World, h: CseOptimizer.Hashing, lowered: State, rd: CseOptimizer.Redirect,
                 live: set<Id>, k: seq<Node>, g: seq<Node>)
    requires Represented(reg, lowered, w) && Reduced(reg, w, h, lowered.nodes, rd, live, k) && Assembled(reg, w, g)
    requires Compiled(reg, w, g) <==> CseOptimizer.TextsKept(lowered.nodes, rd, Ids(g))
    requires NoDangling(g) <==> CseOptimizer.TextsKept(lowered.nodes, rd, Ids(g))
    requires Meant(reg, w, lowered, rd, k) && multiset(g) == multiset(k) && SessionsDistinct(h)
    ensures Sorted(reg, w, h, lowered, rd, g) && Distinct(g) && TopologicalSort.InputsFirst(g)
  {
    hide Represented, Compiled, Meant, NoDangling, Merges, SessionsDistinct, SameMembers;
    PermutedMembers(k, g);
    ReducedMerges(reg, w, h, lowered, rd, live, k, g);
    SortedStillMeant(reg, w, lowered, rd, k, g);
  }

  /** The returned list is the sorted one with timeframes filled in. */
  ghost predicate Timetabled(reg: Registry, rank: TimeframeResolver.Rank, g: seq<Node>, out: seq<Node>) {
    exists own :: TimetabledBy(reg, rank, g, own, out)
  }

  ghost predicate TimetabledBy(reg: Registry, rank: TimeframeResolver.Rank, g: seq<Node>, own: TimeframeResolver.Times,
                               out: seq<Node>)
  {
    && |out| == |g| && TimeframeResolver.Owned(g, rank, own)
    && forall i :: 0 <= i < |g| ==>
         && g[i] in g && out[i] == g[i].(timeframe := out[i].timeframe)
         && TimeframeResolver.Settled(reg, g, rank, own, g[i], out[i].timeframe)
  }

  lemma TimetabledIs(reg: Registry, rank: TimeframeResolver.Rank, g: seq<Node>, own: TimeframeResolver.Times,
                     out: seq<Node>)
    requires TimetabledBy(reg, rank, g, own, out) && Distinct(g)
    ensures Timetabled(reg, rank, g, out) && Distinct(out)
  {
    forall i, j | 0 <= i < j < |out| ensures out[i].id != out[j].id {
      assert out[i].id == g[i].id && out[j].id == g[j].id;
    }
  }

  /** Where no text names a node, none names a duplicate. */
  lemma TextlessIsKept(g: seq<Node>, rd: CseOptimizer.Redirect, ids: set<Id>)
    ensures Textless(g) ==> CseOptimizer.TextsKept(g, rd, ids)
  {
    hide TextIds;
  }

  /** What a text names is written like an earlier node and has its term. */
  ghost predicate SelectsDuplicate(g: seq<Node>, v: Valuation, n: Node) {
    exists i, j :: 0 <= j < i < |g| && g[i].id in TextIds(n)
                   && CseOptimizer.Eligible(g[i]) && CseOptimizer.Eligible(g[j])
                   && CseOptimizer.WrittenAlike(g[i], g[j])
                   && g[j].id in v && g[i].id in v && v[g[j].id] == v[g[i].id]
  }

  /** Whatever slots outside schemas select, the list is right exactly when none selects such a node. */
  lemma TextsDecide(reg: Registry, w: World, h: CseOptimizer.Hashing, s: State, rd: CseOptimizer.Redirect,
                    ids: set<Id>)
    requires Represented(reg, s, w) && SessionsDistinct(h) && CseOptimizer.Redirects(h, s.nodes, rd)
    requires CseOptimizer.CollisionFree(h, s.nodes)
    ensures CseOptimizer.TextsKept(s.nodes, rd, ids) <==>
            forall n :: n in s.nodes && n.id in ids ==> !SelectsDuplicate(s.nodes, s.val, n)
  {
    hide Represented, CseOptimizer.Redirects, CseOptimizer.CollisionFree, TextIds, IsModel, Feeds, Sound,
         CseOptimizer.Assumptions, SelectsDuplicate;
    LoweredFeeds(reg, s, w);
    SessionsAreTold(h, s.nodes);
    SoundCanMerge(h, s.nodes, rd, s.val);
    SoundHasModel(s.nodes, s.val);
    forall n | n in s.nodes && n.id in ids
      ensures SelectsDuplicate(s.nodes, s.val, n) <==> exists d :: d in TextIds(n) && d in rd
    {
      DuplicateDecides(h, s.nodes, rd, s.val, n);
    }
  }

  lemma DuplicateDecides(h: CseOptimizer.Hashing, g: seq<Node>, rd: CseOptimizer.Redirect, v: Valuation, n: Node)
    requires CseOptimizer.Assumptions(h, g, rd) && CseOptimizer.CollisionFree(h, g) && IsModel(g, v) && NoDangling(g)
    requires n in g
    ensures SelectsDuplicate(g, v, n) <==> exists d :: d in TextIds(n) && d in rd
  {
    hide CseOptimizer.Assumptions, CseOptimizer.CollisionFree, TextIds, NodeValue, CseOptimizer.WrittenAlike,
         CseOptimizer.Eligible;
    assert forall i :: 0 <= i < |g| ==> g[i] in g && g[i].id in v;
    forall i | 0 <= i < |g| && CseOptimizer.Eligible(g[i])
      ensures g[i].id in rd <==> exists j :: 0 <= j < i && CseOptimizer.Eligible(g[j])
                                             && CseOptimizer.WrittenAlike(g[i], g[j]) && v[g[j].id] == v[g[i].id]
    {
      CseOptimizer.RepeatedNodeIsMerged(h, g, rd, v, i);
    }
    forall d | d in TextIds(n) && d in rd
      ensures exists i :: 0 <= i < |g| && g[i].id == d && CseOptimizer.Eligible(g[i])
    {
      NoneDangles(g, n, d);
      var k := NodeWithId(g, d);
      DuplicateIsEligible(h, g, rd, k);
    }
  }

  lemma DuplicateIsEligible(h: CseOptimizer.Hashing, g: seq<Node>, rd: CseOptimizer.Redirect, i: nat)
    requires CseOptimizer.Assumptions(h, g, rd) && i < |g| && g[i].id in rd
    ensures CseOptimizer.Eligible(g[i])
  {
    hide CseOptimizer.Redirects;
    CseOptimizer.RedirectedIffDuplicate(h, g, rd, i);
  }

  /** Every text of these nodes that names a node names a literal. */
  ghost predicate TextsSelectLiterals(g: seq<Node>, ids: set<Id>) {
    forall n, d, m :: n in g && n.id in ids && d in TextIds(n) && m in g && m.id == d ==>
      CseOptimizer.Bare(m) && CseOptimizer.Eligible(m)
  }

  /** The literal a text names has the term of an earlier node. */
  ghost predicate SelectsRepetition(g: seq<Node>, v: Valuation, n: Node) {
    exists i, j :: 0 <= j < i < |g| && g[i].id in TextIds(n) && CseOptimizer.Eligible(g[j])
                   && g[j].id in v && g[i].id in v && v[g[j].id] == v[g[i].id]
  }

  /** When slots outside schemas select literals, the list is right exactly when none selects a repeated one. */
  lemma LiteralTextsDecide(reg: Registry, w: World, h: CseOptimizer.Hashing, s: State, rd: CseOptimizer.Redirect,
                           ids: set<Id>)
    requires Represented(reg, s, w) && SessionsDistinct(h) && CseOptimizer.Redirects(h, s.nodes, rd)
    requires CseOptimizer.CollisionFree(h, s.nodes) && TextsSelectLiterals(s.nodes, ids)
    ensures CseOptimizer.TextsKept(s.nodes, rd, ids) <==>
            forall n :: n in s.nodes && n.id in ids ==> !SelectsRepetition(s.nodes, s.val, n)
  {
    hide Represented, CseOptimizer.Redirects, CseOptimizer.CollisionFree, TextsSelectLiterals, TextIds, IsModel, Feeds,
         Sound, CseOptimizer.Assumptions, SelectsRepetition;
    LoweredFeeds(reg, s, w);
    SessionsAreTold(h, s.nodes);
    SoundCanMerge(h, s.nodes, rd, s.val);
    SoundHasModel(s.nodes, s.val);
    forall n | n in s.nodes && n.id in ids
      ensures SelectsRepetition(s.nodes, s.val, n) <==> exists d :: d in TextIds(n) && d in rd
    {
      SelectionDecides(h, s.nodes, rd, s.val, ids, n);
    }
  }

  lemma SoundHasModel(g: seq<Node>, v: Valuation)
    requires Sound(g, v)
    ensures IsModel(g, v) && NoDangling(g)
  {
  }

  lemma SelectionDecides(h: CseOptimizer.Hashing, g: seq<Node>, rd: CseOptimizer.Redirect, v: Valuation, ids: set<Id>,
                         n: Node)
    requires CseOptimizer.Assumptions(h, g, rd) && CseOptimizer.CollisionFree(h, g) && IsModel(g, v) && NoDangling(g)
    requires TextsSelectLiterals(g, ids) && n in g && n.id in ids
    ensures SelectsRepetition(g, v, n) <==> exists d :: d in TextIds(n) && d in rd
  {
    hide CseOptimizer.Assumptions, CseOptimizer.CollisionFree, CseOptimizer.Bare, TextIds, NodeValue;
    assert forall i :: 0 <= i < |g| ==> g[i] in g && g[i].id in v;
    forall i | 0 <= i < |g| && g[i].id in TextIds(n)
      ensures g[i].id in rd <==> exists j :: 0 <= j < i && CseOptimizer.Eligible(g[j]) && v[g[j].id] == v[g[i].id]
    {
      CseOptimizer.RepeatedLiteralIsMerged(h, g, rd, v, i);
    }
    forall d | d in TextIds(n) && d in rd ensures exists i :: 0 <= i < |g| && g[i].id == d {
      NoneDangles(g, n, d);
      var k := NodeWithId(g, d);
    }
  }

  /** The timeframes filled in last change nothing else. */
  lemma TimedIsCompiled(reg: Registry, rank: TimeframeResolver.Rank, w: World, h: CseOptimizer.Hashing, lowered: State,
                        rd: CseOptimizer.Redirect, g: seq<Node>, out: seq<Node>)
    requires Sorted(reg, w, h, lowered, rd, g) && Timetabled(reg, rank, g, out)
    ensures CompiledUpToTime(reg, w, out) <==> CseOptimizer.TextsKept(lowered.nodes, rd, Ids(out))
  {
    hide Represented, CseOptimizer.Redirects, Assembled, Meant, Merges, Compiled, NoDangling, CseOptimizer.TextsKept,
         TimeframeResolver.Settled, TimeframeResolver.Owned;
    var own :| TimetabledBy(reg, rank, g, own, out);
    assert Retimed(g, out);
    RetimedIds(g, out);
    RetimedIsCompiled(reg, w, g, out);
    if CompiledUpToTime(reg, w, out) { NothingDangles(reg, w, out); }
  }

  lemma NothingDangles(reg: Registry, w: World, g: seq<Node>)
    requires CompiledUpToTime(reg, w, g)
    ensures NoDangling(g)
  {
  }

  /**
   The timeframe of a node before and after elimination.  It gets earlier, or is lost, exactly when
   one that counted was later than all that count afterwards, and later in the opposite case.  Away
   from constants that are merged with one of another timeframe it never gets earlier, and later
   exactly when the node takes it from its readers and merging gains it one that is later.
   */
  lemma EliminationChangesTimesExactly(reg: Registry, rank: TimeframeResolver.Rank, w: World, h: CseOptimizer.Hashing,
                                       lowered: State, rd: CseOptimizer.Redirect, g: seq<Node>, out: seq<Node>,
                                       own: TimeframeResolver.Times, n: Node, x: Option<string>, i: nat)
    requires Sorted(reg, w, h, lowered, rd, g) && Timetabled(reg, rank, g, out) && i < |out|
    requires var a := Unmerged(reg, w, lowered.nodes);
             && n in a && n.id in Kept(reg, w, lowered.nodes, rd)
             && out[i].id == Kept(reg, w, lowered.nodes, rd)[n.id]
             && TimeframeResolver.Owned(a, rank, own) && TimeframeResolver.Settled(reg, a, rank, own, n, x)
    ensures var a, r, to := Unmerged(reg, w, lowered.nodes), AsMerged(reg, w, lowered.nodes, rd),
                            Kept(reg, w, lowered.nodes, rd);
            var y, before, after := out[i].timeframe, Counted(reg, a, n), CountedMerged(reg, r, to, n);
            && (Earlier(rank, y, x) <==> Beats(rank, before, after))
            && (Earlier(rank, x, y) <==> Beats(rank, after, before))
            && (MergedTimes.SameTime(rank, x, y) <==> !Earlier(rank, y, x) && !Earlier(rank, x, y))
            && (Steady(a, r, to, n) ==>
                  !Earlier(rank, y, x) && (Earlier(rank, x, y) <==> MergedTimes.Gains(reg, a, to, rank, own, n)))
  {
    hide Represented, CseOptimizer.Redirects, Assembled, Meant, Compiled, NoDangling, CseOptimizer.TextsKept, Unmerged,
         Kept, AsMerged, TimeframeResolver.Settled, TimeframeResolver.Owned, MergedTimes.Quotient, Descends,
         MergedTimes.Gains, Retimed, Beats, Counted, CountedMerged, Steady, Earlier, MergedTimes.SameTime;
    var ownG :| TimetabledBy(reg, rank, g, ownG, out);
    var a, r, to := Unmerged(reg, w, lowered.nodes), AsMerged(reg, w, lowered.nodes, rd),
                    Kept(reg, w, lowered.nodes, rd);
    var n' := Counterpart(a, r, n);
    MergingRetimesExactly(reg, a, r, g, to, TermsLeft(lowered.val, r), rank, own, ownG, n, n', g[i], x,
                          out[i].timeframe);
    if Steady(a, r, to, n) { SteadyOnlyGains(reg, a, r, g, to, rank, own, n); }
  }

  /** A program that would compile without elimination is refused with it exactly when that strands a node. */
  lemma EliminationRefusesExactly(reg: Registry, w: World, h: CseOptimizer.Hashing, lowered: State,
                                  rd: CseOptimizer.Redirect, g: seq<Node>, skipValidation: bool)
    requires Sorted(reg, w, h, lowered, rd, g)
    requires TimeframeResolver.Resolvable(reg, Unmerged(reg, w, lowered.nodes), skipValidation)
    ensures var a, r, to := Unmerged(reg, w, lowered.nodes), AsMerged(reg, w, lowered.nodes, rd),
                            Kept(reg, w, lowered.nodes, rd);
            && (!TimeframeResolver.Resolvable(reg, g, skipValidation) <==>
                exists n :: n in a && Stranded(reg, a, r, to, skipValidation, n))
            && (!TimeframeResolver.Resolvable(reg, g, skipValidation) ==> Turned(a, r) != {})
  {
    hide Represented, CseOptimizer.Redirects, Assembled, Meant, Compiled, NoDangling, CseOptimizer.TextsKept, Unmerged,
         Kept, AsMerged, MergedTimes.Quotient, Descends, Retimed, TimeframeResolver.Resolvable, Stranded, Turned;
    var r := AsMerged(reg, w, lowered.nodes, rd);
    RefusedExactly(reg, Unmerged(reg, w, lowered.nodes), r, g, Kept(reg, w, lowered.nodes, rd),
                   TermsLeft(lowered.val, r), skipValidation);
  }
}
