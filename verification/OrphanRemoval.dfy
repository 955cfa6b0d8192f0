/** Dead-node removal: a breadth-first search backwards from the sinks, then an erase. */
module OrphanRemoval {
  import opened Wrappers
  import opened Graph
  import opened Registry
  import opened CompilationContext

  /** Position of the first node with this id, or |g|. */
  function FirstWithId(g: seq<Node>, id: Id): (k: nat)
    ensures k <= |g| && (k < |g| ==> g[k].id == id)
    ensures forall i :: 0 <= i < k ==> g[i].id != id
  {
    if g == [] then 0
    else if g[0].id == id then 0
    else 1 + FirstWithId(g[1..], id)
  }

  /** Visiting a marks b. */
  ghost predicate Marks(g: seq<Node>, a: Id, b: Id) {
    var k := FirstWithId(g, a);
    k < |g| && b in InputIds(g[k])
  }

  ghost predicate SinkId(reg: Registry, g: seq<Node>, id: Id) {
    exists n :: n in g && n.id == id && IsSink(reg, n.kind)
  }

  /** A trail of marks from some sink. */
  ghost predicate Trail(reg: Registry, g: seq<Node>, p: seq<Id>) {
    && p != [] && SinkId(reg, g, p[0])
    && forall i :: 0 <= i < |p| - 1 ==> Marks(g, p[i], p[i + 1])
  }

  /** The id is a sink's or is read, transitively, by a sink. */
  ghost predicate Needed(reg: Registry, g: seq<Node>, id: Id) {
    exists p :: Trail(reg, g, p) && p[|p| - 1] == id
  }

  lemma SinkIsNeeded(reg: Registry, g: seq<Node>, id: Id)
    requires SinkId(reg, g, id)
    ensures Needed(reg, g, id)
  {
    assert Trail(reg, g, [id]);
  }

  lemma MarkedIsNeeded(reg: Registry, g: seq<Node>, a: Id, b: Id)
    requires Needed(reg, g, a) && Marks(g, a, b)
    ensures Needed(reg, g, b)
  {
    var p :| Trail(reg, g, p) && p[|p| - 1] == a;
    var q := p + [b];
    forall i | 0 <= i < |q| - 1
      ensures Marks(g, q[i], q[i + 1])
    {
      if i < |p| - 1 { assert q[i] == p[i] && q[i + 1] == p[i + 1]; }
    }
    assert Trail(reg, g, q);
  }

  // ------------------------------------------------------------------------- search

  ghost predicate Closed(g: seq<Node>, marked: set<Id>, pending: seq<Id>) {
    forall a, b :: a in marked && a !in pending && Marks(g, a, b) ==> b in marked
  }

  lemma {:induction false} TrailStays(reg: Registry, g: seq<Node>, marked: set<Id>, p: seq<Id>, i: nat)
    requires Trail(reg, g, p) && i < |p| && Closed(g, marked, [])
    requires forall id :: SinkId(reg, g, id) ==> id in marked
    ensures p[i] in marked
  {
    if i > 0 {
      TrailStays(reg, g, marked, p, i - 1);
      assert Marks(g, p[i - 1], p[i]);
    }
  }

  /** Everything the search can ever mark. */
  function Universe(g: seq<Node>): set<Id> {
    Ids(g) + set n, d | n in g && d in InputIds(n) :: d
  }

  method MarkInputs(n: Node, marked0: set<Id>, queue0: seq<Id>) returns (marked: set<Id>, queue: seq<Id>)
    ensures marked == marked0 + InputIds(n)
    ensures forall id :: id in queue <==> id in queue0 || (id in marked && id !in marked0)
    ensures marked == marked0 ==> queue == queue0
  {
    marked, queue := marked0, queue0;
    var refs := InputRefs(n);
    ghost var seen: set<string> := {};
    while refs != {}
      invariant refs + seen == InputRefs(n)
      invariant marked == marked0 + set r | r in seen :: NodeOf(r)
      invariant forall id :: id in queue <==> id in queue0 || (id in marked && id !in marked0)
      invariant marked == marked0 ==> queue == queue0
    {
      var ref :| ref in refs;
      refs := refs - {ref};
      var dep := NodeOf(ref);
      if dep !in marked {
        marked := marked + {dep};
        queue := queue + [dep];
      }
      seen := seen + {ref};
    }
  }

  ghost predicate AllNeeded(reg: Registry, g: seq<Node>, marked: set<Id>) {
    marked <= Universe(g) && forall id :: id in marked ==> Needed(reg, g, id)
  }

  /** Loop invariant of the search. */
  ghost predicate Searching(reg: Registry, g: seq<Node>, marked: set<Id>, queue: seq<Id>) {
    && (forall id :: SinkId(reg, g, id) ==> id in marked)
    && AllNeeded(reg, g, marked)
    && (forall id :: id in queue ==> id in marked)
    && Closed(g, marked, queue)
  }

  method SeedSinks(reg: Registry, g: seq<Node>) returns (marked: set<Id>, queue: seq<Id>)
    ensures Searching(reg, g, marked, queue)
  {
    marked, queue := {}, [];
    for i := 0 to |g|
      invariant forall id :: id in marked <==> SinkId(reg, g[..i], id)
      invariant forall id :: id in marked <==> id in queue
      invariant marked <= Ids(g)
    {
      assert g[..i + 1] == g[..i] + [g[i]];
      if IsSink(reg, g[i].kind) {
        queue := queue + [g[i].id];
        marked := marked + {g[i].id};
      }
    }
    assert g[..|g|] == g;
    forall id | id in marked ensures Needed(reg, g, id) { SinkIsNeeded(reg, g, id); }
  }

  ghost function MarkedBy(g: seq<Node>, id: Id): set<Id> {
    var k := FirstWithId(g, id);
    if k < |g| then InputIds(g[k]) else {}
  }

  lemma VisitedIsClosed(g: seq<Node>, marked: set<Id>, queue: seq<Id>, after: set<Id>, rest: seq<Id>)
    requires queue != [] && Closed(g, marked, queue)
    requires after == marked + MarkedBy(g, queue[0])
    requires forall id :: id in rest <==> id in queue[1..] || (id in after && id !in marked)
    ensures Closed(g, after, rest)
  {
    assert queue == [queue[0]] + queue[1..];
    forall a, b | a in after && a !in rest && Marks(g, a, b)
      ensures b in after
    {
      assert a in marked;
      if a != queue[0] { assert a !in queue; }
    }
  }

  lemma MarkedAreNeeded(reg: Registry, g: seq<Node>, marked: set<Id>, id: Id)
    requires AllNeeded(reg, g, marked) && id in marked
    ensures AllNeeded(reg, g, marked + MarkedBy(g, id))
  {
    forall d | d in MarkedBy(g, id)
      ensures Needed(reg, g, d) && d in Universe(g)
    {
      MarkedIsNeeded(reg, g, id, d);
      assert g[FirstWithId(g, id)] in g;
    }
  }

  lemma Visited(reg: Registry, g: seq<Node>, marked: set<Id>, queue: seq<Id>, after: set<Id>, rest: seq<Id>)
    requires queue != [] && Searching(reg, g, marked, queue)
    requires after == marked + MarkedBy(g, queue[0])
    requires forall id :: id in rest <==> id in queue[1..] || (id in after && id !in marked)
    ensures Searching(reg, g, after, rest)
  {
    VisitedIsClosed(g, marked, queue, after, rest);
    assert queue == [queue[0]] + queue[1..];
    MarkedAreNeeded(reg, g, marked, queue[0]);
  }

  lemma Finished(reg: Registry, g: seq<Node>, marked: set<Id>, id: Id)
    requires Searching(reg, g, marked, []) && Needed(reg, g, id)
    ensures id in marked
  {
    var p :| Trail(reg, g, p) && p[|p| - 1] == id;
    TrailStays(reg, g, marked, p, |p| - 1);
  }

  /** The search terminates on every graph, cyclic ones included, and marks what is needed. */
  method MarkNeeded(reg: Registry, g: seq<Node>) returns (marked: set<Id>)
    ensures forall id :: id in marked <==> Needed(reg, g, id)
    ensures Closed(g, marked, [])
  {
    var queue;
    marked, queue := SeedSinks(reg, g);
    while queue != []
      invariant Searching(reg, g, marked, queue)
      decreases Universe(g) - marked, |queue|
    {
      var k := FirstWithId(g, queue[0]);
      ghost var marked0, queue0 := marked, queue;
      queue := queue[1..];
      if k < |g| {
        marked, queue := MarkInputs(g[k], marked, queue);
      }
      Visited(reg, g, marked0, queue0, marked, queue);
    }
    forall id | Needed(reg, g, id)
      ensures id in marked
    {
      Finished(reg, g, marked, id);
    }
  }

  // -------------------------------------------------------------------------- erase

  /** The surviving vector: marked nodes in their old order. */
  function Keep(g: seq<Node>, marked: set<Id>): seq<Node> {
    if g == [] then []
    else if g[|g| - 1].id in marked then Keep(g[..|g| - 1], marked) + [g[|g| - 1]]
    else Keep(g[..|g| - 1], marked)
  }

  lemma {:induction false} KeepMembers(g: seq<Node>, marked: set<Id>, n: Node)
    ensures n in Keep(g, marked) <==> n in g && n.id in marked
  {
    if g != [] {
      KeepMembers(g[..|g| - 1], marked, n);
      assert g == g[..|g| - 1] + [g[|g| - 1]];
    }
  }

  lemma {:induction false} KeepDistinct(g: seq<Node>, marked: set<Id>)
    requires Distinct(g)
    ensures Distinct(Keep(g, marked))
  {
    if g != [] {
      var init, last := g[..|g| - 1], g[|g| - 1];
      KeepDistinct(init, marked);
      forall n | n in Keep(init, marked)
        ensures n.id != last.id
      {
        KeepMembers(init, marked, n);
      }
    }
  }

  lemma KeepIds(g: seq<Node>, marked: set<Id>)
    ensures Ids(Keep(g, marked)) == Ids(g) * marked
  {
    forall n ensures n in Keep(g, marked) <==> n in g && n.id in marked { KeepMembers(g, marked, n); }
  }

  /**
   The pass.  Without a sink it fails, or does nothing when the caller skips that check.
   The final clean-up of used ids only visits survivors, so it never releases an id.
   */
  method RemoveOrphanNodes(context: Context, skipSinkValidation: bool) returns (r: Result<bool>, ghost marked: set<Id>)
    modifies context`algorithms, context`usedNodeIds
    ensures r.Err? <==>
              !skipSinkValidation && !exists n :: n in old(context.algorithms) && IsSink(context.registry, n.kind)
    ensures forall id :: id in marked <==> Needed(context.registry, old(context.algorithms), id)
    ensures context.algorithms ==
              if exists n :: n in old(context.algorithms) && IsSink(context.registry, n.kind)
              then Keep(old(context.algorithms), marked)
              else old(context.algorithms)
    ensures context.usedNodeIds == old(context.usedNodeIds)
  {
    var g := context.algorithms;
    var hasSink := false;
    for i := 0 to |g|
      invariant hasSink <==> exists n :: n in g[..i] && IsSink(context.registry, n.kind)
    {
      assert g[..i + 1] == g[..i] + [g[i]];
      hasSink := hasSink || IsSink(context.registry, g[i].kind);
    }
    assert g[..|g|] == g;
    var reachable := MarkNeeded(context.registry, g);
    marked := reachable;
    if !hasSink {
      return if skipSinkValidation then Ok(false) else Err, marked;
    }
    var kept: seq<Node> := [];
    for i := 0 to |g|
      invariant kept == Keep(g[..i], reachable)
    {
      assert g[..i + 1][..i] == g[..i];
      if g[i].id in reachable { kept := kept + [g[i]]; }
    }
    assert g[..|g|] == g;
    context.algorithms := kept;
    KeepIds(g, reachable);
    context.usedNodeIds := context.usedNodeIds - (Ids(context.algorithms) - reachable);
    r := Ok(true);
  }

  // ------------------------------------------------------------------------ meaning

  lemma DependencyMarks(g: seq<Node>, a: Id, b: Id)
    requires Distinct(g) && DependsOn(g, a, b)
    ensures Marks(g, a, b)
  {
    var n :| n in g && n.id == a && b in InputIds(n) && b in Ids(g);
    var i :| 0 <= i < |g| && g[i] == n;
    assert FirstWithId(g, a) == i;
  }

  lemma {:induction false} WalkStaysMarked(g: seq<Node>, marked: set<Id>, p: seq<Id>, i: nat)
    requires Distinct(g) && Closed(g, marked, []) && Walk(g, p) && p[0] in marked && i < |p|
    ensures p[i] in marked
  {
    if i > 0 {
      WalkStaysMarked(g, marked, p, i - 1);
      DependencyMarks(g, p[i - 1], p[i]);
    }
  }

  /** What the options of survivors name survives, as far as it is wired. */
  lemma NamedSurvives(g: seq<Node>, marked: set<Id>, n: Node, d: Id)
    requires Distinct(g) && Closed(g, marked, []) && n in g && n.id in marked && Reaches(g, n.id, d)
    ensures d in marked
  {
    var p :| Walk(g, p) && |p| >= 2 && p[0] == n.id && p[|p| - 1] == d;
    WalkStaysMarked(g, marked, p, |p| - 1);
  }

  lemma InputSurvives(g: seq<Node>, marked: set<Id>, n: Node, d: Id)
    requires Distinct(g) && Closed(g, marked, []) && n in g && n.id in marked && d in InputIds(n) && d in Ids(g)
    ensures d in marked
  {
    assert DependsOn(g, n.id, d);
    DependencyMarks(g, n.id, d);
  }

  /** A survivor whose options name no dropped node computes what it computed before. */
  lemma KeptValue(g: seq<Node>, marked: set<Id>, v: Valuation, n: Node)
    requires Distinct(g) && Closed(g, marked, []) && v.Keys == Ids(g) && n in g && n.id in marked
    requires forall d :: d in OptionIds(n) && d in Ids(g) ==> d in marked
    ensures NodeValue(n, v - (v.Keys - marked)) == NodeValue(n, v)
  {
    hide OptionIds, InputIds;
    forall d | d in InputIds(n) && d in v ensures d in marked { InputSurvives(g, marked, n, d); }
    SameMentionsSameValue(n, v, v - (v.Keys - marked));
  }

  /** Survivors compute what they computed before, because what they name is wired. */
  lemma RemovalKeepsValues(g: seq<Node>, marked: set<Id>, v: Valuation)
    requires Distinct(g) && Closed(g, marked, []) && OptionsWired(g) && IsModel(g, v)
    ensures IsModel(Keep(g, marked), v - (v.Keys - marked))
  {
    hide OptionIds, Reaches, NodeValue, Closed, Distinct, Keep;
    KeepIds(g, marked);
    forall n | n in Keep(g, marked)
      ensures n.id in v && n.id in marked
      ensures (v - (v.Keys - marked))[n.id] == NodeValue(n, v - (v.Keys - marked))
    {
      KeepMembers(g, marked, n);
      forall d | d in OptionIds(n) && d in Ids(g) ensures d in marked { NamedSurvives(g, marked, n, d); }
      KeptValue(g, marked, v, n);
    }
  }

  /** A survivor whose option names a dropped node no longer means it. */
  lemma DroppedMatters(g: seq<Node>, marked: set<Id>, v: Valuation, n: Node, d: Id)
    requires d in OptionIds(n) && d in v && d !in marked
    ensures NodeValue(n, v - (v.Keys - marked)) != NodeValue(n, v)
  {
    hide Refers, OptionIds;
    var w := v - (v.Keys - marked);
    var key := NamingOption(n, d);
    var o := n.options[key];
    var f :| f in FieldTexts(o) && Refers(f) && NodeOf(f) == d;
    assert FieldValue(f, v) == RefValue(f, v) && FieldValue(f, w) == External(f);
    assert NodeValue(n, v).options[key] == OptionMeaning(n.kind, key, o, v);
    assert NodeValue(n, w).options[key] == OptionMeaning(n.kind, key, o, w);
    if o.Schema? && f != o.selectKey {
      var i :| 0 <= i < |o.columns| && o.columns[i] == f;
      assert FieldValues(o.columns, v)[i] != FieldValues(o.columns, w)[i];
    }
  }

  /** On any graph, wired or not: meaning is kept iff no survivor's option names a dropped node. */
  lemma RemovalDecides(g: seq<Node>, marked: set<Id>, v: Valuation)
    requires Distinct(g) && Closed(g, marked, []) && IsModel(g, v)
    ensures IsModel(Keep(g, marked), v - (v.Keys - marked)) <==>
            forall n, d :: n in g && n.id in marked && d in OptionIds(n) && d in Ids(g) ==> d in marked
  {
    hide OptionIds, NodeValue;
    KeepIds(g, marked);
    var w := v - (v.Keys - marked);
    forall n | n in g && n.id in marked
      ensures w[n.id] == NodeValue(n, w) <==> forall d :: d in OptionIds(n) && d in Ids(g) ==> d in marked
    {
      if forall d :: d in OptionIds(n) && d in Ids(g) ==> d in marked {
        KeptValue(g, marked, v, n);
      } else {
        var d :| d in OptionIds(n) && d in Ids(g) && d !in marked;
        DroppedMatters(g, marked, v, n, d);
      }
    }
    forall n ensures n in Keep(g, marked) <==> n in g && n.id in marked { KeepMembers(g, marked, n); }
  }

  lemma DependencyKept(g: seq<Node>, marked: set<Id>, a: Id, b: Id)
    requires a in marked && b in marked && DependsOn(g, a, b)
    ensures DependsOn(Keep(g, marked), a, b)
  {
    var n :| n in g && n.id == a && b in InputIds(n) && b in Ids(g);
    KeepMembers(g, marked, n);
    KeepIds(g, marked);
  }

  lemma RemovalKeepsWiring(g: seq<Node>, marked: set<Id>)
    requires Distinct(g) && Closed(g, marked, []) && OptionsWired(g)
    ensures OptionsWired(Keep(g, marked))
  {
    KeepIds(g, marked);
    forall n, d | n in Keep(g, marked) && d in OptionIds(n) && d in Ids(Keep(g, marked))
      ensures Reaches(Keep(g, marked), n.id, d)
    {
      KeepMembers(g, marked, n);
      var p :| Walk(g, p) && |p| >= 2 && p[0] == n.id && p[|p| - 1] == d;
      forall i | 0 <= i < |p| - 1
        ensures DependsOn(Keep(g, marked), p[i], p[i + 1])
      {
        WalkStaysMarked(g, marked, p, i);
        WalkStaysMarked(g, marked, p, i + 1);
        DependencyKept(g, marked, p[i], p[i + 1]);
      }
      assert Walk(Keep(g, marked), p);
    }
  }
}
