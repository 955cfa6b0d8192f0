/** Statements: what each one does to the context, against what it means for the program. */
module Statements {
  import opened Wrappers
  import opened Graph
  import opened Ast
  import opened Registry
  import opened NodeIds
  import opened CompilationContext
  import opened Denotation
  import opened ProgramMeaning
  import opened Lowering
  import opened Instantiation
  import opened NodeBuilder
  import opened ExpressionCompiler
  import opened SlotTexts

  function TermIn(v: Valuation, id: Id): Value { if id in v then v[id] else External(id) }

  /** The terms of the sink nodes, in vector order. */
  function SinkTerms(reg: Registry, nodes: seq<Node>, v: Valuation): seq<Value> {
    if nodes == [] then []
    else
      var n := nodes[|nodes| - 1];
      SinkTerms(reg, nodes[..|nodes| - 1], v) + (if IsSink(reg, n.kind) then [TermIn(v, n.id)] else [])
  }

  /** Every node has a term; the context means exactly this world. */
  ghost predicate Represented(reg: Registry, s: State, w: World) {
    && Ready(reg, s) && s.val.Keys == Ids(s.nodes)
    && ScopeOf(reg, s) == w.scope && SinkTerms(reg, s.nodes, s.val) == w.sinks
  }

  lemma {:induction false} SinkTermsAppend(reg: Registry, a: seq<Node>, b: seq<Node>, v: Valuation)
    ensures SinkTerms(reg, a + b, v) == SinkTerms(reg, a, v) + SinkTerms(reg, b, v)
  {
    if b == [] {
      assert a + b == a;
    } else {
      var n := |b| - 1;
      assert (a + b)[..|a + b| - 1] == a + b[..n] && (a + b)[|a + b| - 1] == b[n];
      SinkTermsAppend(reg, a, b[..n], v);
    }
  }

  lemma {:induction false} NoSinkTerms(reg: Registry, nodes: seq<Node>, v: Valuation)
    requires forall n :: n in nodes ==> !IsSink(reg, n.kind)
    ensures SinkTerms(reg, nodes, v) == []
  {
    if nodes != [] { NoSinkTerms(reg, nodes[..|nodes| - 1], v); }
  }

  lemma {:induction false} SameSinkTerms(reg: Registry, nodes: seq<Node>, v: Valuation, w: Valuation)
    requires forall n :: n in nodes ==> TermIn(v, n.id) == TermIn(w, n.id)
    ensures SinkTerms(reg, nodes, v) == SinkTerms(reg, nodes, w)
  {
    if nodes != [] { SameSinkTerms(reg, nodes[..|nodes| - 1], v, w); }
  }

  lemma OneSinkTerm(reg: Registry, n: Node, v: Valuation)
    ensures SinkTerms(reg, [n], v) == if IsSink(reg, n.kind) then [TermIn(v, n.id)] else []
  {
    assert [n][..0] == [];
  }

  /** The nodes a are followed by nodes b that are no sinks; what a computes has not changed. */
  lemma SinkTermsGrow(reg: Registry, a: seq<Node>, b: seq<Node>, v: Valuation, w: Valuation)
    requires forall n :: n in b ==> !IsSink(reg, n.kind)
    requires forall n :: n in a ==> n.id in v
    requires forall id :: id in v ==> id in w && w[id] == v[id]
    ensures SinkTerms(reg, a + b, w) == SinkTerms(reg, a, v)
  {
    SinkTermsAppend(reg, a, b, w);
    NoSinkTerms(reg, b, w);
    SameSinkTerms(reg, a, v, w);
  }

  lemma PartIds(nodes: seq<Node>, k: nat)
    requires k <= |nodes|
    ensures Ids(nodes) == Ids(nodes[..k]) + Ids(nodes[k..])
  {
    assert nodes == nodes[..k] + nodes[k..];
  }

  /** A step only adds nodes that have terms and are no sinks. */
  lemma StepsSplit(reg: Registry, s0: State, s1: State)
    requires Steps(reg, s0, s1)
    ensures |s0.nodes| <= |s1.nodes| && s1.nodes[..|s0.nodes|] == s0.nodes
    ensures forall n :: n in s1.nodes[|s0.nodes|..] ==> !IsSink(reg, n.kind)
    ensures forall id :: id in s0.val ==> id in s1.val && s1.val[id] == s0.val[id]
    ensures s1.val.Keys == s0.val.Keys + Ids(s1.nodes[|s0.nodes|..])
    ensures Ready(reg, s1)
  {
  }

  /** Lowering an expression adds no sink and leaves every node with a term. */
  lemma StepsRepresented(reg: Registry, s0: State, s1: State, w: World)
    requires Represented(reg, s0, w) && Steps(reg, s0, s1)
    ensures Represented(reg, s1, w)
  {
    hide Ready, Steps, IsSink, SinkTerms;
    var k := |s0.nodes|;
    StepsSplit(reg, s0, s1);
    StepsScope(reg, s0, s1);
    PartIds(s1.nodes, k);
    assert s1.nodes == s0.nodes + s1.nodes[k..];
    assert forall n :: n in s0.nodes ==> n.id in Ids(s0.nodes);
    SinkTermsGrow(reg, s0.nodes, s1.nodes[k..], s0.val, s1.val);
  }

  // ------------------------------------------------------------------- a placed node

  /** The new node follows the old ones; those after it are no sinks. */
  lemma PlacedSplit(reg: Registry, u: State, n: Node, bound: bool, g: State, f: State, node: Value)
    requires Placed(reg, u, n, bound, g, f, node)
    ensures |u.nodes| < |f.nodes| && f.nodes[..|u.nodes|] == u.nodes
    ensures f.nodes[|u.nodes|].id == n.id && f.nodes[|u.nodes|].kind == n.kind
    ensures forall m :: m in f.nodes[|u.nodes| + 1..] ==> !IsSink(reg, m.kind)
    ensures f.val.Keys == u.val.Keys + {n.id} + Ids(f.nodes[|u.nodes| + 1..])
    ensures n.id in f.val && f.val[n.id] == node
  {
    hide Core, TypesStay, BindingsStay;
    var e, t := Entered(u, n, bound), |u.nodes|;
    assert forall i :: 0 <= i < t ==> f.nodes[i] == e.nodes[i];
    assert f.nodes[t + 1..] == g.nodes[t + 1..];
    assert forall i :: t + 1 <= i < |g.nodes| ==> !IsSink(reg, g.nodes[i].kind);
  }

  lemma PlacedTerms(reg: Registry, u: State, n: Node, bound: bool, g: State, f: State, node: Value)
    requires Placed(reg, u, n, bound, g, f, node)
    ensures forall id :: id in u.val ==> id in f.val && f.val[id] == u.val[id]
  {
    IndexedIds(u);
  }

  lemma PlacedIds(reg: Registry, u: State, n: Node, bound: bool, g: State, f: State, node: Value)
    requires Placed(reg, u, n, bound, g, f, node) && u.val.Keys == Ids(u.nodes)
    ensures f.val.Keys == Ids(f.nodes)
  {
    hide Placed, IsSink;
    var t := |u.nodes|;
    PlacedSplit(reg, u, n, bound, g, f, node);
    PartIds(f.nodes, t);
    assert f.nodes[t..] == [f.nodes[t]] + f.nodes[t + 1..];
  }

  lemma PlacedSinks(reg: Registry, u: State, n: Node, bound: bool, g: State, f: State, node: Value)
    requires Placed(reg, u, n, bound, g, f, node) && u.val.Keys == Ids(u.nodes)
    ensures SinkTerms(reg, f.nodes, f.val) == SinkTerms(reg, u.nodes, u.val) + SinkOf(reg, n.kind, node)
  {
    hide Placed, IsSink, SinkTerms;
    var t := |u.nodes|;
    PlacedSplit(reg, u, n, bound, g, f, node);
    PlacedTerms(reg, u, n, bound, g, f, node);
    assert f.nodes == (u.nodes + [f.nodes[t]]) + f.nodes[t + 1..];
    SinkTermsAppend(reg, u.nodes + [f.nodes[t]], f.nodes[t + 1..], f.val);
    SinkTermsAppend(reg, u.nodes, [f.nodes[t]], f.val);
    NoSinkTerms(reg, f.nodes[t + 1..], f.val);
    assert forall m :: m in u.nodes ==> m.id in Ids(u.nodes);
    SameSinkTerms(reg, u.nodes, u.val, f.val);
    OneSinkTerm(reg, f.nodes[t], f.val);
  }

  /** A node under a generated id: no variable changes. */
  lemma PlacedGenerated(reg: Registry, s0: State, u: State, n: Node, bound: bool, g: State, f: State, node: Value,
                        w: World)
    requires Represented(reg, s0, w) && u == s0.(used := u.used) && s0.used <= u.used && Reserved(reg, n.id)
    requires Placed(reg, u, n, bound, g, f, node)
    ensures Represented(reg, f, World(w.scope, w.sinks + SinkOf(reg, n.kind, node)))
  {
    PlacedIds(reg, u, n, bound, g, f, node);
    PlacedSinks(reg, u, n, bound, g, f, node);
    EnteredLikePushed(reg, u, n, bound, g);
    PlaceholderExtends(reg, u, n, g, g.nodes[|u.nodes|], None);
    UsedExtends(reg, s0, u, f);
    BoundStays(reg, s0, f);
    ScopeStays(reg, s0, f);
  }

  lemma PlacedTracks(reg: Registry, u: State, n: Node, g: State, f: State, node: Value)
    requires Placed(reg, u, n, true, g, f, node) && u.val.Keys <= Ids(u.nodes)
    ensures forall id :: id in u.val ==> Tracked(f, id) == Tracked(u, id)
  {
    hide Core, NodesGrow, ValuesGrow, BindingsStay, Quiet;
    var e := Entered(u, n, true);
    assert forall m :: m in u.nodes ==> m in e.nodes;
    forall id | id in u.val
      ensures Tracked(f, id) == Tracked(u, id)
    {
      assert id in Ids(e.nodes);
      assert Tracked(g, id) == Tracked(e, id);
    }
  }

  lemma PlacedBindings(reg: Registry, u: State, n: Node, g: State, f: State, node: Value)
    requires Placed(reg, u, n, true, g, f, node)
    ensures forall x :: !Reserved(reg, x) ==>
              BindingOf(f, x) == if x == n.id then Some(ComponentName(n.kind)) else BindingOf(u, x)
  {
    hide Core, NodesGrow, ValuesGrow, TypesStay, Quiet;
    var e := Entered(u, n, true);
    forall x | !Reserved(reg, x)
      ensures BindingOf(f, x) == if x == n.id then Some(ComponentName(n.kind)) else BindingOf(u, x)
    {
      assert BindingOf(g, x) == BindingOf(e, x);
    }
  }

  lemma PlacedKind(reg: Registry, u: State, n: Node, bound: bool, g: State, f: State, node: Value)
    requires Placed(reg, u, n, bound, g, f, node)
    ensures KindOf(node) == n.kind
  {
  }

  lemma PlacedBound(reg: Registry, u: State, n: Node, g: State, f: State, node: Value)
    requires Ready(reg, u) && Placed(reg, u, n, true, g, f, node) && !Reserved(reg, n.id)
    ensures Bound(reg, f)
  {
    hide NodesGrow, ValuesGrow, TypesStay, BindingsStay, Named, AllFinished, Bound, BindingOf, Reserved;
    PlacedTerms(reg, u, n, true, g, f, node);
    IndexedIds(u);
    PlacedTracks(reg, u, n, g, f, node);
    PlacedBindings(reg, u, n, g, f, node);
    PlacedKind(reg, u, n, true, g, f, node);
    forall m | m in f.nodes && !Reserved(reg, m.id)
      ensures m.id == n.id || m in u.nodes
    {
      PlacedNames(reg, u, n, true, g, f, node, m);
    }
    BoundAfter(reg, u, f, n, node);
  }

  lemma BoundAfter(reg: Registry, u: State, f: State, n: Node, node: Value)
    requires Bound(reg, u) && n.id in f.val && f.val[n.id] == node && KindOf(node) == n.kind && Tracked(f, n.id) == None
    requires forall id :: id in u.val ==> id in f.val && f.val[id] == u.val[id]
    requires forall id :: id in u.val ==> Tracked(f, id) == Tracked(u, id)
    requires forall x :: !Reserved(reg, x) ==>
               BindingOf(f, x) == if x == n.id then Some(ComponentName(n.kind)) else BindingOf(u, x)
    requires forall m :: m in f.nodes && !Reserved(reg, m.id) ==> m.id == n.id || m in u.nodes
    ensures Bound(reg, f)
  {
    hide Reserved, Tracked, KindOf;
    forall x | x in f.bindings && !Reserved(reg, x)
      ensures match f.bindings[x]
              case NodeHandle(h) => h.nodeId in f.val
              case ComponentName(k) => x in f.val && KindOf(f.val[x]) == k && Tracked(f, x) == None
    {
      assert BindingOf(f, x) == if x == n.id then Some(ComponentName(n.kind)) else BindingOf(u, x);
    }
    forall m | m in f.nodes && !Reserved(reg, m.id)
      ensures m.id in f.bindings
    {
      assert BindingOf(f, m.id) == if m.id == n.id then Some(ComponentName(n.kind)) else BindingOf(u, m.id);
    }
  }

  /** Apart from the new node, nodes with a user's name were there before. */
  lemma PlacedNames(reg: Registry, u: State, n: Node, bound: bool, g: State, f: State, node: Value, m: Node)
    requires Placed(reg, u, n, bound, g, f, node) && m in f.nodes && !Reserved(reg, m.id)
    ensures m.id == n.id || m in u.nodes
  {
    var i :| 0 <= i < |f.nodes| && f.nodes[i] == m;
    if i < |u.nodes| { assert f.nodes[i] == Entered(u, n, bound).nodes[i] == u.nodes[i]; }
  }

  lemma PlacedScope(reg: Registry, u: State, n: Node, g: State, f: State, node: Value)
    requires Ready(reg, u) && Placed(reg, u, n, true, g, f, node) && !Reserved(reg, n.id)
    ensures ScopeOf(reg, f) == ScopeOf(reg, u)[n.id := Instance(node)]
  {
    PlacedTerms(reg, u, n, true, g, f, node);
    IndexedIds(u);
    PlacedTracks(reg, u, n, g, f, node);
    PlacedBindings(reg, u, n, g, f, node);
    assert f.val[n.id] == node && n.id in f.val;
    ScopeAfter(reg, u, f, n, node);
  }

  lemma ScopeAfter(reg: Registry, u: State, f: State, n: Node, node: Value)
    requires Bound(reg, u) && !Reserved(reg, n.id) && n.id in f.val && f.val[n.id] == node
    requires forall id :: id in u.val ==> id in f.val && f.val[id] == u.val[id]
    requires forall id :: id in u.val ==> Tracked(f, id) == Tracked(u, id)
    requires forall x :: !Reserved(reg, x) ==>
               BindingOf(f, x) == if x == n.id then Some(ComponentName(n.kind)) else BindingOf(u, x)
    ensures ScopeOf(reg, f) == ScopeOf(reg, u)[n.id := Instance(node)]
  {
    var a, b := ScopeOf(reg, f), ScopeOf(reg, u)[n.id := Instance(node)];
    forall x | !Reserved(reg, x)
      ensures x in a <==> x in b
      ensures x in a && x in b ==> a[x] == b[x]
    {
      assert BindingOf(f, x) == if x == n.id then Some(ComponentName(n.kind)) else BindingOf(u, x);
    }
  }

  /** A node under a variable's name: the variable is now that instance. */
  lemma PlacedVariable(reg: Registry, u: State, n: Node, g: State, f: State, node: Value, w: World)
    requires Represented(reg, u, w) && !Reserved(reg, n.id) && Placed(reg, u, n, true, g, f, node)
    ensures Represented(reg, f, World(w.scope[n.id := Instance(node)], w.sinks + SinkOf(reg, n.kind, node)))
  {
    PlacedIds(reg, u, n, true, g, f, node);
    PlacedSinks(reg, u, n, true, g, f, node);
    PlacedBound(reg, u, n, g, f, node);
    PlacedScope(reg, u, n, g, f, node);
  }

  // -------------------------------------------------------------------- binding names

  function Rebound(s: State, x: string, h: ValueHandle): State { s.(bindings := s.bindings[x := NodeHandle(h)]) }

  /** Binding a variable to a handle binds it to what the handle stands for. */
  lemma BindVariable(reg: Registry, s: State, w: World, x: string, h: ValueHandle, d: Den)
    requires Represented(reg, s, w) && !Reserved(reg, x) && Represents(s, h, d)
    ensures Represented(reg, Rebound(s, x, h), World(w.scope[x := Handle(d)], w.sinks))
  {
    hide Core, SinkTerms;
    CoreIgnoresBindings(reg, Rebound(s, x, h), s.bindings);
    ReboundBound(reg, s, x, h, d);
    ReboundScope(reg, s, x, h, d);
  }

  lemma ReboundBound(reg: Registry, s: State, x: string, h: ValueHandle, d: Den)
    requires Bound(reg, s) && !Reserved(reg, x) && Represents(s, h, d)
    ensures Bound(reg, Rebound(s, x, h))
  {
    assert forall id :: Tracked(Rebound(s, x, h), id) == Tracked(s, id);
  }

  lemma ReboundScope(reg: Registry, s: State, x: string, h: ValueHandle, d: Den)
    requires !Reserved(reg, x) && Represents(s, h, d)
    ensures ScopeOf(reg, Rebound(s, x, h)) == ScopeOf(reg, s)[x := Handle(d)]
  {
    var s' := Rebound(s, x, h);
    assert forall id :: Tracked(s', id) == Tracked(s, id);
    assert forall y :: y in s.bindings && y != x ==> EntryOf(s', y) == EntryOf(s, y);
  }

  lemma SameTaken(reg: Registry, s: State, w: World, x: string)
    requires Represented(reg, s, w) && !Reserved(reg, x)
    ensures Taken(w.scope, x) <==> x != "_" && x in s.bindings
  {
  }

  /** A variable nobody has bound names no node. */
  lemma UnboundIsFree(reg: Registry, s: State, w: World, x: string)
    requires Represented(reg, s, w) && UserName(reg, x) && x !in s.bindings
    ensures x !in Ids(s.nodes) && KnownName(reg, s, x)
  {
    forall m | m in s.nodes ensures m.id != x { }
  }

  // ------------------------------------------------------------------------ handlers

  /** Targets are names the compiler never generates; an instance is not called "_". */
  ghost predicate TargetOk(reg: Registry, target: Expr, instance: bool) {
    match target
    case Name(x) => UserName(reg, x) && (instance ==> x != "_")
    case Tuple(members) => forall m :: m in members && m.Name? ==> UserName(reg, m.id)
    case _ => true
  }

  /** A statement succeeds exactly when it has a meaning, and the context then means that. */
  ghost predicate Stated(reg: Registry, s: State, r: Result<bool>, want: Option<World>) {
    (r.Ok? <==> want.Some?) && (r.Ok? ==> Represented(reg, s, want.value))
  }

  /** x = component(...)(...): the node is named after the variable. */
  method BuildVariable(ctx: Context, x: string, p: ParsedCall, ghost d: Parsed, ghost w: World)
    returns (r: Result<bool>)
    requires Represented(ctx.registry, ctx.S(), w) && PlainRegistry(ctx.registry) && UserName(ctx.registry, x)
    requires x != "_"
    requires d.kind in ctx.registry.components && ParseMeans(ctx.S(), p, d)
    requires PlainWords(ctx.registry, d.kind, d.params)
    modifies ctx
    ensures Stated(ctx.registry, ctx.S(), r, AssignInstance(ctx.registry, x, d, w))
    ensures r.Ok? && Textless(old(ctx.algorithms)) && AddsNoSlots(ctx.registry) && SlotsInSchema(d.params) ==>
              Textless(ctx.algorithms)
  {
    hide Represented, PlainRegistry, ParseMeans, Placed, Instantiate, KnownName, IsSink, Ready, Core, UserName,
         PlainWords, Textless, SlotsInSchema, AddsNoSlots, NamesNodes;
    ghost var reg, u := ctx.registry, ctx.S();
    UserIsFree(reg, x);
    SameTaken(reg, u, w, x);
    if x in ctx.varToBinding { return Err; }
    UnboundIsFree(reg, u, w, x);
    RepresentedCore(reg, u, w);
    ghost var n: Node, g: State;
    r, n, g := BuildNode(ctx, x, p, true, d);
    if r.Ok? {
      PlacedVariable(reg, u, n, g, ctx.S(), Instantiate(reg, d).value, w);
      SlotlessPlaced(reg, u, n, true, g, ctx.S(), d);
    }
  }

  lemma SlotlessPlaced(reg: Registry, u: State, n: Node, bound: bool, g: State, f: State, d: Parsed)
    requires d.kind in reg.components && Instantiate(reg, d).Some?
    requires Placed(reg, u, n, bound, g, f, Instantiate(reg, d).value)
    ensures Textless(u.nodes) && AddsNoSlots(reg) && SlotsInSchema(d.params) ==> Textless(f.nodes)
  {
    hide Placed, Instantiate, Textless, SlotsInSchema, AddsNoSlots, NamesNodes;
    if AddsNoSlots(reg) && SlotsInSchema(d.params) {
      SlotlessInstance(reg, d);
      PlacedTextless(reg, u, n, bound, g, f, Instantiate(reg, d).value);
    }
  }

  lemma RepresentedCore(reg: Registry, s: State, w: World)
    requires Represented(reg, s, w)
    ensures Core(reg, s) && Ready(reg, s)
  {
  }

  /** The node of a call under a fresh id "node_k". */
  method BuildSynthetic(ctx: Context, p: ParsedCall, bound: bool, ghost d: Parsed, ghost w: World)
    returns (r: Result<bool>, id: Id)
    requires Represented(ctx.registry, ctx.S(), w) && PlainRegistry(ctx.registry)
    requires d.kind in ctx.registry.components && ParseMeans(ctx.S(), p, d)
    requires PlainWords(ctx.registry, d.kind, d.params)
    modifies ctx
    ensures r.Ok? <==> Instantiate(ctx.registry, d).Some?
    ensures r.Ok? ==>
              var node := Instantiate(ctx.registry, d).value;
              && Represented(ctx.registry, ctx.S(), World(w.scope, w.sinks + SinkOf(ctx.registry, d.kind, node)))
              && (forall handle :: Represents(ctx.S(), ValueHandle(id, handle), OfInstance(node, handle)))
    ensures r.Ok? && Textless(old(ctx.algorithms)) && AddsNoSlots(ctx.registry) && SlotsInSchema(d.params) ==>
              Textless(ctx.algorithms)
  {
    hide Represented, PlainRegistry, FeedsMean, Placed, Instantiate, KnownName, IsSink, Ready, Core, Reserved,
         PlainWords, Textless, SlotsInSchema, AddsNoSlots;
    ghost var reg, s0 := ctx.registry, ctx.S();
    RepresentedCore(reg, s0, w);
    id := ctx.UniqueNodeId("node");
    FreshId(reg, s0, "node", id);
    UseKeeps(reg, s0, id);
    ghost var u := ctx.S();
    SameTablesMean(s0, u, p.feeds, d.feeds);
    FreshIsKnown(reg, u, id);
    ghost var n: Node, g: State;
    r, n, g := BuildNode(ctx, id, p, bound, d);
    if r.Ok? {
      PlacedGenerated(reg, s0, u, n, bound, g, ctx.S(), Instantiate(reg, d).value, w);
      PlacedHandles(reg, u, n, bound, g, ctx.S(), Instantiate(reg, d).value);
      SlotlessPlaced(reg, u, n, bound, g, ctx.S(), d);
    }
  }

  lemma FreshIsKnown(reg: Registry, s: State, id: Id)
    requires PlainName(id) && id in s.used
    ensures KnownName(reg, s, id)
  {
  }

  lemma PlacedHandles(reg: Registry, u: State, n: Node, bound: bool, g: State, f: State, node: Value)
    requires Placed(reg, u, n, bound, g, f, node)
    ensures forall handle :: Represents(f, ValueHandle(n.id, handle), OfInstance(node, handle))
  {
  }

  /** report(...)(...) as a statement. */
  method HandleSinkNode(ctx: Context, p: ParsedCall, ghost d: Parsed, ghost w: World) returns (r: Result<bool>)
    requires Represented(ctx.registry, ctx.S(), w) && PlainRegistry(ctx.registry)
    requires d.kind in ctx.registry.components && ParseMeans(ctx.S(), p, d)
    requires PlainWords(ctx.registry, d.kind, d.params)
    modifies ctx
    ensures Stated(ctx.registry, ctx.S(), r, FeedSink(ctx.registry, d, w))
    ensures r.Ok? && Textless(old(ctx.algorithms)) && AddsNoSlots(ctx.registry) && SlotsInSchema(d.params) ==>
              Textless(ctx.algorithms)
  {
    hide Represented, PlainRegistry, FeedsMean, Instantiate, PlainWords, Textless, SlotsInSchema, AddsNoSlots;
    if ctx.registry.components[p.kind].outputs != [] { return Err; }
    var id;
    r, id := BuildSynthetic(ctx, p, false, d, w);
  }

  /** The names of a tuple of targets, when it is nothing but names that are still free. */
  method FreeNames(ctx: Context, members: seq<Expr>, ghost w: World) returns (r: Result<seq<string>>)
    requires Represented(ctx.registry, ctx.S(), w) && TargetOk(ctx.registry, Tuple(members), true)
    ensures r.Ok? <==> Unpackable(members, w.scope)
    ensures r.Ok? ==> r.value == NamesOf(members)
  {
    hide Represented, UserName;
    var names := [];
    for i := 0 to |members|
      invariant forall k :: 0 <= k < i ==> members[k].Name?
      invariant names == seq(i, k requires 0 <= k < i => if members[k].Name? then members[k].id else "")
    {
      assert members[i] in members;
      if !members[i].Name? { return Err; }
      names := names + [members[i].id];
    }
    for i := 0 to |names|
      invariant forall k :: 0 <= k < i ==> !Taken(w.scope, names[k])
    {
      assert members[i] in members && names[i] == members[i].id;
      UserIsFree(ctx.registry, names[i]);
      SameTaken(ctx.registry, ctx.S(), w, names[i]);
      if names[i] != "_" && names[i] in ctx.varToBinding { return Err; }
    }
    forall m | m in members ensures m.Name? && !Taken(w.scope, m.id) {
      var i :| 0 <= i < |members| && members[i] == m;
      assert names[i] == m.id;
    }
    r := Ok(names);
  }

  lemma BindAllStep(sc: Scope, node: Value, names: seq<string>, outputs: seq<OutputPort>, i: nat)
    requires i < |names| == |outputs|
    ensures BindAll(sc, node, names[..i + 1], outputs[..i + 1])
            == var before := BindAll(sc, node, names[..i], outputs[..i]);
               if names[i] == "_" then before else before[names[i] := Handle(OfInstance(node, outputs[i].id))]
  {
    assert names[..i + 1][..i] == names[..i] && outputs[..i + 1][..i] == outputs[..i];
  }

  lemma BindVariableKeeps(reg: Registry, s: State, x: string, h: ValueHandle, id: Id, node: Value)
    requires forall handle :: Represents(s, ValueHandle(id, handle), OfInstance(node, handle))
    ensures forall handle :: Represents(Rebound(s, x, h), ValueHandle(id, handle), OfInstance(node, handle))
  {
    forall handle
      ensures Represents(Rebound(s, x, h), ValueHandle(id, handle), OfInstance(node, handle))
    {
      assert Represents(s, ValueHandle(id, handle), OfInstance(node, handle));
    }
  }

  /** Outputs to names, left to right. */
  method BindOutputs(ctx: Context, id: Id, names: seq<string>, outputs: seq<OutputPort>, ghost node: Value,
                     ghost w: World)
    requires |names| == |outputs| && Represented(ctx.registry, ctx.S(), w)
    requires forall x :: x in names ==> UserName(ctx.registry, x)
    requires forall handle :: Represents(ctx.S(), ValueHandle(id, handle), OfInstance(node, handle))
    modifies ctx`varToBinding
    ensures Represented(ctx.registry, ctx.S(), World(BindAll(w.scope, node, names, outputs), w.sinks))
  {
    hide Represented, Represents, BindAll, UserName;
    ghost var reg := ctx.registry;
    NothingBound(w.scope, node, names, outputs);
    for i := 0 to |names|
      invariant Represented(reg, ctx.S(), World(BindAll(w.scope, node, names[..i], outputs[..i]), w.sinks))
      invariant forall handle :: Represents(ctx.S(), ValueHandle(id, handle), OfInstance(node, handle))
    {
      BindAllStep(w.scope, node, names, outputs, i);
      if names[i] != "_" {
        var h := ValueHandle(id, outputs[i].id);
        UserIsFree(reg, names[i]);
        BindVariable(reg, ctx.S(), World(BindAll(w.scope, node, names[..i], outputs[..i]), w.sinks), names[i], h,
                     OfInstance(node, outputs[i].id));
        BindVariableKeeps(reg, ctx.S(), names[i], h, id, node);
        ctx.varToBinding := ctx.varToBinding[names[i] := NodeHandle(h)];
      }
    }
    assert names[..|names|] == names && outputs[..|names|] == outputs;
  }

  lemma NothingBound(sc: Scope, node: Value, names: seq<string>, outputs: seq<OutputPort>)
    requires |names| == |outputs|
    ensures BindAll(sc, node, names[..0], outputs[..0]) == sc
  {
  }

  lemma UserIsFree(reg: Registry, x: string)
    requires UserName(reg, x)
    ensures !Reserved(reg, x)
  {
  }

  /** a, b = component(...)(...). */
  method UnpackOutputs(ctx: Context, members: seq<Expr>, p: ParsedCall, ghost d: Parsed, ghost w: World)
    returns (r: Result<bool>)
    requires Represented(ctx.registry, ctx.S(), w) && PlainRegistry(ctx.registry)
    requires TargetOk(ctx.registry, Tuple(members), true)
    requires d.kind in ctx.registry.components && ParseMeans(ctx.S(), p, d)
    requires PlainWords(ctx.registry, d.kind, d.params)
    modifies ctx
    ensures Stated(ctx.registry, ctx.S(), r, Unpack(ctx.registry, members, d, w))
    ensures r.Ok? && Textless(old(ctx.algorithms)) && AddsNoSlots(ctx.registry) && SlotsInSchema(d.params) ==>
              Textless(ctx.algorithms)
  {
    hide Represented, PlainRegistry, FeedsMean, Instantiate, Unpackable, BindAll, UserName, PlainWords, Textless,
         SlotsInSchema, AddsNoSlots;
    ghost var reg := ctx.registry;
    var names := FreeNames(ctx, members, w);
    if names.Err? { return Err; }
    NamesAreUsers(reg, members, w.scope);
    var id;
    r, id := BuildSynthetic(ctx, p, true, d, w);
    if r.Err? { return; }
    var outputs := ctx.registry.components[p.kind].outputs;
    if |outputs| != |names.value| { return Err; }
    ghost var node := Instantiate(reg, d).value;
    BindOutputs(ctx, id, names.value, outputs, node, World(w.scope, w.sinks + SinkOf(reg, d.kind, node)));
  }

  lemma NamesAreUsers(reg: Registry, members: seq<Expr>, sc: Scope)
    requires Unpackable(members, sc) && TargetOk(reg, Tuple(members), true)
    ensures forall x :: x in NamesOf(members) ==> UserName(reg, x)
  {
    forall x | x in NamesOf(members) ensures UserName(reg, x) {
      var i :| 0 <= i < |members| && members[i].id == x;
      assert members[i] in members;
    }
  }

  method HandleConstructorAssignment(ctx: Context, target: Expr, e: Expr, ghost w: World) returns (r: Result<bool>)
    requires Represented(ctx.registry, ctx.S(), w) && PlainRegistry(ctx.registry)
    requires NamesOk(ctx.registry, e) && e.Call? && TargetOk(ctx.registry, target, true)
    modifies ctx
    ensures Stated(ctx.registry, ctx.S(), r, AssignConstructor(ctx.registry, Folded, target, e, w))
    ensures r.Ok? && Textless(old(ctx.algorithms)) && AddsNoSlots(ctx.registry) && SlotlessCall(ctx.registry, e) ==>
              Textless(ctx.algorithms)
  {
    hide Represented, Ready, Steps, PlainRegistry, ParseMeans, NamesOk, AssignInstance, Unpack, UserName, DenoteParse,
         PlainWords, AssignConstructor, Textless, SlotsInSchema, AddsNoSlots, SlotlessCall;
    ghost var reg, s0 := ctx.registry, ctx.S();
    RepresentedScope(reg, s0, w);
    AssignIs(reg, target, e, w);
    var p := ParseConstructorAndFeeds(ctx, e, !e.func.Call?);
    if p.Err? { return Err; }
    StepsRepresented(reg, s0, ctx.S(), w);
    ghost var d := DenoteParse(reg, Folded, e, !e.func.Call?, w.scope).value;
    PlainParse(reg, Folded, e, !e.func.Call?, w.scope);
    StepsTextless(reg, s0, ctx.S());
    if SlotlessCall(reg, e) { SlotlessParse(reg, Folded, e, !e.func.Call?, w.scope); }
    match target
    case Name(x) => r := BuildVariable(ctx, x, p.value, d, w);
    case Tuple(members) => r := UnpackOutputs(ctx, members, p.value, d, w);
    case _ => r := Err;
  }

  lemma AssignIs(reg: Registry, target: Expr, e: Expr, w: World)
    requires e.Call?
    ensures var p, r := DenoteParse(reg, Folded, e, !e.func.Call?, w.scope),
                        AssignConstructor(reg, Folded, target, e, w);
            && (p.None? ==> r.None?)
            && (p.Some? && target.Name? ==> r == AssignInstance(reg, target.id, p.value, w))
            && (p.Some? && target.Tuple? ==> r == Unpack(reg, target.members, p.value, w))
            && (!target.Name? && !target.Tuple? ==> r.None?)
  {
    hide DenoteParse, AssignInstance, Unpack;
  }

  lemma RepresentedScope(reg: Registry, s: State, w: World)
    requires Represented(reg, s, w)
    ensures Ready(reg, s) && ScopeOf(reg, s) == w.scope
  {
  }

  /** x = expression: x becomes another name for the handle. */
  method HandleNonConstructorAssignment(ctx: Context, target: Expr, e: Expr, ghost w: World) returns (r: Result<bool>)
    requires Represented(ctx.registry, ctx.S(), w) && PlainRegistry(ctx.registry)
    requires NamesOk(ctx.registry, e) && TargetOk(ctx.registry, target, false)
    modifies ctx
    ensures Stated(ctx.registry, ctx.S(), r, AssignExpression(ctx.registry, Folded, target, e, w))
    ensures r.Ok? && Textless(old(ctx.algorithms)) ==> Textless(ctx.algorithms)
  {
    hide Represented, Ready, Grows, PlainRegistry, NamesOk, Represents, UserName, Denote, Textless;
    ghost var reg, s0 := ctx.registry, ctx.S();
    RepresentedScope(reg, s0, w);
    if !target.Name? { return Err; }
    var x := target.id;
    UserIsFree(reg, x);
    SameTaken(reg, s0, w, x);
    if x != "_" && x in ctx.varToBinding { return Err; }
    var h := VisitExpr(ctx, e);
    if h.Err? { return Err; }
    StepsRepresented(reg, s0, ctx.S(), w);
    StepsTextless(reg, s0, ctx.S());
    BindVariable(reg, ctx.S(), w, x, h.value, Denote(reg, Folded, e, w.scope).value);
    ctx.varToBinding := ctx.varToBinding[x := NodeHandle(h.value)];
    r := Ok(true);
  }
}
