/** `a and b and c` as a chain of two-input nodes: logical_and(a, logical_and(b, c)). */
module BooleanChain {
  import opened Wrappers
  import opened Graph
  import opened Registry
  import opened NodeIds
  import opened CompilationContext
  import opened Denotation
  import opened Lowering
  import opened TypeChecker

  // ------------------------------------------------------------------------- meaning

  /** The truth of a value, given the truth of everything that is not a connective. */
  ghost predicate Truth(v: Value, leaf: Value -> bool) {
    match v
    case Output(Apply(kind, _, inputs, _, _), "#result") =>
      if (kind == "logical_and" || kind == "logical_or") && inputs.Keys == {"SLOT0", "SLOT1"}
         && |inputs["SLOT0"].values| == 1 && |inputs["SLOT1"].values| == 1 then
        var a := Truth(inputs["SLOT0"].values[0], leaf);
        var b := Truth(inputs["SLOT1"].values[0], leaf);
        if kind == "logical_and" then a && b else a || b
      else leaf(v)
    case _ => leaf(v)
  }

  /** The chain is the conjunction, or the disjunction, of all its operands. */
  lemma {:induction false} ChainIsNary(kind: string, vs: seq<Value>, leaf: Value -> bool)
    requires |vs| >= 2 && kind in {"logical_and", "logical_or"}
    ensures kind == "logical_and" ==>
              (Truth(Output(Nest(kind, vs), "#result"), leaf) <==> forall i :: 0 <= i < |vs| ==> Truth(vs[i], leaf))
    ensures kind == "logical_or" ==>
              (Truth(Output(Nest(kind, vs), "#result"), leaf) <==> exists i :: 0 <= i < |vs| && Truth(vs[i], leaf))
  {
    var rest := if |vs| == 2 then vs[1] else Output(Nest(kind, vs[1..]), "#result");
    var whole := Output(Nest(kind, vs), "#result");
    assert whole.node.inputs["SLOT0"].values[0] == vs[0] && whole.node.inputs["SLOT1"].values[0] == rest;
    if |vs| > 2 {
      var tail := vs[1..];
      ChainIsNary(kind, tail, leaf);
      assert forall i :: 0 < i < |vs| ==> vs[i] == tail[i - 1];
      assert forall i :: 0 <= i < |tail| ==> tail[i] == vs[i + 1];
    }
  }

  // --------------------------------------------------------------------------- nodes

  function Blank(kind: string, id: Id): Node { Node(kind, id, map[], map[], None, None) }

  function Blanks(kind: string, ids: seq<Id>): seq<Node> {
    seq(|ids|, i requires 0 <= i < |ids| => Blank(kind, ids[i]))
  }

  /** The second operand of link i: the next link, or the last handle. */
  function Next(ids: seq<Id>, handles: seq<ValueHandle>, i: nat): ValueHandle
    requires i < |ids| && |handles| == |ids| + 1
  {
    if i + 1 < |ids| then ValueHandle(ids[i + 1], "result") else handles[i + 1]
  }

  function BothSlots(a: ValueHandle, b: ValueHandle): Inputs {
    AddRef(AddRef(map[], "SLOT0", RefTo(a)), "SLOT1", RefTo(b))
  }

  function Link(kind: string, ids: seq<Id>, handles: seq<ValueHandle>, i: nat): Node
    requires i < |ids| && |handles| == |ids| + 1
  {
    Node(kind, ids[i], map[], BothSlots(handles[i], Next(ids, handles, i)), None, None)
  }

  function Links(kind: string, ids: seq<Id>, handles: seq<ValueHandle>): seq<Node>
    requires |handles| == |ids| + 1
  {
    seq(|ids|, i requires 0 <= i < |ids| => Link(kind, ids, handles, i))
  }

  // -------------------------------------------------------------------- reserved ids

  /** Ids reserved since s0, in order, all new. */
  ghost predicate NewIds(reg: Registry, s0: State, used: set<Id>, ids: seq<Id>) {
    && s0.used <= used
    && (forall i :: 0 <= i < |ids| ==>
          ids[i] !in Ids(s0.nodes) && ids[i] in used && Reserved(reg, ids[i]) && PlainName(ids[i]))
    && (forall i, j :: 0 <= i < j < |ids| ==> ids[i] != ids[j])
  }

  lemma IdsOfBlanks(s0: State, kind: string, ids: seq<Id>, id: Id)
    requires id !in Ids(s0.nodes + Blanks(kind, ids))
    ensures id !in Ids(s0.nodes) && id !in ids
  {
    var g := s0.nodes + Blanks(kind, ids);
    assert forall n :: n in s0.nodes ==> n in g;
    forall i | 0 <= i < |ids|
      ensures ids[i] != id
    {
      assert g[|s0.nodes| + i].id == ids[i] && g[|s0.nodes| + i] in g;
    }
  }

  lemma ReserveStep(reg: Registry, s0: State, kind: string, ids: seq<Id>, s: State, id: Id)
    requires Core(reg, s) && PlainRegistry(reg) && IsBase(reg, kind) && NewIds(reg, s0, s.used, ids)
    requires s.nodes == s0.nodes + Blanks(kind, ids)
    requires id !in s.used && exists k :: 0 <= k && id == Candidate(kind, k)
    ensures NewIds(reg, s0, s.used + {id}, ids + [id])
    ensures Core(reg, Pushed(s.(used := s.used + {id}), Blank(kind, id)))
    ensures s.nodes + [Blank(kind, id)] == s0.nodes + Blanks(kind, ids + [id])
  {
    hide Core, PlainRegistry, IsBase, Reserved, PlainName;
    FreshId(reg, s, kind, id);
    UseKeeps(reg, s, id);
    KnownWhenUsed(reg, s.(used := s.used + {id}), id);
    PushKeeps(reg, s.(used := s.used + {id}), Blank(kind, id));
    IdsOfBlanks(s0, kind, ids, id);
    MoreIds(reg, s0, s.used, ids, id);
    assert Blanks(kind, ids + [id]) == Blanks(kind, ids) + [Blank(kind, id)];
  }

  lemma KnownWhenUsed(reg: Registry, s: State, id: Id)
    requires id in s.used && PlainName(id)
    ensures KnownName(reg, s, id)
  {
  }

  lemma MoreIds(reg: Registry, s0: State, used: set<Id>, ids: seq<Id>, id: Id)
    requires NewIds(reg, s0, used, ids) && Reserved(reg, id) && PlainName(id) && id !in Ids(s0.nodes) && id !in ids
    ensures NewIds(reg, s0, used + {id}, ids + [id])
  {
    hide Reserved, PlainName, Ids;
  }

  /** Create all the nodes of the chain, still unwired. */
  method ReserveAll(ctx: Context, kind: string, count: nat) returns (ids: seq<Id>)
    requires Core(ctx.registry, ctx.S()) && PlainRegistry(ctx.registry) && IsBase(ctx.registry, kind)
    modifies ctx
    ensures |ids| == count && NewIds(ctx.registry, old(ctx.S()), ctx.usedNodeIds, ids)
    ensures ctx.S() == old(ctx.S()).(nodes := old(ctx.algorithms) + Blanks(kind, ids), used := ctx.usedNodeIds)
    ensures Core(ctx.registry, ctx.S())
  {
    hide Core, PlainRegistry, IsBase, NewIds, Blanks;
    ids := [];
    ghost var s0 := ctx.S();
    NoneReserved(ctx.registry, s0, kind);
    for i := 0 to count
      invariant |ids| == i && NewIds(ctx.registry, s0, ctx.usedNodeIds, ids)
      invariant ctx.S() == s0.(nodes := s0.nodes + Blanks(kind, ids), used := ctx.usedNodeIds)
      invariant Core(ctx.registry, ctx.S())
    {
      ghost var s := ctx.S();
      var id := ctx.UniqueNodeId(kind);
      ReserveStep(ctx.registry, s0, kind, ids, s, id);
      ctx.Push(Blank(kind, id));
      ids := ids + [id];
    }
  }

  lemma NoneReserved(reg: Registry, s0: State, kind: string)
    ensures NewIds(reg, s0, s0.used, []) && s0.nodes + Blanks(kind, []) == s0.nodes
  {
  }

  // -------------------------------------------------------------------------- wiring

  /** Both slots of the link at position t, once each. */
  method WireLink(ctx: Context, t: nat, a: ValueHandle, b: ValueHandle)
    requires t < |ctx.algorithms| && ctx.algorithms[t].inputs == map[]
    modifies ctx`algorithms
    ensures ctx.S() == Rewired(old(ctx.S()), t, BothSlots(a, b))
  {
    PushInput(ctx, t, "SLOT0", a);
    PushInput(ctx, t, "SLOT1", b);
  }

  /** The first i links are wired. */
  ghost predicate WiredTo(nodes: seq<Node>, s0: State, kind: string, ids: seq<Id>, handles: seq<ValueHandle>, i: nat)
    requires |handles| == |ids| + 1
  {
    i <= |ids| && nodes == s0.nodes + Links(kind, ids, handles)[..i] + Blanks(kind, ids)[i..]
  }

  lemma WireStep(s0: State, nodes: seq<Node>, kind: string, ids: seq<Id>, handles: seq<ValueHandle>, i: nat)
    requires |handles| == |ids| + 1 && i < |ids| && WiredTo(nodes, s0, kind, ids, handles, i)
    ensures |s0.nodes| + i < |nodes| && nodes[|s0.nodes| + i] == Blank(kind, ids[i])
    ensures WiredTo(nodes[|s0.nodes| + i := Link(kind, ids, handles, i)], s0, kind, ids, handles, i + 1)
  {
    var ls, bs, k := Links(kind, ids, handles), Blanks(kind, ids), |s0.nodes|;
    assert ls[..i + 1] == ls[..i] + [Link(kind, ids, handles, i)];
    assert bs[i..] == [Blank(kind, ids[i])] + bs[i + 1..];
    assert nodes == (s0.nodes + ls[..i]) + [Blank(kind, ids[i])] + bs[i + 1..];
    assert nodes[k + i := Link(kind, ids, handles, i)] ==
             (s0.nodes + ls[..i]) + [Link(kind, ids, handles, i)] + bs[i + 1..];
  }

  method WireAt(ctx: Context, ghost s0: State, k: nat, kind: string, ids: seq<Id>, handles: seq<ValueHandle>, i: nat,
                second: ValueHandle)
    requires k == |s0.nodes| && |handles| == |ids| + 1 && i < |ids| && second == Next(ids, handles, i)
    requires WiredTo(ctx.algorithms, s0, kind, ids, handles, i)
    modifies ctx`algorithms
    ensures WiredTo(ctx.algorithms, s0, kind, ids, handles, i + 1)
    ensures ctx.S() == old(ctx.S()).(nodes := ctx.algorithms)
  {
    WireStep(s0, ctx.algorithms, kind, ids, handles, i);
    WireLink(ctx, k + i, handles[i], second);
  }

  /** Two operands make one link; otherwise the first, the middle ones and the last differ. */
  method WireChain(ctx: Context, ghost s0: State, k: nat, kind: string, ids: seq<Id>, handles: seq<ValueHandle>)
    requires k == |s0.nodes| && |handles| == |ids| + 1 >= 2
    requires ctx.algorithms == s0.nodes + Blanks(kind, ids)
    modifies ctx`algorithms
    ensures ctx.S() == old(ctx.S()).(nodes := s0.nodes + Links(kind, ids, handles))
  {
    hide Links, Blanks, Link;
    NothingWired(s0, ctx.algorithms, kind, ids, handles);
    if |handles| == 2 {
      WireAt(ctx, s0, k, kind, ids, handles, 0, handles[1]);
    } else {
      WireAt(ctx, s0, k, kind, ids, handles, 0, ValueHandle(ids[1], "result"));
      var last := |ids| - 1;
      for i := 1 to last
        invariant WiredTo(ctx.algorithms, s0, kind, ids, handles, i)
        invariant ctx.S() == old(ctx.S()).(nodes := ctx.algorithms)
      {
        WireAt(ctx, s0, k, kind, ids, handles, i, ValueHandle(ids[i + 1], "result"));
      }
      WireAt(ctx, s0, k, kind, ids, handles, last, handles[last + 1]);
    }
    AllWired(s0, ctx.algorithms, kind, ids, handles);
  }

  lemma NothingWired(s0: State, nodes: seq<Node>, kind: string, ids: seq<Id>, handles: seq<ValueHandle>)
    requires |handles| == |ids| + 1 && nodes == s0.nodes + Blanks(kind, ids)
    ensures WiredTo(nodes, s0, kind, ids, handles, 0)
  {
  }

  lemma AllWired(s0: State, nodes: seq<Node>, kind: string, ids: seq<Id>, handles: seq<ValueHandle>)
    requires |handles| == |ids| + 1 && WiredTo(nodes, s0, kind, ids, handles, |ids|)
    ensures nodes == s0.nodes + Links(kind, ids, handles)
  {
  }

  // --------------------------------------------------------------------- completing

  /** s0 with the ids reserved and the first i links pushed, wired but without terms. */
  ghost function Prefix(s0: State, used: set<Id>, kind: string, ids: seq<Id>, handles: seq<ValueHandle>, i: nat): State
    requires |handles| == |ids| + 1 && i <= |ids|
  {
    s0.(used := used, nodes := s0.nodes + Links(kind, ids, handles)[..i])
  }

  lemma PrefixPush(s0: State, used: set<Id>, kind: string, ids: seq<Id>, handles: seq<ValueHandle>, i: nat)
    requires |handles| == |ids| + 1 && i < |ids|
    ensures Prefix(s0, used, kind, ids, handles, i + 1)
            == Pushed(Prefix(s0, used, kind, ids, handles, i), Link(kind, ids, handles, i))
  {
    assert Links(kind, ids, handles)[..i + 1] == Links(kind, ids, handles)[..i] + [Link(kind, ids, handles, i)];
  }

  lemma {:induction false} PrefixCore(reg: Registry, s0: State, used: set<Id>, kind: string, ids: seq<Id>,
                                      handles: seq<ValueHandle>, i: nat)
    requires Core(reg, s0) && NewIds(reg, s0, used, ids) && |handles| == |ids| + 1 && i <= |ids|
    ensures Core(reg, Prefix(s0, used, kind, ids, handles, i))
    ensures i < |ids| ==> ids[i] !in Ids(Prefix(s0, used, kind, ids, handles, i).nodes)
  {
    if i == 0 {
      UseAllKeeps(reg, s0, used);
      assert s0.nodes + [] == s0.nodes;
    } else {
      PrefixCore(reg, s0, used, kind, ids, handles, i - 1);
      PrefixPush(s0, used, kind, ids, handles, i - 1);
      PushKeeps(reg, Prefix(s0, used, kind, ids, handles, i - 1), Link(kind, ids, handles, i - 1));
      if i < |ids| { PrefixIds(reg, s0, used, kind, ids, handles, i); }
    }
  }

  lemma PrefixIds(reg: Registry, s0: State, used: set<Id>, kind: string, ids: seq<Id>, handles: seq<ValueHandle>,
                  i: nat)
    requires NewIds(reg, s0, used, ids) && |handles| == |ids| + 1 && i < |ids|
    ensures ids[i] !in Ids(Prefix(s0, used, kind, ids, handles, i).nodes)
  {
    forall n | n in Prefix(s0, used, kind, ids, handles, i).nodes
      ensures n.id != ids[i]
    {
    }
  }

  /** Links i and above have their terms, built from the last one up. */
  ghost predicate ChainDone(reg: Registry, s0: State, used: set<Id>, s: State, kind: string, ids: seq<Id>,
                            handles: seq<ValueHandle>, ds: seq<Den>, i: nat)
    requires |handles| == |ids| + 1 == |ds| && i <= |ids|
  {
    && Core(reg, s) && Grows(reg, Prefix(s0, used, kind, ids, handles, i), s, -1)
    && s.nodes == s0.nodes + Links(kind, ids, handles)
    && (i < |ids| ==>
          Represents(s, ValueHandle(ids[i], "result"), Den(Nest(kind, Values(ds[i..])), "result", Some(Boolean))))
  }

  lemma ChainStart(reg: Registry, s0: State, used: set<Id>, s: State, kind: string, ids: seq<Id>,
                   handles: seq<ValueHandle>, ds: seq<Den>)
    requires Core(reg, s0) && NewIds(reg, s0, used, ids) && |handles| == |ids| + 1 == |ds|
    requires s == s0.(used := used, nodes := s0.nodes + Links(kind, ids, handles))
    ensures ChainDone(reg, s0, used, s, kind, ids, handles, ds, |ids|)
  {
    PrefixCore(reg, s0, used, kind, ids, handles, |ids|);
    assert Links(kind, ids, handles)[..|ids|] == Links(kind, ids, handles);
    GrowsRefl(reg, s, -1);
  }

  lemma NestStep(kind: string, ds: seq<Den>, i: nat, dn: Den)
    requires i + 1 < |ds|
    requires dn == if i + 2 < |ds| then Den(Nest(kind, Values(ds[i + 1..])), "result", Some(Boolean)) else ds[i + 1]
    ensures Nest(kind, Values(ds[i..])) ==
              Built(kind, map["SLOT0" := Args([ValueOf(ds[i])]), "SLOT1" := Args([ValueOf(dn)])])
  {
    var vs := Values(ds[i..]);
    assert vs[0] == ValueOf(ds[i]) && vs[1] == ValueOf(ds[i + 1]);
    assert vs[1..] == Values(ds[i + 1..]);
    assert "#" + "result" == "#result";
  }

  /** Completing one link whose two operands are ready. */
  lemma LinkStep(reg: Registry, p: State, n: Node, s: State, a: ValueHandle, da: Den, b: ValueHandle, db: Den)
    requires Core(reg, p) && n.id !in Ids(p.nodes) && Reserved(reg, n.id) && !IsSink(reg, n.kind)
    requires Core(reg, s) && Grows(reg, Pushed(p, n), s, -1)
    requires Represents(s, a, da) && Represents(s, b, db)
    requires n == Node(n.kind, n.id, map[], BothSlots(a, b), None, None)
    ensures |p.nodes| < |s.nodes| && s.nodes[|p.nodes|] == n
    ensures var f := Filled(s, |p.nodes|, n, Some(Boolean));
            Core(reg, f) && Grows(reg, p, f, -1)
            && Represents(f, ValueHandle(n.id, "result"),
                          Den(Built(n.kind, map["SLOT0" := Args([ValueOf(da)]), "SLOT1" := Args([ValueOf(db)])]),
                              "result", Some(Boolean)))
  {
    hide Core, Grows, Wireable, IsSink, Wire;
    NoInputs(s.val);
    WireHandle(reg, s, map[], "SLOT0", a, da);
    WireHandle(reg, s, AddRef(map[], "SLOT0", RefTo(a)), "SLOT1", b, db);
    WireTwo("SLOT0", ValueOf(da), "SLOT1", ValueOf(db));
    PlaceholderWaits(reg, p, n, s, -1);
    GrowsWeaken(reg, Pushed(p, n), s, |p.nodes|);
    FinishPlaceholder(reg, p, n, s, n, Some(Boolean));
    BuiltIsConfigured(n.kind, InputsMeaning(n.inputs, s.val), s.val);
  }

  lemma ChainStep(reg: Registry, s0: State, used: set<Id>, s: State, kind: string, ids: seq<Id>,
                  handles: seq<ValueHandle>, ds: seq<Den>, i: nat)
    requires Core(reg, s0) && NewIds(reg, s0, used, ids) && AllRepresent(s0, handles, ds) && !IsSink(reg, kind)
    requires |handles| == |ids| + 1 && i < |ids| && ChainDone(reg, s0, used, s, kind, ids, handles, ds, i + 1)
    ensures |s0.nodes| + i < |s.nodes| && s.nodes[|s0.nodes| + i] == Link(kind, ids, handles, i)
    ensures ChainDone(reg, s0, used, Filled(s, |s0.nodes| + i, Link(kind, ids, handles, i), Some(Boolean)), kind, ids,
                      handles, ds, i)
  {
    hide Core, Grows, IsSink, Represents, BothSlots, Prefix, Nest, AllRepresent, PlainName, Reserved, NodeValue;
    var p, n := Prefix(s0, used, kind, ids, handles, i), Link(kind, ids, handles, i);
    Lengths(s0, handles, ds);
    PrefixCore(reg, s0, used, kind, ids, handles, i);
    PrefixPush(s0, used, kind, ids, handles, i);
    OperandStays(reg, s0, used, s, kind, ids, handles, ds, i, i);
    OperandStays(reg, s0, used, s, kind, ids, handles, ds, i, i + 1);
    var b := Next(ids, handles, i);
    var db := if i + 2 < |ds| then Den(Nest(kind, Values(ds[i + 1..])), "result", Some(Boolean)) else ds[i + 1];
    LinkStep(reg, p, n, s, handles[i], ds[i], b, db);
    NestStep(kind, ds, i, db);
    assert s.nodes[|s0.nodes| + i := n] == s.nodes;
  }

  lemma OperandStays(reg: Registry, s0: State, used: set<Id>, s: State, kind: string, ids: seq<Id>,
                     handles: seq<ValueHandle>, ds: seq<Den>, i: nat, k: nat)
    requires Core(reg, s0) && NewIds(reg, s0, used, ids) && AllRepresent(s0, handles, ds)
    requires |handles| == |ids| + 1 && i < |ids| && ChainDone(reg, s0, used, s, kind, ids, handles, ds, i + 1)
    requires k < |handles|
    ensures Represents(s, handles[k], ds[k])
  {
    hide Core, NodesGrow, ValuesGrow, TypesStay, BindingsStay, Quiet, Reserved;
    var p := Prefix(s0, used, kind, ids, handles, i + 1);
    PrefixCore(reg, s0, used, kind, ids, handles, i + 1);
    assert Represents(p, handles[k], ds[k]);
    StillRepresents(reg, p, s, -1, handles[k], ds[k]);
  }

  lemma UseAllKeeps(reg: Registry, s: State, used: set<Id>)
    requires Core(reg, s) && s.used <= used
    ensures Core(reg, s.(used := used))
  {
    var s' := s.(used := used);
    forall n | n in s'.nodes
      ensures KnownName(reg, s', n.id)
    {
      assert KnownName(reg, s, n.id);
    }
    forall n | n in s'.nodes && n.id in s'.val
      ensures Finished(s', n)
    {
      assert Finished(s, n);
    }
  }

  /** |handles| - 1 links, wired once each; the first one is the whole chain. */
  method BuildChain(ctx: Context, kind: string, handles: seq<ValueHandle>, ghost ds: seq<Den>) returns (h: ValueHandle)
    requires Ready(ctx.registry, ctx.S()) && PlainRegistry(ctx.registry) && IsBase(ctx.registry, kind)
    requires !IsSink(ctx.registry, kind)
    requires |handles| >= 2 && AllRepresent(ctx.S(), handles, ds)
    modifies ctx
    ensures Steps(ctx.registry, old(ctx.S()), ctx.S())
    ensures Represents(ctx.S(), h, Den(Nest(kind, Values(ds)), "result", Some(Boolean)))
    ensures exists ids :: |ids| == |handles| - 1 && ctx.algorithms == old(ctx.algorithms) + Links(kind, ids, handles)
  {
    hide Core, Bound, Grows, PlainRegistry, IsBase, IsSink, NewIds, Links, Nest, ChainDone, AllRepresent, Link;
    ghost var reg, s0 := ctx.registry, ctx.S();
    var k := |ctx.algorithms|;
    var ids := ReserveAll(ctx, kind, |handles| - 1);
    ghost var used := ctx.usedNodeIds;
    WireChain(ctx, s0, k, kind, ids, handles);
    Lengths(s0, handles, ds);
    ChainStart(reg, s0, used, ctx.S(), kind, ids, handles, ds);
    var i: nat := |ids|;
    while i > 0
      invariant i <= |ids|
      invariant ChainDone(reg, s0, used, ctx.S(), kind, ids, handles, ds, i)
    {
      i := i - 1;
      ChainStep(reg, s0, used, ctx.S(), kind, ids, handles, ds, i);
      FillsLink(ctx.algorithms, k + i, Link(kind, ids, handles, i));
      ctx.Fill(k + i, ctx.algorithms[k + i].inputs, Some(Boolean));
    }
    ChainEnd(reg, s0, used, ctx.S(), kind, ids, handles, ds);
    h := ValueHandle(ids[0], "result");
  }

  lemma FillsLink(g: seq<Node>, t: nat, n: Node)
    requires t < |g| && g[t] == n
    ensures g[t].(inputs := g[t].inputs) == n
  {
  }

  lemma Lengths(s: State, hs: seq<ValueHandle>, ds: seq<Den>)
    requires AllRepresent(s, hs, ds)
    ensures |hs| == |ds|
  {
  }

  lemma ChainEnd(reg: Registry, s0: State, used: set<Id>, s: State, kind: string, ids: seq<Id>,
                 handles: seq<ValueHandle>, ds: seq<Den>)
    requires Ready(reg, s0) && NewIds(reg, s0, used, ids) && |handles| == |ids| + 1 == |ds| >= 2
    requires ChainDone(reg, s0, used, s, kind, ids, handles, ds, 0)
    ensures Steps(reg, s0, s) && s.nodes == s0.nodes + Links(kind, ids, handles)
    ensures Represents(s, ValueHandle(ids[0], "result"), Den(Nest(kind, Values(ds)), "result", Some(Boolean)))
  {
    var p := Prefix(s0, used, kind, ids, handles, 0);
    assert p == s0.(used := used) by { assert s0.nodes + [] == s0.nodes; }
    UsedGrows(reg, s0, p, s);
    StepsTo(reg, s0, s);
    assert ds[0..] == ds;
  }
}
