/** Output types of handles, conversions between them, and the wiring of component inputs. */
module TypeChecker {
  import opened Wrappers
  import opened Graph
  import opened Registry
  import opened NodeIds
  import opened CompilationContext
  import opened Denotation
  import opened Lowering

  function OutputTypeAt(ctx: Context, h: ValueHandle): DataType
    reads ctx
  {
    if h.nodeId in ctx.nodeOutputTypes && h.handle in ctx.nodeOutputTypes[h.nodeId]
    then ctx.nodeOutputTypes[h.nodeId][h.handle]
    else if h.nodeId in ctx.nodeLookup && ctx.nodeLookup[h.nodeId] < |ctx.algorithms|
    then KindType(ctx.registry, ctx.algorithms[ctx.nodeLookup[h.nodeId]].kind, h.handle)
    else Any
  }

  lemma TypeAgrees(ctx: Context, h: ValueHandle, d: Den)
    requires Core(ctx.registry, ctx.S()) && Represents(ctx.S(), h, d)
    ensures OutputTypeAt(ctx, h) == TypeOf(ctx.registry, d)
  {
    KindAgrees(ctx.registry, ctx.S(), h, d);
  }

  lemma CastIsNoSink(reg: Registry, source: DataType, target: DataType)
    requires PlainRegistry(reg) && CastKind(source, target).Some?
    ensures !IsSink(reg, CastKind(source, target).value)
  {
  }

  /** Convert a handle when its type does not fit; fail when no conversion exists. */
  method CastTo(ctx: Context, h: ValueHandle, target: DataType, ghost d: Den) returns (r: Result<ValueHandle>)
    requires Core(ctx.registry, ctx.S()) && PlainRegistry(ctx.registry) && Represents(ctx.S(), h, d)
    modifies ctx
    ensures r.Ok? <==> Coerce(ctx.registry, d, target).Some?
    ensures Core(ctx.registry, ctx.S()) && Grows(ctx.registry, old(ctx.S()), ctx.S(), -1)
    ensures r.Ok? ==> Represents(ctx.S(), r.value, Coerce(ctx.registry, d, target).value)
    ensures r.Ok? ==> Via(ctx.algorithms, r.value.nodeId, h.nodeId)
  {
    TypeAgrees(ctx, h, d);
    var source := OutputTypeAt(ctx, h);
    GrowsRefl(ctx.registry, ctx.S(), -1);
    hide PlainRegistry, IsSink;
    if Compatible(source, target) {
      return Ok(h);
    }
    var cast := CastKind(source, target);
    if cast.None? {
      return Err;
    }
    CastIsNoSink(ctx.registry, source, target);
    var base := if cast.value == "stringify" then "stringify" else "static_cast";
    NoInputs(ctx.val);
    WireHandle(ctx.registry, ctx.S(), map[], "SLOT", h, d);
    WireOne("SLOT", ValueOf(d));
    var inputs := AddRef(map[], "SLOT", RefTo(h));
    var id := EmitBuilt(ctx, base, cast.value, inputs, Some(target), true, map["SLOT" := Args([ValueOf(d)])]);
    ConversionReads(ctx.registry, old(ctx.S()), ctx.algorithms, cast.value, id, h, d);
    r := Ok(ValueHandle(id, "result"));
  }

  lemma ConversionReads(reg: Registry, s: State, nodes: seq<Node>, kind: string, id: Id, h: ValueHandle, d: Den)
    requires Core(reg, s) && Represents(s, h, d)
    requires nodes == s.nodes + [Node(kind, id, map[], AddRef(map[], "SLOT", RefTo(h)), None, None)]
    ensures Via(nodes, id, h.nodeId)
  {
    RefMeans(reg, s, h, d);
    hide Core, Represents, HasHash, NodeOf;
    var m := nodes[|s.nodes|];
    SlotReads(m, RefTo(h));
    assert m in nodes;
  }

  lemma SlotReads(n: Node, ref: string)
    requires n.inputs == AddRef(map[], "SLOT", ref)
    ensures NodeOf(ref) in InputIds(n)
  {
    assert ref in n.inputs["SLOT"] && ref in InputRefs(n);
  }

  // -------------------------------------------------------------------------- wiring

  /** One feed step of a call: positional and keyword arguments, already lowered. */
  datatype Feed = Feed(args: seq<ValueHandle>, kwargs: map<string, ValueHandle>)

  ghost predicate FeedMeans(s: State, f: Feed, fd: FeedDen) {
    && |f.args| == |fd.args| && (forall i :: 0 <= i < |f.args| ==> Represents(s, f.args[i], fd.args[i]))
    && f.kwargs.Keys == fd.kwargs.Keys
    && (forall k :: k in f.kwargs ==> Represents(s, f.kwargs[k], fd.kwargs[k]))
  }

  lemma FeedStays(reg: Registry, s0: State, s1: State, t: int, f: Feed, fd: FeedDen)
    requires Core(reg, s0) && Grows(reg, s0, s1, t) && FeedMeans(s0, f, fd)
    ensures FeedMeans(s1, f, fd)
  {
    forall i | 0 <= i < |f.args| ensures Represents(s1, f.args[i], fd.args[i]) {
      StillRepresents(reg, s0, s1, t, f.args[i], fd.args[i]);
    }
    forall k | k in f.kwargs ensures Represents(s1, f.kwargs[k], fd.kwargs[k]) {
      StillRepresents(reg, s0, s1, t, f.kwargs[k], fd.kwargs[k]);
    }
  }

  /** Node t is waiting for inputs and those wired so far mean `have`. */
  ghost predicate Waiting(s: State, t: nat, n: Node, have: map<string, Args>) {
    && t < |s.nodes| && n.id !in s.val
    && s.nodes[t] == n.(inputs := s.nodes[t].inputs)
    && Wireable(s.nodes[t].inputs, s.val.Keys)
    && InputsMeaning(s.nodes[t].inputs, s.val) == have
  }

  lemma WaitingStays(reg: Registry, s0: State, s1: State, t: nat, n: Node, have: map<string, Args>)
    requires Core(reg, s0) && Core(reg, s1) && Waiting(s0, t, n, have) && Grows(reg, s0, s1, -1)
    ensures Waiting(s1, t, n, have)
  {
    WireablyStays(s0.nodes[t].inputs, s0.val, s1.val);
    assert s1.nodes[t].id == n.id;
    forall i | |s0.nodes| <= i < |s1.nodes| ensures s1.nodes[i].id != n.id { }
    assert n.id !in Ids(s1.nodes[|s0.nodes|..]);
  }

  /** Replacing a waiting node by another version of it. */
  function Replaced(s: State, t: nat, n: Node): State
    requires t < |s.nodes|
  {
    s.(nodes := s.nodes[t := n])
  }

  function Rewired(s: State, t: nat, inputs: Inputs): State
    requires t < |s.nodes|
  {
    Replaced(s, t, s.nodes[t].(inputs := inputs))
  }

  /** Members of the vector other than the replaced node. */
  lemma ReplacedMembers(s: State, t: nat, n: Node)
    requires t < |s.nodes| && n.id == s.nodes[t].id && n.id !in s.val
    ensures forall x :: x in s.nodes && x.id in s.val ==> x in Replaced(s, t, n).nodes
    ensures forall m :: m in Replaced(s, t, n).nodes ==> m == n || m in s.nodes
  {
    var s' := Replaced(s, t, n);
    forall x | x in s.nodes && x.id in s.val ensures x in s'.nodes {
      var i :| 0 <= i < |s.nodes| && s.nodes[i] == x;
      assert s'.nodes[i] == x;
    }
  }

  lemma ReplacedKeeps(reg: Registry, s: State, t: nat, n: Node)
    requires Core(reg, s) && t < |s.nodes| && n.id == s.nodes[t].id && n.id !in s.val
    ensures Core(reg, Replaced(s, t, n))
  {
    hide NodeValue, Grounded, KnownName, Near;
    var s' := Replaced(s, t, n);
    DistinctUpdate(s.nodes, t, n);
    ReplacedMembers(s, t, n);
    assert s.nodes[t] in s.nodes;
    forall m | m in s'.nodes ensures KnownName(reg, s', m.id) {
      assert KnownName(reg, s, m.id);
      SameName(reg, s, s', m.id);
    }
    forall m | m in s'.nodes && m.id in s'.val ensures Finished(s', m) {
      assert m in s.nodes && Finished(s, m);
      GroundedReads(m, s.val.Keys);
      NearStays(s.nodes, s'.nodes, m, s.val.Keys);
    }
  }

  lemma SameName(reg: Registry, s: State, s': State, id: Id)
    requires KnownName(reg, s, id) && s'.used == s.used
    ensures KnownName(reg, s', id)
  {
  }

  lemma ReplacedGrows(reg: Registry, s: State, t: nat, n: Node)
    requires t < |s.nodes| && n.id == s.nodes[t].id && n.kind == s.nodes[t].kind
    ensures Grows(reg, s, Replaced(s, t, n), t)
  {
    var s' := Replaced(s, t, n);
    assert s'.nodes[|s.nodes|..] == [];
  }

  /** The state after one more reference is pushed to an input of node t. */
  function WithInput(s: State, t: nat, name: string, h: ValueHandle): State
    requires t < |s.nodes|
  {
    Rewired(s, t, AddRef(s.nodes[t].inputs, name, RefTo(h)))
  }

  lemma WithInputKeeps(reg: Registry, s: State, t: nat, name: string, h: ValueHandle, n: Node, have: map<string, Args>,
                       c: Den)
    requires Core(reg, s) && Waiting(s, t, n, have) && Represents(s, h, c)
    ensures Core(reg, WithInput(s, t, name, h))
    ensures Grows(reg, s, WithInput(s, t, name, h), t)
    ensures Waiting(WithInput(s, t, name, h), t, n, Wire(have, name, ValueOf(c)))
  {
    var inputs := AddRef(s.nodes[t].inputs, name, RefTo(h));
    WireHandle(reg, s, s.nodes[t].inputs, name, h, c);
    ReplacedKeeps(reg, s, t, s.nodes[t].(inputs := inputs));
    ReplacedGrows(reg, s, t, s.nodes[t].(inputs := inputs));
  }

  /** What was near node t still is. */
  ghost predicate NearGrows(s0: State, s1: State, t: nat) {
    t < |s0.nodes| && t < |s1.nodes|
    && forall d :: Near(s0.nodes, s0.nodes[t], d) ==> Near(s1.nodes, s1.nodes[t], d)
  }

  ghost predicate NearArgs(s: State, t: nat, args: seq<ValueHandle>, i: nat) {
    t < |s.nodes| && i <= |args| && forall k :: 0 <= k < i ==> Near(s.nodes, s.nodes[t], args[k].nodeId)
  }

  lemma NearArgsGrow(s0: State, s1: State, t: nat, args: seq<ValueHandle>, i: nat)
    requires NearArgs(s0, t, args, i) && NearGrows(s0, s1, t)
    ensures NearArgs(s1, t, args, i)
  {
  }

  lemma NearGrowsTrans(a: State, b: State, c: State, t: nat)
    requires NearGrows(a, b, t) && NearGrows(b, c, t)
    ensures NearGrows(a, c, t)
  {
  }

  lemma NearMoves(before: seq<Node>, after: seq<Node>, n: Node, n': Node, known: set<Id>)
    requires InputIds(n) <= known && InputIds(n) <= InputIds(n')
    requires forall m :: m in before && m.id in known ==> m in after
    ensures forall d :: Near(before, n, d) ==> Near(after, n', d)
  {
  }

  lemma ViaIsNear(before: seq<Node>, after: seq<Node>, n': Node, known: set<Id>, c: Id, d: Id)
    requires Via(before, c, d) && c in known && c in InputIds(n')
    requires forall m :: m in before && m.id in known ==> m in after
    ensures Near(after, n', d)
  {
  }

  /** Known nodes stay while an unknown one is rewired. */
  lemma KnownStay(reg: Registry, s: State, s1: State, t: nat, inputs: Inputs)
    requires Grows(reg, s, s1, -1) && t < |s.nodes| && s.nodes[t].id !in s1.val
    ensures forall m :: m in s.nodes && m.id in s.val ==> m in Rewired(s1, t, inputs).nodes
    ensures forall m :: m in s1.nodes && m.id in s1.val ==> m in Rewired(s1, t, inputs).nodes
  {
    var after := Rewired(s1, t, inputs).nodes;
    forall m | m in s1.nodes && m.id in s1.val
      ensures m in after
    {
      var i :| 0 <= i < |s1.nodes| && s1.nodes[i] == m;
      assert after[i] == m;
    }
    forall m | m in s.nodes && m.id in s.val
      ensures m in after
    {
      var i :| 0 <= i < |s.nodes| && s.nodes[i] == m;
      assert s1.nodes[i] in s1.nodes;
    }
  }

  /** Wiring one more reference brings its source near, and keeps near what was. */
  lemma WithInputNear(reg: Registry, s: State, s1: State, t: nat, name: string, h: ValueHandle, c: Den,
                      n: Node, have: map<string, Args>, d: Id)
    requires Waiting(s, t, n, have) && Core(reg, s1) && Grows(reg, s, s1, -1) && n.id !in s1.val
    requires Represents(s1, h, c) && Via(s1.nodes, h.nodeId, d)
    ensures NearGrows(s, WithInput(s1, t, name, h), t)
    ensures var s2 := WithInput(s1, t, name, h); Near(s2.nodes, s2.nodes[t], d)
  {
    var s2 := WithInput(s1, t, name, h);
    RefMeans(reg, s1, h, c);
    AddRefIds(s1.nodes[t], name, RefTo(h));
    KnownStay(reg, s, s1, t, s2.nodes[t].inputs);
    WiredIds(s, t, n, have);
    hide Core, Grows, Near, Via, AddRef, Wireable;
    NearMoves(s.nodes, s2.nodes, s.nodes[t], s2.nodes[t], s.val.Keys);
    ViaIsNear(s1.nodes, s2.nodes, s2.nodes[t], s1.val.Keys, h.nodeId, d);
  }

  lemma WiredIds(s: State, t: nat, n: Node, have: map<string, Args>)
    requires Waiting(s, t, n, have)
    ensures InputIds(s.nodes[t]) <= s.val.Keys
  {
  }

  lemma AddRefIds(n: Node, name: string, ref: string)
    ensures InputIds(n) + {NodeOf(ref)} <= InputIds(n.(inputs := AddRef(n.inputs, name, ref)))
  {
    var n' := n.(inputs := AddRef(n.inputs, name, ref));
    assert ref in n'.inputs[name] && ref in InputRefs(n');
    forall r | r in InputRefs(n)
      ensures r in InputRefs(n')
    {
      var k :| k in n.inputs && r in n.inputs[k];
      assert r in n'.inputs[k];
    }
  }

  /** Since s0 only node t has been filled in, and its inputs now mean `have`. */
  ghost predicate Wiring(reg: Registry, s0: State, s: State, t: nat, n: Node, have: map<string, Args>) {
    Core(reg, s0) && t < |s0.nodes| && Core(reg, s) && Grows(reg, s0, s, t) && Waiting(s, t, n, have)
  }

  lemma WiringStep(reg: Registry, s0: State, s: State, s1: State, t: nat, name: string, h: ValueHandle,
                   n: Node, have: map<string, Args>, c: Den)
    requires Wiring(reg, s0, s, t, n, have)
    requires Core(reg, s1) && Grows(reg, s, s1, -1) && Represents(s1, h, c)
    ensures t < |s1.nodes| && n.id !in s1.val
    ensures Wiring(reg, s0, WithInput(s1, t, name, h), t, n, Wire(have, name, ValueOf(c)))
  {
    WaitingStays(reg, s, s1, t, n, have);
    WithInputKeeps(reg, s1, t, name, h, n, have, c);
    GrowsWeaken(reg, s, s1, t);
    GrowsTrans(reg, s0, s, s1, t);
    GrowsTrans(reg, s0, s1, WithInput(s1, t, name, h), t);
  }

  /** Convert one argument and append it to an input of node t. */
  method WireOneInput(ctx: Context, t: nat, name: string, target: DataType, h: ValueHandle,
                      ghost s0: State, ghost n: Node, ghost have: map<string, Args>, ghost d: Den)
    returns (r: Result<bool>)
    requires PlainRegistry(ctx.registry)
    requires Wiring(ctx.registry, s0, ctx.S(), t, n, have) && Represents(s0, h, d)
    modifies ctx
    ensures r.Ok? <==> Coerce(ctx.registry, d, target).Some?
    ensures r.Ok? ==>
              Wiring(ctx.registry, s0, ctx.S(), t, n, Wire(have, name, ValueOf(Coerce(ctx.registry, d, target).value)))
    ensures r.Ok? ==> NearGrows(old(ctx.S()), ctx.S(), t) && Near(ctx.algorithms, ctx.algorithms[t], h.nodeId)
  {
    ghost var s := ctx.S();
    StillRepresents(ctx.registry, s0, s, t, h, d);
    hide Core, Grows, Represents, PlainRegistry, Coerce, Near, Via;
    var cast := CastTo(ctx, h, target, d);
    if cast.Err? { return Err; }
    WiringStep(ctx.registry, s0, s, ctx.S(), t, name, cast.value, n, have, Coerce(ctx.registry, d, target).value);
    WithInputNear(ctx.registry, s, ctx.S(), t, name, cast.value, Coerce(ctx.registry, d, target).value, n, have,
                  h.nodeId);
    PushInput(ctx, t, name, cast.value);
    r := Ok(true);
  }

  method PushInput(ctx: Context, t: nat, name: string, h: ValueHandle)
    requires t < |ctx.algorithms|
    modifies ctx`algorithms
    ensures ctx.S() == WithInput(old(ctx.S()), t, name, h)
  {
    var inputs := AddRef(ctx.algorithms[t].inputs, name, RefTo(h));
    ctx.algorithms := ctx.algorithms[t := ctx.algorithms[t].(inputs := inputs)];
  }

  lemma NearGrowsRefl(reg: Registry, s0: State, s: State, t: nat, n: Node, have: map<string, Args>)
    requires Wiring(reg, s0, s, t, n, have)
    ensures NearGrows(s, s, t)
  {
  }

  lemma NoKeywordsYet(reg: Registry, c: Component, s0: State, s: State, t: nat, n: Node, have: map<string, Args>,
                      kd: map<string, Den>)
    requires Wiring(reg, s0, s, t, n, have)
    ensures KeywordsWired(reg, c, s0, s, s, t, n, have, kd, map[])
  {
    NearGrowsRefl(reg, s0, s, t, n, have);
    assert WireEach(have, map[]) == have;
  }

  lemma WireEachMore(inputs: map<string, Args>, vs: map<string, Value>, k: string, v: Value)
    requires k !in vs
    ensures Wire(WireEach(inputs, vs), k, v) == WireEach(inputs, vs[k := v])
  {
  }

  ghost predicate Collected(reg: Registry, c: Component, kd: map<string, Den>, vs: map<string, Value>) {
    vs.Keys <= kd.Keys
    && forall k {:trigger k in vs} :: k in vs ==> KeywordFits(reg, c, kd, k) && vs[k] == KeywordValue(reg, c, kd, k)
  }

  lemma CollectMore(reg: Registry, c: Component, kd: map<string, Den>, vs: map<string, Value>, k: string)
    requires Collected(reg, c, kd, vs) && k in kd && KeywordFits(reg, c, kd, k)
    ensures Collected(reg, c, kd, vs[k := KeywordValue(reg, c, kd, k)])
  {
  }

  lemma AllCollected(reg: Registry, c: Component, s0: State, s1: State, s: State, t: nat, n: Node,
                     have: map<string, Args>, kd: map<string, Den>, vs: map<string, Value>)
    requires KeywordsWired(reg, c, s0, s1, s, t, n, have, kd, vs) && vs.Keys == kd.Keys
    ensures WireKeywords(reg, c, have, kd).Some? && Wiring(reg, s0, s, t, n, WireKeywords(reg, c, have, kd).value)
    ensures NearGrows(s1, s, t)
  {
    hide Wiring, NearGrows, Coerce, WireEach;
    assert forall k {:trigger k in kd} :: k in kd ==> k in vs && KeywordFits(reg, c, kd, k);
    assert vs == KeywordValues(reg, c, kd, kd.Keys);
  }

  lemma Misfit(reg: Registry, c: Component, have: map<string, Args>, kd: map<string, Den>, k: string)
    requires k in kd && !KeywordFits(reg, c, kd, k)
    ensures WireKeywords(reg, c, have, kd).None?
  {
  }

  /** One keyword argument: its name must be an input and its type must fit. */
  method WireKeyword(ctx: Context, t: nat, c: Component, name: string, h: ValueHandle,
                     ghost s0: State, ghost n: Node, ghost have: map<string, Args>, ghost kd: map<string, Den>)
    returns (r: Result<bool>)
    requires PlainRegistry(ctx.registry) && Wiring(ctx.registry, s0, ctx.S(), t, n, have)
    requires name in kd && Represents(s0, h, kd[name])
    modifies ctx
    ensures r.Ok? <==> KeywordFits(ctx.registry, c, kd, name)
    ensures r.Ok? ==> Wiring(ctx.registry, s0, ctx.S(), t, n, Wire(have, name, KeywordValue(ctx.registry, c, kd, name)))
    ensures r.Ok? ==> NearGrows(old(ctx.S()), ctx.S(), t)
  {
    if name !in InputNames(c) { return Err; }
    r := WireOneInput(ctx, t, name, InputType(c.inputs, name), h, s0, n, have, kd[name]);
  }

  /** Some keyword arguments are wired, and all of them fitted. */
  ghost predicate KeywordsWired(reg: Registry, c: Component, s0: State, s1: State, s: State, t: nat, n: Node,
                                have: map<string, Args>, kd: map<string, Den>, vs: map<string, Value>) {
    Collected(reg, c, kd, vs) && Wiring(reg, s0, s, t, n, WireEach(have, vs)) && NearGrows(s1, s, t)
  }

  method WireNextKeyword(ctx: Context, t: nat, c: Component, name: string, h: ValueHandle, ghost s0: State,
                         ghost s1: State,
                         ghost n: Node, ghost have: map<string, Args>, ghost kd: map<string, Den>,
                         ghost vs: map<string, Value>)
    returns (r: Result<bool>)
    requires PlainRegistry(ctx.registry) && KeywordsWired(ctx.registry, c, s0, s1, ctx.S(), t, n, have, kd, vs)
    requires name in kd && name !in vs && Represents(s0, h, kd[name])
    modifies ctx
    ensures r.Ok? <==> KeywordFits(ctx.registry, c, kd, name)
    ensures r.Ok? ==> KeywordsWired(ctx.registry, c, s0, s1, ctx.S(), t, n, have, kd,
                                    vs[name := KeywordValue(ctx.registry, c, kd, name)])
  {
    hide Wiring, PlainRegistry, KeywordFits, KeywordValue, WireEach, Represents, NearGrows, Collected;
    ghost var before := ctx.S();
    r := WireKeyword(ctx, t, c, name, h, s0, n, WireEach(have, vs), kd);
    if r.Ok? {
      NearGrowsTrans(s1, before, ctx.S(), t);
      WireEachMore(have, vs, name, KeywordValue(ctx.registry, c, kd, name));
      CollectMore(ctx.registry, c, kd, vs, name);
    }
  }

  /** Keyword arguments, in whatever order the map yields them. */
  method WireKeywordArgs(ctx: Context, t: nat, c: Component, kwargs: map<string, ValueHandle>,
                         ghost s0: State, ghost n: Node, ghost have: map<string, Args>, ghost kd: map<string, Den>)
    returns (r: Result<bool>)
    requires PlainRegistry(ctx.registry) && Wiring(ctx.registry, s0, ctx.S(), t, n, have)
    requires kwargs.Keys == kd.Keys && forall k :: k in kwargs ==> Represents(s0, kwargs[k], kd[k])
    modifies ctx
    ensures r.Ok? <==> WireKeywords(ctx.registry, c, have, kd).Some?
    ensures r.Ok? ==> Wiring(ctx.registry, s0, ctx.S(), t, n, WireKeywords(ctx.registry, c, have, kd).value)
    ensures r.Ok? ==> NearGrows(old(ctx.S()), ctx.S(), t)
  {
    hide PlainRegistry, Wiring, KeywordFits, KeywordValue, WireKeywords, KeywordsWired, Represents, NearGrows;
    ghost var s1, vs: map<string, Value> := ctx.S(), map[];
    NoKeywordsYet(ctx.registry, c, s0, s1, t, n, have, kd);
    var names := kwargs.Keys;
    while names != {}
      invariant names <= kwargs.Keys && vs.Keys == kwargs.Keys - names
      invariant KeywordsWired(ctx.registry, c, s0, s1, ctx.S(), t, n, have, kd, vs)
    {
      var name :| name in names;
      var one := WireNextKeyword(ctx, t, c, name, kwargs[name], s0, s1, n, have, kd, vs);
      if one.Err? {
        Misfit(ctx.registry, c, have, kd, name);
        return Err;
      }
      vs := vs[name := KeywordValue(ctx.registry, c, kd, name)];
      names := names - {name};
    }
    AllCollected(ctx.registry, c, s0, s1, ctx.S(), t, n, have, kd, vs);
    r := Ok(true);
  }

  lemma {:induction false} PositionalPrefix(reg: Registry, c: Component, have: map<string, Args>, args: seq<Den>,
                                            i: nat)
    requires c.inputs != [] && i <= |args|
    ensures WirePositional(reg, c, have, args).Some? ==> WirePositional(reg, c, have, args[..i]).Some?
  {
    if i < |args| {
      PositionalPrefix(reg, c, have, args[..|args| - 1], i);
      assert args[..|args| - 1][..i] == args[..i];
    } else {
      assert args[..i] == args;
    }
  }

  lemma PositionalStep(reg: Registry, c: Component, have: map<string, Args>, args: seq<Den>, i: nat)
    requires c.inputs != [] && i < |args| && WirePositional(reg, c, have, args[..i]).Some?
    ensures var name := SlotAt(InputNames(c), i);
            var d := Coerce(reg, args[i], InputType(c.inputs, name));
            if d.None? then WirePositional(reg, c, have, args).None?
            else WirePositional(reg, c, have, args[..i + 1])
                 == Some(Wire(WirePositional(reg, c, have, args[..i]).value, name, ValueOf(d.value)))
  {
    assert args[..i + 1][..i] == args[..i];
    PositionalPrefix(reg, c, have, args, i + 1);
  }

  lemma NothingWired(reg: Registry, c: Component, have: map<string, Args>, ds: seq<Den>)
    requires c.inputs != []
    ensures WirePositional(reg, c, have, ds[..0]) == Some(have)
  {
  }

  /** Positional arguments, left to right. */
  method WirePositionalArgs(ctx: Context, t: nat, c: Component, args: seq<ValueHandle>,
                            ghost s0: State, ghost n: Node, ghost have: map<string, Args>, ghost ds: seq<Den>)
    returns (r: Result<bool>)
    requires PlainRegistry(ctx.registry) && c.inputs != []
    requires Wiring(ctx.registry, s0, ctx.S(), t, n, have)
    requires |args| == |ds| && forall i :: 0 <= i < |args| ==> Represents(s0, args[i], ds[i])
    modifies ctx
    ensures r.Ok? <==> WirePositional(ctx.registry, c, have, ds).Some?
    ensures r.Ok? ==> Wiring(ctx.registry, s0, ctx.S(), t, n, WirePositional(ctx.registry, c, have, ds).value)
    ensures r.Ok? ==> NearGrows(old(ctx.S()), ctx.S(), t) && NearArgs(ctx.S(), t, args, |args|)
  {
    ghost var reg := ctx.registry;
    NearGrowsRefl(reg, s0, ctx.S(), t, n, have);
    assert NearArgs(ctx.S(), t, args, 0);
    hide Wiring, PlainRegistry, WirePositional, Represents, NearGrows, Near, Coerce;
    NothingWired(reg, c, have, ds);
    var names := InputNames(c);
    for i := 0 to |args|
      invariant WirePositional(reg, c, have, ds[..i]).Some?
      invariant Wiring(reg, s0, ctx.S(), t, n, WirePositional(reg, c, have, ds[..i]).value)
      invariant NearGrows(old(ctx.S()), ctx.S(), t) && NearArgs(ctx.S(), t, args, i)
    {
      ghost var before := ctx.S();
      var name := SlotAt(names, i);
      PositionalStep(reg, c, have, ds, i);
      var one := WireOneInput(ctx, t, name, InputType(c.inputs, name), args[i], s0, n,
                              WirePositional(reg, c, have, ds[..i]).value, ds[i]);
      if one.Err? { return Err; }
      NearGrowsTrans(old(ctx.S()), before, ctx.S(), t);
      NearArgsGrow(before, ctx.S(), t, args, i);
    }
    assert ds[..|args|] == ds;
    r := Ok(true);
  }

  /** One feed step into node t. */
  method WireInputs(ctx: Context, t: nat, c: Component, f: Feed,
                    ghost s0: State, ghost n: Node, ghost have: map<string, Args>, ghost fd: FeedDen)
    returns (r: Result<bool>)
    requires PlainRegistry(ctx.registry) && FeedMeans(s0, f, fd)
    requires Wiring(ctx.registry, s0, ctx.S(), t, n, have)
    modifies ctx
    ensures r.Ok? <==> WireFeed(ctx.registry, c, have, fd).Some?
    ensures r.Ok? ==> Wiring(ctx.registry, s0, ctx.S(), t, n, WireFeed(ctx.registry, c, have, fd).value)
    ensures r.Ok? ==> NearGrows(old(ctx.S()), ctx.S(), t)
    ensures r.Ok? && c.inputs != [] ==> NearArgs(ctx.S(), t, f.args, |f.args|)
  {
    hide PlainRegistry, Wiring, Represents, WireKeywords, WirePositional, Near;
    ghost var s1 := ctx.S();
    var named := WireKeywordArgs(ctx, t, c, f.kwargs, s0, n, have, fd.kwargs);
    if named.Err? { return Err; }
    if f.args == [] || c.inputs == [] { return Ok(true); }
    if |f.args| > |c.inputs| && !c.inputs[|c.inputs| - 1].allowMultipleConnections { return Err; }
    ghost var s2 := ctx.S();
    r := WirePositionalArgs(ctx, t, c, f.args, s0, n, WireKeywords(ctx.registry, c, have, fd.kwargs).value, fd.args);
    if r.Ok? { NearGrowsTrans(s1, s2, ctx.S(), t); }
  }
}
