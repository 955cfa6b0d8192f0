/** Nodes created by statements: component instances, tuple unpacking, sinks. */
module NodeBuilder {
  import opened Wrappers
  import opened Graph
  import opened Registry
  import opened NodeIds
  import opened CompilationContext
  import opened Denotation
  import opened ProgramMeaning
  import opened Slots
  import opened Lowering
  import opened TypeChecker
  import opened Instantiation

  // ------------------------------------------------------------------ slot references

  function RefsOf(args: seq<ValueHandle>): seq<string> {
    seq(|args|, i requires 0 <= i < |args| => RefTo(args[i]))
  }

  function Reoptioned(s: State, t: nat, options: map<string, OptionValue>): State
    requires t < |s.nodes|
  {
    Replaced(s, t, s.nodes[t].(options := options))
  }

  /** Replace slot texts in the options of node t by references to the arguments. */
  method ResolveSlotReferencesInOptions(ctx: Context, t: nat, args: seq<ValueHandle>) returns (r: Result<bool>)
    requires t < |ctx.algorithms|
    modifies ctx`algorithms
    ensures var want := ResolveOptions(ctx.registry, old(ctx.algorithms[t].options), RefsOf(args));
            && (r.Ok? <==> want.Some?)
            && (r.Ok? ==> ctx.S() == Reoptioned(old(ctx.S()), t, want.value))
    ensures var before := old(ctx.algorithms[t].options);
            r.Ok? <==> forall key :: key in before ==> !Unresolvable(ctx.registry, before[key], |args|)
    ensures var before := old(ctx.algorithms[t].options);
            r.Ok? ==> t < |ctx.algorithms| && ctx.algorithms[t].options.Keys == before.Keys
                      && forall key :: key in before ==>
                           PutOption(ctx.registry, before[key], ctx.algorithms[t].options[key], RefsOf(args))
  {
    hide ResolveOptions, Unresolvable, PutOption;
    AllResolvedExactly(ctx.registry, ctx.algorithms[t].options, RefsOf(args));
    var resolved := ResolveEach(ctx.registry, ctx.algorithms[t].options, RefsOf(args));
    if resolved.Err? { return Err; }
    ctx.algorithms := ctx.algorithms[t := ctx.algorithms[t].(options := resolved.value)];
    r := Ok(true);
  }

  lemma ArgsRefsMean(reg: Registry, s: State, args: seq<ValueHandle>, ds: seq<Den>)
    requires Core(reg, s) && AllRepresent(s, args, ds)
    ensures RefsMean(RefsOf(args), Values(ds), s.val)
    ensures forall r :: r in RefsOf(args) ==> exists k :: 0 <= k < |args| && NodeOf(r) == args[k].nodeId
  {
    forall i | 0 <= i < |args|
      ensures Refers(RefTo(args[i])) && KnownText(RefTo(args[i]), s.val)
      ensures FieldValue(RefTo(args[i]), s.val) == ValueOf(ds[i])
      ensures NodeOf(RefTo(args[i])) == args[i].nodeId
    {
      assert Represents(s, args[i], ds[i]);
      RefMeans(reg, s, args[i], ds[i]);
      assert s.nodes[s.lookup[args[i].nodeId]] in s.nodes;
      assert KnownName(reg, s, args[i].nodeId);
    }
  }

  /** References to arguments select nothing themselves. */
  lemma ArgsSelectNone(reg: Registry, s: State, args: seq<ValueHandle>, ds: seq<Den>)
    requires Core(reg, s) && AllRepresent(s, args, ds)
    ensures forall r :: r in RefsOf(args) ==> SelectsNone(reg, r)
  {
    hide Core, AllRepresent, SelectsNone, Refers, PlainName, FieldValue;
    ArgsRefsMean(reg, s, args, ds);
    forall r | r in RefsOf(args) ensures SelectsNone(reg, r) {
      var i :| 0 <= i < |RefsOf(args)| && RefsOf(args)[i] == r;
      assert KnownText(r, s.val) && Refers(r);
      NamesSelectNone(reg, r);
    }
  }

  lemma NamesSelectNone(reg: Registry, r: string)
    requires Refers(r) && PlainName(NodeOf(r))
    ensures SelectsNone(reg, r)
  {
    Rejoin(r);
    var id := NodeOf(r);
    assert r[..|id|] == id;
    if |id| >= 4 {
      assert r[..4] == id[..4];
    } else {
      assert r[|id|] == '#';
    }
  }

  // -------------------------------------------------------------- building one node

  /** Whatever the options name is near the node. */
  ghost predicate OptionsNear(s: State, t: nat, n: Node) {
    t < |s.nodes| && forall d :: d in OptionIds(n) ==> Near(s.nodes, s.nodes[t], d)
  }

  /** Node t is an instance under construction, and so far it means the draft. */
  ghost predicate Building(reg: Registry, e: State, s: State, t: nat, n: Node, draft: Draft) {
    && Wiring(reg, e, s, t, n, draft.inputs)
    && OptionsFit(n.kind, n.options, s.val) && OptionsMeaning(n.kind, n.options, s.val) == draft.options
    && OptionsNear(s, t, n)
  }

  lemma FitStays(kind: string, options: map<string, OptionValue>, v: Valuation, w: Valuation)
    requires OptionsFit(kind, options, v) && forall id :: id in v ==> id in w && w[id] == v[id]
    ensures OptionsFit(kind, options, w) && OptionsMeaning(kind, options, w) == OptionsMeaning(kind, options, v)
  {
    hide Refers;
    forall key | key in options
      ensures OptionFits(kind, key, options[key], w)
      ensures OptionMeaning(kind, key, options[key], w) == OptionMeaning(kind, key, options[key], v)
    {
      var o := options[key];
      assert OptionFits(kind, key, o, v);
      if !Verbatim(kind, key) {
        forall i | 0 <= i < |FieldTexts(o)|
          ensures KnownText(FieldTexts(o)[i], w) && FieldValue(FieldTexts(o)[i], w) == FieldValue(FieldTexts(o)[i], v)
        {
          assert KnownText(FieldTexts(o)[i], v);
        }
        SameFields(kind, key, o, v, w);
      }
    }
  }

  lemma OptionsNearStay(s0: State, s1: State, t: nat, n: Node)
    requires OptionsNear(s0, t, n) && NearGrows(s0, s1, t)
    ensures OptionsNear(s1, t, n)
  {
  }

  /** Only options change: what was near stays near. */
  lemma ReoptionedNear(s: State, t: nat, n: Node, have: map<string, Args>, options: map<string, OptionValue>, d: Id)
    requires Waiting(s, t, n, have) && Near(s.nodes, s.nodes[t], d)
    ensures Near(Reoptioned(s, t, options).nodes, Reoptioned(s, t, options).nodes[t], d)
  {
    var s' := Reoptioned(s, t, options);
    forall m | m in s.nodes && m.id in s.val
      ensures m in s'.nodes
    {
      var i :| 0 <= i < |s.nodes| && s.nodes[i] == m;
      assert s'.nodes[i] == m;
    }
    WiredIds(s, t, n, have);
    NearMoves(s.nodes, s'.nodes, s.nodes[t], s'.nodes[t], s.val.Keys);
  }

  lemma ReoptionedWiring(reg: Registry, e: State, s: State, t: nat, n: Node, have: map<string, Args>,
                         options: map<string, OptionValue>)
    requires Wiring(reg, e, s, t, n, have)
    ensures Wiring(reg, e, Reoptioned(s, t, options), t, n.(options := options), have)
  {
    ReplacedKeeps(reg, s, t, s.nodes[t].(options := options));
    ReplacedGrows(reg, s, t, s.nodes[t].(options := options));
    GrowsTrans(reg, e, s, Reoptioned(s, t, options), t);
  }

  /** Only a component with inputs may have slots in its options. */
  ghost predicate SlotsFed(c: Component, options: map<string, OptionValue>) {
    c.inputs == [] ==> forall key :: key in options ==> NoSlots(options[key])
  }

  /** What the resolved options name was named before or is an argument of this feed step. */
  lemma ResolvedNames(n: Node, options: map<string, OptionValue>, refs: seq<string>, d: Id)
    requires Resolved(n.options, options, refs) && d in OptionIds(n.(options := options))
    ensures d in OptionIds(n) || exists r :: r in refs && NodeOf(r) == d
  {
    hide OptionIds, Refers;
    var key := NamingOption(n.(options := options), d);
    var f :| f in FieldTexts(options[key]) && Refers(f) && NodeOf(f) == d;
    if f in FieldTexts(n.options[key]) {
      NamedInOption(n, key);
      assert d in NamedIn(n.options[key]);
    }
  }

  /** Slot references are wired: whatever the resolved options name is near the node. */
  lemma ResolvedNear(reg: Registry, s: State, t: nat, n: Node, have: map<string, Args>, args: seq<ValueHandle>,
                     c: Component, options: map<string, OptionValue>)
    requires Waiting(s, t, n, have) && OptionsNear(s, t, n)
    requires c.inputs != [] ==> NearArgs(s, t, args, |args|)
    requires SlotsFed(c, n.options) && ResolveOptions(reg, n.options, RefsOf(args)) == Some(options)
    requires Resolved(n.options, options, RefsOf(args))
    requires forall r :: r in RefsOf(args) ==> exists k :: 0 <= k < |args| && NodeOf(r) == args[k].nodeId
    ensures OptionsNear(Reoptioned(s, t, options), t, n.(options := options)) && SlotsFed(c, options)
  {
    hide Near, OptionIds, ResolveOptions;
    if c.inputs == [] { NothingToResolve(reg, n.options, RefsOf(args)); }
    forall d | d in OptionIds(n.(options := options))
      ensures Near(Reoptioned(s, t, options).nodes, Reoptioned(s, t, options).nodes[t], d)
    {
      if d !in OptionIds(n) {
        ResolvedNames(n, options, RefsOf(args), d);
        assert c.inputs == [] ==> n.(options := options) == n;
      }
      assert Near(s.nodes, s.nodes[t], d);
      ReoptionedNear(s, t, n, have, options, d);
    }
  }

  /** After the inputs of a feed step are wired, its slots are resolved. */
  lemma ResolveStep(reg: Registry, e: State, s: State, t: nat, n: Node, draft: Draft, args: seq<ValueHandle>,
                    ds: seq<Den>,
                    c: Component)
    requires Building(reg, e, s, t, n, draft) && AllRepresent(s, args, ds)
    requires SlotsFed(c, n.options) && (c.inputs != [] ==> NearArgs(s, t, args, |args|))
    ensures var a, b := ResolveOptions(reg, n.options, RefsOf(args)), ResolveMeanings(reg, draft.options, Values(ds));
            && (a.Some? <==> b.Some?)
            && (a.Some? ==> SlotsFed(c, a.value)
                            && Building(reg, e, Reoptioned(s, t, a.value), t, n.(options := a.value),
                                        Draft(b.value, draft.inputs)))
  {
    hide Core, Grows, Waiting, OptionsFit, OptionsNear, ResolveOptions, ResolveMeanings, OptionsMeaning, NearArgs,
         RefsMean, SlotsFed, Resolved;
    ArgsRefsMean(reg, s, args, ds);
    OptionsAgree(reg, n.kind, n.options, RefsOf(args), Values(ds), s.val);
    var a := ResolveOptions(reg, n.options, RefsOf(args));
    if a.Some? {
      ReoptionedWiring(reg, e, s, t, n, draft.inputs, a.value);
      ResolvedNear(reg, s, t, n, draft.inputs, args, c, a.value);
    }
  }

  /** Wiring keeps what the options mean. */
  lemma WiredStep(reg: Registry, e: State, s: State, s1: State, t: nat, n: Node, draft: Draft,
                  inputs: map<string, Args>)
    requires Building(reg, e, s, t, n, draft) && Wiring(reg, s, s1, t, n, inputs) && NearGrows(s, s1, t)
    ensures Building(reg, e, s1, t, n, Draft(draft.options, inputs))
  {
    FitStays(n.kind, n.options, s.val, s1.val);
    OptionsNearStay(s, s1, t, n);
    GrowsTrans(reg, e, s, s1, t);
  }

  lemma BuildingStart(reg: Registry, e: State, s: State, t: nat, n: Node, draft: Draft)
    requires Building(reg, e, s, t, n, draft)
    ensures Wiring(reg, s, s, t, n, draft.inputs) && t < |s.nodes| && s.nodes[t].options == n.options
  {
    GrowsRefl(reg, s, t);
  }

  /** One feed step: wire its inputs, then resolve the slots. */
  method ApplyFeed(ctx: Context, t: nat, c: Component, f: Feed, ghost e: State, ghost n: Node, ghost draft: Draft,
                   ghost fd: FeedDen)
    returns (r: Result<bool>, ghost n': Node)
    requires PlainRegistry(ctx.registry) && Building(ctx.registry, e, ctx.S(), t, n, draft) && FeedMeans(ctx.S(), f, fd)
    requires SlotsFed(c, n.options)
    modifies ctx
    ensures r.Ok? <==> FeedOne(ctx.registry, c, draft, fd).Some?
    ensures r.Ok? ==> Building(ctx.registry, e, ctx.S(), t, n', FeedOne(ctx.registry, c, draft, fd).value)
    ensures r.Ok? ==> n' == n.(options := n'.options) && SlotsFed(c, n'.options)
  {
    hide Wiring, PlainRegistry, Building, FeedMeans, WireFeed, ResolveOptions, ResolveMeanings, NearGrows, NearArgs,
         SlotsFed;
    ghost var reg, s := ctx.registry, ctx.S();
    BuildingStart(reg, e, s, t, n, draft);
    var wired := WireInputs(ctx, t, c, f, s, n, draft.inputs, fd);
    if wired.Err? { return Err, n; }
    ghost var s1, d1 := ctx.S(), Draft(draft.options, WireFeed(reg, c, draft.inputs, fd).value);
    WiredStep(reg, e, s, s1, t, n, draft, d1.inputs);
    BuildingStart(reg, e, s1, t, n, d1);
    FeedArgs(reg, s, s1, t, n, d1.inputs, f, fd);
    ResolveStep(reg, e, s1, t, n, d1, f.args, fd.args, c);
    r := ResolveSlotReferencesInOptions(ctx, t, f.args);
    n' := if r.Ok? then n.(options := ResolveOptions(reg, n.options, RefsOf(f.args)).value) else n;
  }

  lemma FeedArgs(reg: Registry, s: State, s1: State, t: nat, n: Node, have: map<string, Args>, f: Feed, fd: FeedDen)
    requires Wiring(reg, s, s1, t, n, have) && FeedMeans(s, f, fd)
    ensures AllRepresent(s1, f.args, fd.args)
  {
    FeedStays(reg, s, s1, t, f, fd);
  }

  lemma {:induction false} FeedAllPrefix(reg: Registry, c: Component, draft: Draft, fds: seq<FeedDen>, i: nat)
    requires i <= |fds|
    ensures FeedAll(reg, c, draft, fds).Some? ==> FeedAll(reg, c, draft, fds[..i]).Some?
  {
    if i < |fds| {
      FeedAllPrefix(reg, c, draft, fds[..|fds| - 1], i);
      assert fds[..|fds| - 1][..i] == fds[..i];
    } else {
      assert fds[..i] == fds;
    }
  }

  lemma FeedAllStep(reg: Registry, c: Component, draft: Draft, fds: seq<FeedDen>, i: nat)
    requires i < |fds| && FeedAll(reg, c, draft, fds[..i]).Some?
    ensures FeedAll(reg, c, draft, fds[..i + 1]) == FeedOne(reg, c, FeedAll(reg, c, draft, fds[..i]).value, fds[i])
    ensures FeedAll(reg, c, draft, fds[..i + 1]).None? ==> FeedAll(reg, c, draft, fds).None?
  {
    assert fds[..i + 1][..i] == fds[..i];
    FeedAllPrefix(reg, c, draft, fds, i + 1);
  }

  lemma NotFed(reg: Registry, c: Component, draft: Draft, fds: seq<FeedDen>)
    ensures FeedAll(reg, c, draft, fds[..0]) == Some(draft)
  {
  }

  lemma FeedsMeanNow(reg: Registry, e: State, s: State, t: nat, n: Node, draft: Draft, fs: seq<Feed>, fds: seq<FeedDen>)
    requires Building(reg, e, s, t, n, draft) && FeedsMean(e, fs, fds)
    ensures FeedsMean(s, fs, fds)
  {
    FeedsStay(reg, e, s, t, fs, fds);
  }

  /** All feed steps of a call, in order. */
  method ApplyFeeds(ctx: Context, t: nat, c: Component, feeds: seq<Feed>, ghost e: State, ghost n: Node,
                    ghost draft: Draft,
                    ghost fds: seq<FeedDen>)
    returns (r: Result<bool>, ghost n': Node)
    requires PlainRegistry(ctx.registry) && Building(ctx.registry, e, ctx.S(), t, n, draft) && FeedsMean(e, feeds, fds)
    requires SlotsFed(c, n.options)
    modifies ctx
    ensures r.Ok? <==> FeedAll(ctx.registry, c, draft, fds).Some?
    ensures r.Ok? ==> Building(ctx.registry, e, ctx.S(), t, n', FeedAll(ctx.registry, c, draft, fds).value)
    ensures r.Ok? ==> n' == n.(options := n'.options)
  {
    hide PlainRegistry, Building, FeedMeans, FeedOne, FeedAll, SlotsFed;
    ghost var reg := ctx.registry;
    n' := n;
    NotFed(reg, c, draft, fds);
    for i := 0 to |feeds|
      invariant FeedAll(reg, c, draft, fds[..i]).Some?
      invariant Building(reg, e, ctx.S(), t, n', FeedAll(reg, c, draft, fds[..i]).value)
      invariant n' == n.(options := n'.options) && SlotsFed(c, n'.options)
    {
      FeedAllStep(reg, c, draft, fds, i);
      FeedsMeanNow(reg, e, ctx.S(), t, n', FeedAll(reg, c, draft, fds[..i]).value, feeds, fds);
      r, n' := ApplyFeed(ctx, t, c, feeds[i], e, n', FeedAll(reg, c, draft, fds[..i]).value, fds[i]);
      if r.Err? { return; }
    }
    assert fds[..|feeds|] == fds;
    r := Ok(true);
  }

  /** Node n, entered into u, is complete in f and computes `node`; g is f before it got its term. */
  ghost predicate Placed(reg: Registry, u: State, n: Node, bound: bool, g: State, f: State, node: Value) {
    && Core(reg, u) && Core(reg, f) && n.id !in Ids(u.nodes)
    && Grows(reg, Entered(u, n, bound), g, |u.nodes|) && n.id !in g.val
    && |u.nodes| < |g.nodes| && g.nodes[|u.nodes|].id == n.id && g.nodes[|u.nodes|].kind == n.kind
    && f == Filled(g, |u.nodes|, g.nodes[|u.nodes|], None)
    && f.val[n.id] == node && Tracked(f, n.id) == None
  }

  lemma BuiltIsPlaced(reg: Registry, u: State, n: Node, bound: bool, g: State, n': Node, draft: Draft)
    requires Core(reg, u) && n.id !in Ids(u.nodes) && n' == n.(options := n'.options)
    requires Building(reg, Entered(u, n, bound), g, |u.nodes|, n', draft)
    ensures Placed(reg, u, n, bound, g, Completed(g, |u.nodes|),
                   Configured(n.kind, draft.options, draft.inputs, Config(n.options, n.timeframe, n.session)))
  {
    var e, t := Entered(u, n, bound), |u.nodes|;
    EnteredUntracked(reg, u, n, bound, g);
    CompletedIsFilled(reg, e, g, t, n', draft.inputs);
    FitKnown(n', g.val);
    CompletedCore(reg, e, g, t, n', draft.inputs);
  }

  lemma FitKnown(n: Node, v: Valuation)
    requires OptionsFit(n.kind, n.options, v)
    ensures OptionIds(n) <= v.Keys
  {
    hide OptionIds, Refers;
    forall d | d in OptionIds(n) ensures d in v {
      var key := NamingOption(n, d);
      var o := n.options[key];
      assert OptionFits(n.kind, key, o, v);
      var i :| 0 <= i < |FieldTexts(o)| && Refers(FieldTexts(o)[i]) && NodeOf(FieldTexts(o)[i]) == d;
      assert KnownText(FieldTexts(o)[i], v);
    }
  }

  /** Options that name nothing fit, provided a literal holds no slot. */
  lemma PlainFits(kind: string, options: map<string, OptionValue>, v: Valuation)
    requires NamesNothing(kind, options) && LiteralFits(kind, options)
    ensures OptionsFit(kind, options, v)
  {
    hide Refers;
    forall key | key in options
      ensures OptionFits(kind, key, options[key], v)
    {
      if !Verbatim(kind, key) { NamesNone(options[key]); }
    }
  }

  ghost predicate LiteralFits(kind: string, options: map<string, OptionValue>) {
    kind == "text" && "value" in options ==> options["value"].Text? && NoSlots(options["value"])
  }

  /** A freshly entered node means its options, and nothing is wired. */
  lemma BuildingBegins(reg: Registry, u: State, n: Node, bound: bool)
    requires Core(reg, u) && n.id !in Ids(u.nodes) && KnownName(reg, u, n.id) && n.inputs == map[]
    requires NamesNothing(n.kind, n.options) && LiteralFits(n.kind, n.options)
    ensures Building(reg, Entered(u, n, bound), Entered(u, n, bound), |u.nodes|, n,
                     Draft(OptionsMeaning(n.kind, n.options, map[]), map[]))
  {
    EnteredWiring(reg, u, n, bound);
    PlainFits(n.kind, n.options, u.val);
    PlainOptionsMeaning(n.kind, n.options, u.val);
    PlainNames(n);
  }

  /** Enter the node of a call under the given id, apply its feeds, complete it. */
  method BuildNode(ctx: Context, id: Id, p: ParsedCall, bound: bool, ghost d: Parsed)
    returns (r: Result<bool>, ghost n: Node, ghost g: State)
    requires Core(ctx.registry, ctx.S()) && PlainRegistry(ctx.registry)
    requires id !in Ids(ctx.algorithms) && KnownName(ctx.registry, ctx.S(), id)
    requires d.kind in ctx.registry.components && ParseMeans(ctx.S(), p, d)
    requires PlainWords(ctx.registry, d.kind, d.params)
    modifies ctx
    ensures r.Ok? <==> Instantiate(ctx.registry, d).Some?
    ensures r.Ok? ==> n.id == id && n.kind == d.kind
                      && Placed(ctx.registry, old(ctx.S()), n, bound, g, ctx.S(), Instantiate(ctx.registry, d).value)
  {
    hide Core, Bound, Grows, PlainRegistry, Building, Placed, FeedsMean, FeedAll, KnownName;
    ghost var reg, u := ctx.registry, ctx.S();
    n, g := Node(p.kind, id, map[], map[], None, None), u;
    var cfg := ctx.registry.configure(p.kind, p.params);
    if cfg.None? { r := Err; return; }
    n := Node(p.kind, id, cfg.value.options, map[], cfg.value.timeframe, cfg.value.session);
    var node := Node(p.kind, id, cfg.value.options, map[], cfg.value.timeframe, cfg.value.session);
    var c := ctx.registry.components[p.kind];
    PlainCall(reg, p.kind, p.params);
    BuildingBegins(reg, u, n, bound);
    SameTablesMean(u, Entered(u, n, bound), p.feeds, d.feeds);
    var t := |ctx.algorithms|;
    ctx.Enter(node, bound);
    ghost var draft, n' := Draft(OptionsMeaning(n.kind, n.options, map[]), map[]), n;
    r, n' := ApplyFeeds(ctx, t, c, p.feeds, ctx.S(), n, draft, d.feeds);
    if r.Err? { return; }
    g := ctx.S();
    BuiltIsPlaced(reg, u, n, bound, g, n', FeedAll(reg, c, draft, d.feeds).value);
    BuildingStart(reg, Entered(u, n, bound), g, t, n', FeedAll(reg, c, draft, d.feeds).value);
    ctx.Complete(t);
  }

  lemma PlainCall(reg: Registry, kind: string, params: map<string, OptionValue>)
    requires PlainRegistry(reg) && kind in reg.components && reg.configure(kind, params).Some?
    requires PlainWords(reg, kind, params)
    ensures var options := reg.configure(kind, params).value.options;
            NamesNothing(kind, options) && LiteralFits(kind, options) && SlotsFed(reg.components[kind], options)
  {
    var options := reg.configure(kind, params).value.options;
    assert PlainConfig(reg, reg.components[kind], kind, params, options);
  }
}
