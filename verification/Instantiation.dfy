/** Nodes of component calls: entered first, wired feed by feed, then complete. */
module Instantiation {
  import opened Wrappers
  import opened Graph
  import opened Registry
  import opened NodeIds
  import opened CompilationContext
  import opened Denotation
  import opened Lowering
  import opened TypeChecker

  /** The call a chain of parentheses spells out, with its arguments lowered. */
  datatype ParsedCall = ParsedCall(kind: string, params: map<string, OptionValue>, feeds: seq<Feed>)

  ghost predicate FeedsMean(s: State, fs: seq<Feed>, fds: seq<FeedDen>) {
    |fs| == |fds| && forall i :: 0 <= i < |fs| ==> FeedMeans(s, fs[i], fds[i])
  }

  ghost predicate ParseMeans(s: State, p: ParsedCall, d: Parsed) {
    p.kind == d.kind && p.params == d.params && FeedsMean(s, p.feeds, d.feeds)
  }

  lemma FeedsStay(reg: Registry, s0: State, s1: State, t: int, fs: seq<Feed>, fds: seq<FeedDen>)
    requires Core(reg, s0) && Grows(reg, s0, s1, t) && FeedsMean(s0, fs, fds)
    ensures FeedsMean(s1, fs, fds)
  {
    forall i | 0 <= i < |fs| ensures FeedMeans(s1, fs[i], fds[i]) {
      FeedStays(reg, s0, s1, t, fs[i], fds[i]);
    }
  }

  lemma EnteredCore(reg: Registry, s: State, n: Node, bound: bool)
    requires Core(reg, s) && n.id !in Ids(s.nodes) && KnownName(reg, s, n.id)
    ensures Core(reg, Entered(s, n, bound)) && n.id !in s.val
  {
    PushKeeps(reg, s, n);
    var e, p := Entered(s, n, bound), Pushed(s, n);
    forall m | m in e.nodes
      ensures KnownName(reg, e, m.id)
    {
      assert KnownName(reg, p, m.id);
    }
    forall m | m in e.nodes && m.id in e.val
      ensures Finished(e, m)
    {
      assert Finished(p, m);
    }
  }

  lemma EnteredGrows(reg: Registry, s: State, n: Node, bound: bool)
    requires Core(reg, s) && n.id !in Ids(s.nodes)
    ensures |s.nodes| < |Entered(s, n, bound).nodes|
    ensures Grows(reg, Entered(s, n, bound), Entered(s, n, bound), |s.nodes|)
  {
    GrowsRefl(reg, Entered(s, n, bound), |s.nodes|);
  }

  /** Nothing is wired yet. */
  lemma EnteredWiring(reg: Registry, s: State, n: Node, bound: bool)
    requires Core(reg, s) && n.id !in Ids(s.nodes) && KnownName(reg, s, n.id) && n.inputs == map[]
    ensures Wiring(reg, Entered(s, n, bound), Entered(s, n, bound), |s.nodes|, n, map[])
  {
    EnteredCore(reg, s, n, bound);
    EnteredGrows(reg, s, n, bound);
    NoInputs(s.val);
  }

  /** What handles stand for only depends on the value and type tables. */
  lemma SameTablesMean(s: State, s': State, fs: seq<Feed>, fds: seq<FeedDen>)
    requires FeedsMean(s, fs, fds) && s'.val == s.val && s'.types == s.types
    ensures FeedsMean(s', fs, fds)
  {
    forall i | 0 <= i < |fs| ensures FeedMeans(s', fs[i], fds[i]) {
      assert FeedMeans(s, fs[i], fds[i]);
      SameTablesMeanOne(s, s', fs[i], fds[i]);
    }
  }

  lemma SameTablesMeanOne(s: State, s': State, f: Feed, fd: FeedDen)
    requires FeedMeans(s, f, fd) && s'.val == s.val && s'.types == s.types
    ensures FeedMeans(s', f, fd)
  {
    forall i | 0 <= i < |f.args| ensures Represents(s', f.args[i], fd.args[i]) {
      assert Represents(s, f.args[i], fd.args[i]);
    }
    forall k | k in f.kwargs ensures Represents(s', f.kwargs[k], fd.kwargs[k]) {
      assert Represents(s, f.kwargs[k], fd.kwargs[k]);
    }
  }

  /** The lookup table already leads to the node. */
  lemma LookupLeads(s: State, t: nat, id: Id)
    requires Distinct(s.nodes) && Indexed(s) && id in s.lookup && t < |s.nodes| && s.nodes[t].id == id
    ensures s.lookup[id] == t
  {
  }

  lemma CompletedIsFilled(reg: Registry, e: State, s: State, t: nat, n: Node, have: map<string, Args>)
    requires Wiring(reg, e, s, t, n, have) && n.id in e.lookup && Tracked(s, n.id) == None
    ensures Completed(s, t) == Filled(s, t, s.nodes[t], None)
    ensures Completed(s, t).val[n.id] == Configured(n.kind, OptionsMeaning(n.kind, n.options, s.val), have,
                                                    Config(n.options, n.timeframe, n.session))
  {
    hide Named, AllFinished, NodesGrow, ValuesGrow, TypesStay, BindingsStay, Quiet, Wireable, InputsMeaning,
         OptionsMeaning;
    LookupLeads(s, t, n.id);
    assert s.nodes[t := s.nodes[t]] == s.nodes;
    assert s.lookup[n.id := t] == s.lookup;
  }

  /** A wired node whose options only name what is near enough can be completed. */
  lemma CompletedCore(reg: Registry, e: State, s: State, t: nat, n: Node, have: map<string, Args>)
    requires Wiring(reg, e, s, t, n, have) && n.id in e.lookup && Tracked(s, n.id) == None
    requires OptionIds(n) <= s.val.Keys && forall d :: d in OptionIds(n) ==> Near(s.nodes, s.nodes[t], d)
    ensures Core(reg, Completed(s, t))
  {
    hide Core, Grows, Near, Completed, Filled, NodeValue;
    CompletedIsFilled(reg, e, s, t, n, have);
    assert OptionIds(s.nodes[t]) == OptionIds(n);
    FillKeeps(reg, s, t, s.nodes[t], None);
  }

  /** From before the id was reserved to after the completion: one step. */
  lemma CompletedExtends(reg: Registry, s0: State, u: State, n: Node, bound: bool, s: State, have: map<string, Args>)
    requires Core(reg, u) && u == s0.(used := u.used) && s0.used <= u.used
    requires n.id !in Ids(u.nodes) && Reserved(reg, n.id)
    requires Wiring(reg, Entered(u, n, bound), s, |u.nodes|, n, have) && Tracked(s, n.id) == None
    ensures Extends(reg, s0, Completed(s, |u.nodes|), -1)
  {
    var t := |u.nodes|;
    CompletedIsFilled(reg, Entered(u, n, bound), s, t, n, have);
    EnteredLikePushed(reg, u, n, bound, s);
    PlaceholderExtends(reg, u, n, s, s.nodes[t], None);
    UsedExtends(reg, s0, u, Completed(s, t));
  }

  lemma EnteredLikePushed(reg: Registry, u: State, n: Node, bound: bool, s: State)
    requires Extends(reg, Entered(u, n, bound), s, |u.nodes|) && Reserved(reg, n.id)
    ensures Extends(reg, Pushed(u, n), s, |u.nodes|)
  {
    var e, p := Entered(u, n, bound), Pushed(u, n);
    forall x | !Reserved(reg, x)
      ensures BindingOf(s, x) == BindingOf(p, x)
    {
      assert BindingOf(s, x) == BindingOf(e, x);
    }
    forall id | id in Ids(p.nodes)
      ensures Tracked(s, id) == Tracked(p, id)
    {
      assert Tracked(s, id) == Tracked(e, id);
    }
  }

  lemma EnteredUntracked(reg: Registry, u: State, n: Node, bound: bool, s: State)
    requires Indexed(u) && n.id !in Ids(u.nodes) && TypesStay(Entered(u, n, bound), s)
    ensures Tracked(s, n.id) == None
  {
    IndexedIds(u);
    assert n in Entered(u, n, bound).nodes;
  }

  lemma {:induction false} FeedsPrefix(reg: Registry, c: Component, have: map<string, Args>, fds: seq<FeedDen>, i: nat)
    requires i <= |fds|
    ensures WireFeeds(reg, c, have, fds).Some? ==> WireFeeds(reg, c, have, fds[..i]).Some?
  {
    if i < |fds| {
      FeedsPrefix(reg, c, have, fds[..|fds| - 1], i);
      assert fds[..|fds| - 1][..i] == fds[..i];
    } else {
      assert fds[..i] == fds;
    }
  }

  lemma FeedsStep(reg: Registry, c: Component, have: map<string, Args>, fds: seq<FeedDen>, i: nat)
    requires i < |fds| && WireFeeds(reg, c, have, fds[..i]).Some?
    ensures WireFeeds(reg, c, have, fds[..i + 1]) == WireFeed(reg, c, WireFeeds(reg, c, have, fds[..i]).value, fds[i])
    ensures WireFeeds(reg, c, have, fds[..i + 1]).None? ==> WireFeeds(reg, c, have, fds).None?
  {
    assert fds[..i + 1][..i] == fds[..i];
    FeedsPrefix(reg, c, have, fds, i + 1);
  }

  method WireAllFeeds(ctx: Context, t: nat, c: Component, feeds: seq<Feed>, ghost s0: State, ghost n: Node,
                      ghost fds: seq<FeedDen>)
    returns (r: Result<bool>)
    requires PlainRegistry(ctx.registry) && Wiring(ctx.registry, s0, ctx.S(), t, n, map[]) && FeedsMean(s0, feeds, fds)
    modifies ctx
    ensures r.Ok? <==> WireFeeds(ctx.registry, c, map[], fds).Some?
    ensures r.Ok? ==> Wiring(ctx.registry, s0, ctx.S(), t, n, WireFeeds(ctx.registry, c, map[], fds).value)
  {
    hide Wiring, PlainRegistry, FeedMeans, WireFeed, WireFeeds;
    ghost var reg := ctx.registry;
    NoFeeds(reg, c, map[], fds);
    for i := 0 to |feeds|
      invariant WireFeeds(reg, c, map[], fds[..i]).Some?
      invariant Wiring(reg, s0, ctx.S(), t, n, WireFeeds(reg, c, map[], fds[..i]).value)
    {
      FeedsStep(reg, c, map[], fds, i);
      var one := WireInputs(ctx, t, c, feeds[i], s0, n, WireFeeds(reg, c, map[], fds[..i]).value, fds[i]);
      if one.Err? { return Err; }
    }
    assert fds[..|feeds|] == fds;
    r := Ok(true);
  }

  lemma NoFeeds(reg: Registry, c: Component, have: map<string, Args>, fds: seq<FeedDen>)
    ensures WireFeeds(reg, c, have, fds[..0]) == Some(have)
  {
  }

  /** No option names a node; the value of a text literal names none anyway. */
  ghost predicate NamesNothing(kind: string, options: map<string, OptionValue>) {
    forall key :: key in options && !Verbatim(kind, key) ==> NamedIn(options[key]) == {}
  }

  lemma PlainOptionsMeaning(kind: string, options: map<string, OptionValue>, v: Valuation)
    requires NamesNothing(kind, options)
    ensures OptionsMeaning(kind, options, v) == OptionsMeaning(kind, options, map[])
  {
    forall key | key in options
      ensures OptionMeaning(kind, key, options[key], v) == OptionMeaning(kind, key, options[key], map[])
    {
      if !Verbatim(kind, key) {
        NamesNone(options[key]);
        SameFields(kind, key, options[key], v, map[]);
      }
    }
  }

  lemma PlainNames(n: Node)
    requires NamesNothing(n.kind, n.options)
    ensures OptionIds(n) == {}
  {
    if d :| d in OptionIds(n) {
      var key := NamingOption(n, d);
    }
  }

  /** Reserving an id and entering the node of a call. */
  ghost predicate Calling(reg: Registry, s0: State, u: State, n: Node, bound: bool) {
    && Ready(reg, s0) && Core(reg, u) && u == s0.(used := u.used) && s0.used <= u.used
    && n.id !in Ids(u.nodes) && Reserved(reg, n.id) && KnownName(reg, u, n.id)
    && n.inputs == map[]
  }

  lemma CallingKeeps(reg: Registry, s0: State, base: string, n: Node, bound: bool)
    requires Ready(reg, s0) && PlainRegistry(reg) && IsBase(reg, base) && n.inputs == map[]
    requires n.id !in s0.used && exists k :: 0 <= k && n.id == Candidate(base, k)
    ensures Calling(reg, s0, s0.(used := s0.used + {n.id}), n, bound)
  {
    FreshId(reg, s0, base, n.id);
    UseKeeps(reg, s0, n.id);
  }

  lemma CallWiring(reg: Registry, s0: State, u: State, n: Node, bound: bool, fs: seq<Feed>, fds: seq<FeedDen>)
    requires Calling(reg, s0, u, n, bound) && FeedsMean(s0, fs, fds)
    ensures Wiring(reg, Entered(u, n, bound), Entered(u, n, bound), |u.nodes|, n, map[])
    ensures FeedsMean(Entered(u, n, bound), fs, fds)
  {
    EnteredWiring(reg, u, n, bound);
    SameTablesMean(s0, Entered(u, n, bound), fs, fds);
  }

  /** A call inside an expression is one step, and its node means what the call means. */
  lemma CallDone(reg: Registry, s0: State, u: State, n: Node, s: State, have: map<string, Args>)
    requires Calling(reg, s0, u, n, true) && Wiring(reg, Entered(u, n, true), s, |u.nodes|, n, have)
    requires !IsSink(reg, n.kind) && NamesNothing(n.kind, n.options)
    ensures |u.nodes| < |s.nodes| && Steps(reg, s0, Completed(s, |u.nodes|))
    ensures var f := Completed(s, |u.nodes|);
            n.id in f.val && Tracked(f, n.id) == None
            && f.val[n.id] == Configured(n.kind, OptionsMeaning(n.kind, n.options, map[]), have,
                                         Config(n.options, n.timeframe, n.session))
  {
    var e, t := Entered(u, n, true), |u.nodes|;
    EnteredUntracked(reg, u, n, true, s);
    PlainNames(n);
    PlainOptionsMeaning(n.kind, n.options, s.val);
    CompletedIsFilled(reg, e, s, t, n, have);
    CompletedCore(reg, e, s, t, n, have);
    CompletedExtends(reg, s0, u, n, true, s, have);
    CallQuiet(reg, s0, u, n, s, have);
    StepsTo(reg, s0, Completed(s, t));
  }

  lemma CallQuiet(reg: Registry, s0: State, u: State, n: Node, s: State, have: map<string, Args>)
    requires Calling(reg, s0, u, n, true) && Wiring(reg, Entered(u, n, true), s, |u.nodes|, n, have)
    requires !IsSink(reg, n.kind) && OptionIds(n) == {}
    ensures Quiet(reg, s0, Completed(s, |u.nodes|))
  {
    hide SchemaIds, TextIds, InputsMeaning, Wireable, Ready, Core, KnownName;
    SameTexts(s.nodes[|u.nodes|], n);
  }

  lemma SameTexts(n: Node, m: Node)
    requires n.kind == m.kind && n.options == m.options
    ensures TextIds(n) == TextIds(m)
  {
  }
}
