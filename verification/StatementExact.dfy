/** What statements do to the variables and the sinks, said on the statements themselves. */
module StatementExact {
  import opened Wrappers
  import opened Graph
  import opened Ast
  import opened Registry
  import opened Denotation
  import opened CompilationContext
  import opened Lowering
  import opened Slots
  import opened ProgramMeaning
  import opened Evaluation
  import opened StaticTypes
  import StaticTypesExact
  import opened EvaluationExact

  // --------------------------------------------------------------------------- instances

  /** The node a call chain creates when it is a statement or the right side of an assignment. */
  ghost function InstanceOf(reg: Registry, mode: Mode, sc: Scope, e: Expr): Option<Value>
    requires e.Call?
  {
    var p :- DenoteParse(reg, mode, e, !e.func.Call?, sc);
    Instantiate(reg, p)
  }

  /** The options after the slots are resolved against the arguments of each feed step in turn. */
  ghost function OptionsFed(reg: Registry, options: map<string, Meaning>,
                            feeds: seq<FeedDen>): Option<map<string, Meaning>>
  {
    if feeds == [] then Some(options)
    else
      var before :- OptionsFed(reg, options, feeds[..|feeds| - 1]);
      ResolveMeanings(reg, before, Values(feeds[|feeds| - 1].args))
  }

  lemma {:induction false} DraftIs(reg: Registry, c: Component, options: map<string, Meaning>, feeds: seq<FeedDen>)
    ensures var inputs, fed := WireFeeds(reg, c, map[], feeds), OptionsFed(reg, options, feeds);
            FeedAll(reg, c, Draft(options, map[]), feeds) ==
              if inputs.Some? && fed.Some? then Some(Draft(fed.value, inputs.value)) else None
  {
    hide WireFeed, ResolveMeanings;
    if feeds != [] { DraftIs(reg, c, options, feeds[..|feeds| - 1]); }
  }

  lemma InstanceFacts(reg: Registry, mode: Mode, sc: Scope, e: Expr)
    requires e.Call? && DenoteParse(reg, mode, e, !e.func.Call?, sc).Some?
    ensures var p := DenoteParse(reg, mode, e, !e.func.Call?, sc).value;
            var cfg := reg.configure(p.kind, p.params);
            if cfg.None? then InstanceOf(reg, mode, sc, e).None?
            else
              var options := OptionsMeaning(p.kind, cfg.value.options, map[]);
              var inputs, fed := WireFeeds(reg, reg.components[p.kind], map[], p.feeds),
                                 OptionsFed(reg, options, p.feeds);
              InstanceOf(reg, mode, sc, e) ==
                if inputs.Some? && fed.Some? then Some(Configured(p.kind, fed.value, inputs.value, cfg.value)) else None
  {
    hide DenoteParse, FeedAll, OptionsFed, WireFeeds, Configured, OptionsMeaning;
    var p := DenoteParse(reg, mode, e, !e.func.Call?, sc).value;
    var cfg := reg.configure(p.kind, p.params);
    if cfg.Some? {
      DraftIs(reg, reg.components[p.kind], OptionsMeaning(p.kind, cfg.value.options, map[]), p.feeds);
    }
  }

  /** The slots in a configuration select arguments that are there, step by step. */
  ghost predicate SlotsFed(reg: Registry, mode: Mode, sc: Scope, e: Expr, kind: string, cfg: Config)
    requires e.Call?
  {
    && DenoteParse(reg, mode, e, !e.func.Call?, sc).Some?
    && OptionsFed(reg, OptionsMeaning(kind, cfg.options, map[]),
                  DenoteParse(reg, mode, e, !e.func.Call?, sc).value.feeds).Some?
  }

  /** An instance exists when its chain feeds its component, and its keywords and slots can be resolved. */
  lemma InstanceExactly(reg: Registry, mode: Mode, sc: Scope, e: Expr)
    requires e.Call?
    ensures InstanceOf(reg, mode, sc, e).Some? <==>
              && Feeds(reg, mode, sc, e, !e.func.Call?)
              && var (kind, ks) := Callee(e).value;
              && Params(reg, kind, ks, sc).Some? && reg.configure(kind, Params(reg, kind, ks, sc).value).Some?
              && SlotsFed(reg, mode, sc, e, kind, reg.configure(kind, Params(reg, kind, ks, sc).value).value)
  {
    hide DenoteParse, Feeds, OptionsFed, WireFeeds, Configured, OptionsMeaning, Params, Callee, Instantiate;
    StaticTypesExact.FeedsExact(reg, mode, sc, e, !e.func.Call?);
    if Feeds(reg, mode, sc, e, !e.func.Call?) { StaticTypesExact.FeedsFind(reg, mode, sc, e, !e.func.Call?); }
    if DenoteParse(reg, mode, e, !e.func.Call?, sc).Some? { InstanceFacts(reg, mode, sc, e); }
  }

  /** The instance is of the component called; its inputs are what the chain feeds it. */
  lemma InstanceComputes(reg: Registry, host: Host, mode: Mode, sc: Scope, e: Expr)
    requires StandardOperators(reg) && !mode.Presumed? && e.Call? && InstanceOf(reg, mode, sc, e).Some?
    ensures var node := InstanceOf(reg, mode, sc, e).value;
            && node.Apply? && Callee(e).Some? && node.kind == Callee(e).value.0 && node.kind in reg.components
            && SignalMap(reg, host, node.inputs) ==
                 Columns(host, reg.components[node.kind], DirectFeeds(reg, host, mode, sc, e))
            && Params(reg, node.kind, Callee(e).value.1, sc).Some?
            && var cfg := reg.configure(node.kind, Params(reg, node.kind, Callee(e).value.1, sc).value);
            && cfg.Some?
            && if node.kind in {"number", "text", "bool_true", "bool_false", "null_number"}
               then node.timeframe == None && node.session == None
               else node.timeframe == cfg.value.timeframe && node.session == cfg.value.session
  {
    hide DenoteParse, OptionsFed, WireFeeds, OptionsMeaning, Params, Callee, Instantiate, StandardOperators,
         Columns, Signals, DirectFeeds, FedBehind;
    var single := !e.func.Call?;
    var p := DenoteParse(reg, mode, e, single, sc).value;
    InstanceFacts(reg, mode, sc, e);
    FeedsCompute(reg, host, mode, e, single, sc);
    ColumnsSignal(reg, host, p.kind, DirectFeeds(reg, host, mode, sc, e), p.feeds);
  }

  // -------------------------------------------------------------------------- statements

  predicate FreeName(sc: Scope, x: string) { x == "_" || x !in sc }

  lemma {:induction false} ChainIs(e: Expr)
    ensures IsConstructorCall(e) <==> Callee(e).Some?
  {
    if e.Call? && !e.func.Name? { ChainIs(e.func); }
  }

  /** Nothing but x changes. */
  ghost predicate OnlySets(before: Scope, after: Scope, x: string) {
    after.Keys == before.Keys + {x} && forall y :: y in before && y != x ==> after[y] == before[y]
  }

  /** A variable that is assigned an expression stands for what the expression computes. */
  lemma AssignsValue(reg: Registry, mode: Mode, x: string, e: Expr, w: World)
    requires Callee(e).None?
    ensures var r := DenoteStmt(reg, mode, Assign([Name(x)], e), w);
            && (r.Some? <==> FreeName(w.scope, x) && Checked(reg, mode, w.scope, e).Some?)
            && (r.Some? ==>
                  && r.value.sinks == w.sinks && OnlySets(w.scope, r.value.scope, x)
                  && VariableIsTold(reg, mode, w.scope, e, r.value.scope, x))
  {
    hide Denote, Checked, StandardOperators, Direct, Signal;
    ChainIs(e);
    StaticTypesExact.TypesExactly(reg, mode, w.scope, e);
    if DenoteStmt(reg, mode, Assign([Name(x)], e), w).Some? {
      var d := Denote(reg, mode, e, w.scope).value;
      forall host, port | StandardOperators(reg) && !mode.Presumed?
        ensures Member(reg, host, w.scope[x := Handle(d)], x, port) == Direct(reg, host, mode, w.scope, e, port)
      {
        ExpressionComputes(reg, host, mode, e, w.scope, port);
      }
    }
  }

  ghost predicate VariableIsTold(reg: Registry, mode: Mode, sc: Scope, e: Expr, after: Scope, x: string) {
    StandardOperators(reg) && !mode.Presumed? ==>
      forall host, port :: Member(reg, host, after, x, port) == Direct(reg, host, mode, sc, e, port)
  }

  /** The component called has no outputs. */
  predicate Outless(reg: Registry, e: Expr) {
    var callee := Callee(e);
    callee.Some? && callee.value.0 in reg.components && reg.components[callee.value.0].outputs == []
  }

  lemma ParsesCallee(reg: Registry, mode: Mode, sc: Scope, e: Expr)
    requires Callee(e).Some?
    ensures IsConstructorCall(e) && e.Call?
    ensures var p := DenoteParse(reg, mode, e, !e.func.Call?, sc);
            p.Some? ==> p.value.kind == Callee(e).value.0
  {
    hide DenoteParse, Params, Feeds, WireFeeds;
    ChainIs(e);
    StaticTypesExact.FeedsExact(reg, mode, sc, e, !e.func.Call?);
  }

  /** A variable that is assigned a call chain stands for its instance, which is a sink when it has no outputs. */
  lemma AssignsInstance(reg: Registry, mode: Mode, x: string, e: Expr, w: World)
    requires Callee(e).Some?
    ensures var r, node := DenoteStmt(reg, mode, Assign([Name(x)], e), w), InstanceOf(reg, mode, w.scope, e);
            && (r.Some? <==> FreeName(w.scope, x) && node.Some?)
            && (r.Some? ==>
                  && r.value.scope == w.scope[x := Instance(node.value)]
                  && r.value.sinks == w.sinks + (if Outless(reg, e) then [node.value] else []))
  {
    hide DenoteParse, Instantiate, Callee;
    ParsesCallee(reg, mode, w.scope, e);
  }

  /** A call chain on its own adds a sink, when its component has no outputs. */
  lemma StandsAlone(reg: Registry, mode: Mode, e: Expr, w: World)
    ensures var r := DenoteStmt(reg, mode, ExprStmt(e), w);
            && (r.Some? <==> Outless(reg, e) && InstanceOf(reg, mode, w.scope, e).Some?)
            && (r.Some? ==> r.value == World(w.scope, w.sinks + [InstanceOf(reg, mode, w.scope, e).value]))
  {
    hide DenoteParse, Instantiate, Callee;
    ChainIs(e);
    if Callee(e).Some? { ParsesCallee(reg, mode, w.scope, e); }
  }

  // ---------------------------------------------------------------- tuples of variables

  /** No later name is the same. */
  predicate LastName(names: seq<string>, i: nat)
    requires i < |names|
  {
    forall j :: i < j < |names| ==> names[j] != names[i]
  }

  /** Each name stands for the output of its position, except "_"; the last of equal names counts. */
  ghost predicate Binds(before: Scope, after: Scope, node: Value, names: seq<string>, outputs: seq<OutputPort>)
    requires |names| == |outputs|
  {
    && (forall i :: 0 <= i < |names| && names[i] != "_" && LastName(names, i) ==>
          names[i] in after && after[names[i]] == Handle(Den(node, outputs[i].id, None)))
    && (forall y :: y == "_" || y !in names ==>
          (y in after <==> y in before) && (y in before ==> after[y] == before[y]))
  }

  lemma {:induction false} BoundExactly(sc: Scope, node: Value, names: seq<string>, outputs: seq<OutputPort>)
    requires |names| == |outputs|
    ensures Binds(sc, BindAll(sc, node, names, outputs), node, names, outputs)
  {
    if names != [] {
      var n := |names| - 1;
      var before, after := BindAll(sc, node, names[..n], outputs[..n]), BindAll(sc, node, names, outputs);
      BoundExactly(sc, node, names[..n], outputs[..n]);
      forall i | 0 <= i < |names| && names[i] != "_" && LastName(names, i)
        ensures names[i] in after && after[names[i]] == Handle(Den(node, outputs[i].id, None))
      {
        if i < n {
          assert names[n] != names[i];
          forall j | i < j < n ensures names[..n][j] != names[..n][i] { assert names[j] != names[i]; }
          assert LastName(names[..n], i);
        }
      }
      assert names == names[..n] + [names[n]];
    }
  }

  /** The members are variables, none of them bound yet. */
  ghost predicate NewNames(members: seq<Expr>, sc: Scope) {
    forall i :: 0 <= i < |members| ==> members[i].Name? && FreeName(sc, members[i].id)
  }

  /** Variables that share a call chain stand for its outputs in order. */
  lemma AssignsOutputs(reg: Registry, mode: Mode, members: seq<Expr>, e: Expr, w: World)
    ensures var r := DenoteStmt(reg, mode, Assign([Tuple(members)], e), w);
            && (r.Some? <==>
                  && Callee(e).Some? && NewNames(members, w.scope) && InstanceOf(reg, mode, w.scope, e).Some?
                  && Callee(e).value.0 in reg.components && |reg.components[Callee(e).value.0].outputs| == |members|)
            && (r.Some? ==>
                  var node, outputs := InstanceOf(reg, mode, w.scope, e).value,
                                       reg.components[Callee(e).value.0].outputs;
                  && Binds(w.scope, r.value.scope, node, seq(|members|, i requires 0 <= i < |members| => members[i].id),
                           outputs)
                  && r.value.sinks == w.sinks + (if outputs == [] then [node] else []))
  {
    hide DenoteParse, Instantiate, Callee, Binds, BindAll;
    ChainIs(e);
    if Callee(e).Some? {
      ParsesCallee(reg, mode, w.scope, e);
      NewNamesAre(members, w.scope);
      var r := DenoteStmt(reg, mode, Assign([Tuple(members)], e), w);
      if r.Some? {
        BoundExactly(w.scope, InstanceOf(reg, mode, w.scope, e).value, ProgramMeaning.NamesOf(members),
                     reg.components[Callee(e).value.0].outputs);
      }
    }
  }

  lemma NewNamesAre(members: seq<Expr>, sc: Scope)
    ensures Unpackable(members, sc) <==> NewNames(members, sc)
  {
    if Unpackable(members, sc) {
      forall i | 0 <= i < |members| ensures members[i].Name? && FreeName(sc, members[i].id) {
        assert members[i] in members;
      }
    }
  }

  /** Nothing else can be assigned to, and to one target only. */
  lemma OtherTargets(reg: Registry, mode: Mode, targets: seq<Expr>, e: Expr, w: World)
    requires |targets| != 1 || !(targets[0].Name? || targets[0].Tuple?)
    ensures DenoteStmt(reg, mode, Assign(targets, e), w).None?
  {
    hide DenoteParse, Denote;
  }

  // ------------------------------------------------------------------------ lowered nodes

  /** Lowering succeeds exactly on expressions that check; the node it returns computes the expression. */
  lemma LoweredComputes(reg: Registry, host: Host, s0: State, s1: State, r: Result<ValueHandle>, e: Expr)
    requires Lowered(reg, s0, s1, r, Denote(reg, Folded, e, ScopeOf(reg, s0)))
    ensures r.Ok? <==> Checked(reg, Folded, ScopeOf(reg, s0), e).Some?
    ensures r.Ok? ==>
              && r.value.nodeId in s1.val
              && var shape := Checked(reg, Folded, ScopeOf(reg, s0), e).value;
                 Kind(s1.val[r.value.nodeId]) == shape.kind && r.value.handle == shape.handle
    ensures r.Ok? && StandardOperators(reg) ==>
              forall port :: Signal(reg, host, s1.val[r.value.nodeId],
                                    "#" + (if port == None then r.value.handle else port.value)) ==
                               Direct(reg, host, Folded, ScopeOf(reg, s0), e, port)
  {
    hide Denote, Checked, StandardOperators, Direct, Signal, Steps, ScopeOf;
    var sc := ScopeOf(reg, s0);
    StaticTypesExact.TypesExactly(reg, Folded, sc, e);
    if r.Ok? && StandardOperators(reg) {
      forall port: Option<string>
        ensures Signal(reg, host, s1.val[r.value.nodeId],
                       "#" + (if port == None then r.value.handle else port.value)) ==
                  Direct(reg, host, Folded, sc, e, port)
      {
        ExpressionComputes(reg, host, Folded, e, sc, port);
      }
    }
  }
}
