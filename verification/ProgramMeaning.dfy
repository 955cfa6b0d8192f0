/** What a whole program means: the variables it binds and the sinks it feeds, in order. */
module ProgramMeaning {
  import opened Wrappers
  import opened Graph
  import opened Ast
  import opened Registry
  import opened Denotation
  import opened Slots

  /** A component instance while its feed steps are applied one by one. */
  datatype Draft = Draft(options: map<string, Meaning>, inputs: map<string, Args>)

  /** One feed step wires its arguments, then resolves the slots the options still contain. */
  ghost function FeedOne(reg: Registry, c: Component, draft: Draft, fd: FeedDen): Option<Draft> {
    var inputs :- WireFeed(reg, c, draft.inputs, fd);
    var options :- ResolveMeanings(reg, draft.options, Values(fd.args));
    Some(Draft(options, inputs))
  }

  ghost function FeedAll(reg: Registry, c: Component, draft: Draft, fds: seq<FeedDen>): Option<Draft> {
    if fds == [] then Some(draft)
    else
      var before :- FeedAll(reg, c, draft, fds[..|fds| - 1]);
      FeedOne(reg, c, before, fds[|fds| - 1])
  }

  /** The node of a component call that is a statement or the right side of an assignment. */
  ghost function Instantiate(reg: Registry, p: Parsed): Option<Value>
    requires p.kind in reg.components
  {
    var cfg :- reg.configure(p.kind, p.params);
    var draft :- FeedAll(reg, reg.components[p.kind], Draft(OptionsMeaning(p.kind, cfg.options, map[]), map[]),
                         p.feeds);
    Some(Configured(p.kind, draft.options, draft.inputs, cfg))
  }

  datatype World = World(scope: Scope, sinks: seq<Value>)

  /** A chain of calls that starts at a name. */
  predicate IsConstructorCall(e: Expr) { e.Call? && (e.func.Name? || IsConstructorCall(e.func)) }

  function SinkOf(reg: Registry, kind: string, node: Value): seq<Value> { if IsSink(reg, kind) then [node] else [] }

  /** Outputs bound to names one by one; "_" is thrown away. */
  function BindAll(sc: Scope, node: Value, names: seq<string>, outputs: seq<OutputPort>): Scope
    requires |names| == |outputs|
  {
    if names == [] then sc
    else
      var n := |names| - 1;
      var before := BindAll(sc, node, names[..n], outputs[..n]);
      if names[n] == "_" then before else before[names[n] := Handle(OfInstance(node, outputs[n].id))]
  }

  function Taken(sc: Scope, x: string): bool { x != "_" && x in sc }

  function NamesOf(members: seq<Expr>): seq<string>
    requires forall m :: m in members ==> m.Name?
  {
    seq(|members|, i requires 0 <= i < |members| => members[i].id)
  }

  ghost function AssignInstance(reg: Registry, x: string, p: Parsed, w: World): Option<World>
    requires p.kind in reg.components
  {
    if Taken(w.scope, x) then None
    else
      var node :- Instantiate(reg, p);
      Some(World(w.scope[x := Instance(node)], w.sinks + SinkOf(reg, p.kind, node)))
  }

  ghost predicate Unpackable(members: seq<Expr>, sc: Scope) {
    forall m :: m in members ==> m.Name? && !Taken(sc, m.id)
  }

  /** Every target name must be new and there must be one per output. */
  ghost function Unpack(reg: Registry, members: seq<Expr>, p: Parsed, w: World): Option<World>
    requires p.kind in reg.components
  {
    if !Unpackable(members, w.scope) then None
    else
      var node :- Instantiate(reg, p);
      var outputs := reg.components[p.kind].outputs;
      if |outputs| != |members| then None
      else Some(World(BindAll(w.scope, node, NamesOf(members), outputs), w.sinks + SinkOf(reg, p.kind, node)))
  }

  ghost function AssignConstructor(reg: Registry, mode: Mode, target: Expr, e: Expr, w: World): Option<World>
    requires e.Call?
  {
    var p :- DenoteParse(reg, mode, e, !e.func.Call?, w.scope);
    match target
    case Name(x) => AssignInstance(reg, x, p, w)
    case Tuple(members) => Unpack(reg, members, p, w)
    case _ => None
  }

  ghost function AssignExpression(reg: Registry, mode: Mode, target: Expr, e: Expr, w: World): Option<World> {
    if !target.Name? || Taken(w.scope, target.id) then None
    else
      var d :- Denote(reg, mode, e, w.scope);
      Some(World(w.scope[target.id := Handle(d)], w.sinks))
  }

  ghost function CallStatement(reg: Registry, mode: Mode, e: Expr, w: World): Option<World>
    requires e.Call?
  {
    var p :- DenoteParse(reg, mode, e, !e.func.Call?, w.scope);
    FeedSink(reg, p, w)
  }

  /** Only components without outputs may stand alone. */
  ghost function FeedSink(reg: Registry, p: Parsed, w: World): Option<World>
    requires p.kind in reg.components
  {
    if reg.components[p.kind].outputs != [] then None
    else
      var node :- Instantiate(reg, p);
      Some(World(w.scope, w.sinks + [node]))
  }

  ghost function DenoteStmt(reg: Registry, mode: Mode, st: Stmt, w: World): Option<World> {
    match st
    case Assign(targets, e) =>
      if |targets| != 1 then None
      else if targets[0].Attribute? then None
      else if IsConstructorCall(e) then AssignConstructor(reg, mode, targets[0], e, w)
      else AssignExpression(reg, mode, targets[0], e, w)
    case ExprStmt(e) =>
      if IsConstructorCall(e) then CallStatement(reg, mode, e, w) else None
  }

  ghost function DenoteModule(reg: Registry, mode: Mode, m: Module, w: World): Option<World> {
    if m == [] then Some(w)
    else
      var before :- DenoteModule(reg, mode, m[..|m| - 1], w);
      DenoteStmt(reg, mode, m[|m| - 1], before)
  }

  const START := World(map[], [])
}
