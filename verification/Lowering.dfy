/**
 What every step of lowering keeps: the invariant of the shared context, and the relation
 between the context before and after a step.
 */
module Lowering {
  import opened Wrappers
  import opened Graph
  import opened Registry
  import opened NodeIds
  import opened CompilationContext
  import opened Denotation

  /** Everything the node mentions is known, and its inputs are "id#handle" texts. */
  ghost predicate Grounded(n: Node, known: set<Id>) {
    && InputIds(n) <= known && OptionIds(n) <= known
    && forall r :: r in InputRefs(n) ==> HasHash(r)
  }

  /** What an option names is wired directly or through one conversion. */
  ghost predicate Near(nodes: seq<Node>, n: Node, d: Id) {
    d in InputIds(n) || exists m :: m in nodes && m.id in InputIds(n) && d in InputIds(m)
  }

  /** c is d, or a node that reads d. */
  ghost predicate Via(nodes: seq<Node>, c: Id, d: Id) {
    c == d || exists m :: m in nodes && m.id == c && d in InputIds(m)
  }

  ghost predicate Finished(s: State, n: Node) {
    && n.id in s.val && s.val[n.id] == NodeValue(n, s.val)
    && Grounded(n, s.val.Keys)
    && forall d :: d in OptionIds(n) ==> Near(s.nodes, n, d)
  }

  ghost predicate KnownName(reg: Registry, s: State, id: Id) {
    PlainName(id) && (id in s.used || !Reserved(reg, id))
  }

  ghost predicate Named(reg: Registry, s: State) {
    forall n :: n in s.nodes ==> KnownName(reg, s, n.id)
  }

  ghost predicate Indexed(s: State) {
    && s.val.Keys <= s.lookup.Keys
    && (forall id :: id in s.lookup ==> s.lookup[id] < |s.nodes| && s.nodes[s.lookup[id]].id == id)
    && (forall id :: id in s.types ==> id in Ids(s.nodes) && s.types[id].Keys == {"result"})
  }

  ghost predicate AllFinished(s: State) {
    forall n :: n in s.nodes && n.id in s.val ==> Finished(s, n)
  }

  /** The invariant of the node tables. */
  ghost predicate Core(reg: Registry, s: State) {
    Distinct(s.nodes) && Named(reg, s) && Indexed(s) && AllFinished(s)
  }

  /** Old nodes stay, except that node t may be filled in; new ones have generated ids. */
  ghost predicate NodesGrow(reg: Registry, s0: State, s1: State, t: int) {
    && |s0.nodes| <= |s1.nodes|
    && (forall i :: 0 <= i < |s0.nodes| && i != t ==> s1.nodes[i] == s0.nodes[i])
    && (0 <= t < |s0.nodes| ==> s1.nodes[t].id == s0.nodes[t].id && s1.nodes[t].kind == s0.nodes[t].kind)
    && (forall i :: |s0.nodes| <= i < |s1.nodes| ==> Reserved(reg, s1.nodes[i].id))
  }

  /** Terms stay, and exactly the new nodes have gained one. */
  ghost predicate ValuesGrow(s0: State, s1: State)
    requires |s0.nodes| <= |s1.nodes|
  {
    && (forall id :: id in s0.val ==> id in s1.val && s1.val[id] == s0.val[id])
    && s1.val.Keys == s0.val.Keys + Ids(s1.nodes[|s0.nodes|..])
  }

  ghost predicate TypesStay(s0: State, s1: State) {
    forall id :: id in Ids(s0.nodes) ==> Tracked(s1, id) == Tracked(s0, id)
  }

  ghost predicate BindingsStay(reg: Registry, s0: State, s1: State) {
    forall x :: !Reserved(reg, x) ==> BindingOf(s1, x) == BindingOf(s0, x)
  }

  /** s1 is s0 after a step that may fill in node t and otherwise only adds finished nodes. */
  ghost predicate Extends(reg: Registry, s0: State, s1: State, t: int) {
    && NodesGrow(reg, s0, s1, t) && s0.used <= s1.used && s0.lookup.Keys <= s1.lookup.Keys
    && ValuesGrow(s0, s1) && TypesStay(s0, s1) && BindingsStay(reg, s0, s1)
  }

  /** No sink has been added, and no node that names another outside its schema. */
  ghost predicate Quiet(reg: Registry, s0: State, s1: State) {
    forall i :: |s0.nodes| <= i < |s1.nodes| ==> !IsSink(reg, s1.nodes[i].kind) && TextIds(s1.nodes[i]) == {}
  }

  /** What lowering an expression does: sinks are only created by statements. */
  ghost predicate Grows(reg: Registry, s0: State, s1: State, t: int) {
    Extends(reg, s0, s1, t) && Quiet(reg, s0, s1)
  }

  ghost function Tracked(s: State, id: Id): Option<DataType> {
    if id in s.types && "result" in s.types[id] then Some(s.types[id]["result"]) else None
  }

  ghost function BindingOf(s: State, x: string): Option<Binding> {
    if x in s.bindings then Some(s.bindings[x]) else None
  }

  lemma GrowsRefl(reg: Registry, s: State, t: int)
    ensures Grows(reg, s, s, t)
  {
    assert s.nodes[|s.nodes|..] == [];
  }

  lemma IdsGrow(reg: Registry, a: State, b: State, t: int)
    requires NodesGrow(reg, a, b, t)
    ensures Ids(a.nodes) <= Ids(b.nodes)
  {
    forall id | id in Ids(a.nodes)
      ensures id in Ids(b.nodes)
    {
      var i := NodeWithId(a.nodes, id);
      assert b.nodes[i].id == id;
    }
  }

  lemma NodesGrowTrans(reg: Registry, a: State, b: State, c: State, t: int)
    requires NodesGrow(reg, a, b, t) && NodesGrow(reg, b, c, t) && t < |a.nodes|
    ensures NodesGrow(reg, a, c, t)
    ensures Ids(c.nodes[|a.nodes|..]) == Ids(b.nodes[|a.nodes|..]) + Ids(c.nodes[|b.nodes|..])
  {
    var k, m := |a.nodes|, |b.nodes|;
    assert c.nodes[k..] == c.nodes[k..m] + c.nodes[m..];
    assert c.nodes[k..m] == b.nodes[k..];
  }

  lemma ExtendsTrans(reg: Registry, a: State, b: State, c: State, t: int)
    requires Extends(reg, a, b, t) && Extends(reg, b, c, t) && t < |a.nodes|
    ensures Extends(reg, a, c, t)
  {
    NodesGrowTrans(reg, a, b, c, t);
    IdsGrow(reg, a, b, t);
  }

  lemma GrowsTrans(reg: Registry, a: State, b: State, c: State, t: int)
    requires Grows(reg, a, b, t) && Grows(reg, b, c, t) && t < |a.nodes|
    ensures Grows(reg, a, c, t)
  {
    ExtendsTrans(reg, a, b, c, t);
    forall i | |a.nodes| <= i < |c.nodes|
      ensures !IsSink(reg, c.nodes[i].kind)
    {
      if i < |b.nodes| { assert c.nodes[i] == b.nodes[i]; }
    }
  }

  // ------------------------------------------------------------------ representation

  /** The handle stands for the denotation. */
  ghost predicate Represents(s: State, h: ValueHandle, d: Den) {
    && h.nodeId in s.val && s.val[h.nodeId] == d.node
    && h.handle == d.handle && Tracked(s, h.nodeId) == d.tracked
  }

  lemma StillRepresents(reg: Registry, s0: State, s1: State, t: int, h: ValueHandle, d: Den)
    requires Core(reg, s0) && Extends(reg, s0, s1, t) && Represents(s0, h, d)
    ensures Represents(s1, h, d)
  {
    assert s0.nodes[s0.lookup[h.nodeId]] in s0.nodes;
  }

  function RefTo(h: ValueHandle): string { JoinId(h.nodeId, h.handle) }

  lemma RefMeans(reg: Registry, s: State, h: ValueHandle, d: Den)
    requires Core(reg, s) && Represents(s, h, d)
    ensures RefValue(RefTo(h), s.val) == ValueOf(d)
    ensures Refers(RefTo(h)) && NodeOf(RefTo(h)) == h.nodeId && PlainName(h.nodeId)
  {
    assert s.nodes[s.lookup[h.nodeId]] in s.nodes;
    WordIsPlain(h.nodeId);
    SplitJoined(h.nodeId, h.handle);
  }

  lemma KindAgrees(reg: Registry, s: State, h: ValueHandle, d: Den)
    requires Core(reg, s) && Represents(s, h, d)
    ensures s.nodes[s.lookup[h.nodeId]].kind == KindOf(d.node)
  {
    var n := s.nodes[s.lookup[h.nodeId]];
    assert n in s.nodes && n.id == h.nodeId;
    assert Finished(s, n);
  }

  // -------------------------------------------------------------------------- steps

  lemma UseKeeps(reg: Registry, s: State, id: Id)
    requires Core(reg, s)
    ensures Core(reg, s.(used := s.used + {id}))
  {
    var s' := s.(used := s.used + {id});
    forall n | n in s'.nodes
      ensures KnownName(reg, s', n.id)
    {
      assert KnownName(reg, s, n.id);
    }
    forall n | n in s'.nodes && n.id in s'.val
      ensures Finished(s', n)
    {
      assert Finished(s, n);
    }
  }

  lemma FreshId(reg: Registry, s: State, base: string, id: Id)
    requires Core(reg, s) && PlainRegistry(reg) && IsBase(reg, base)
    requires id !in s.used && exists k :: 0 <= k && id == Candidate(base, k)
    ensures id !in Ids(s.nodes) && Reserved(reg, id) && PlainName(id)
  {
    var k :| 0 <= k && id == Candidate(base, k);
    assert Reserved(reg, id);
    BaseIsPlain(reg, base);
    CandidateIsPlain(base, k);
    forall n | n in s.nodes
      ensures n.id != id
    {
      assert KnownName(reg, s, n.id);
    }
  }

  lemma PushNamed(reg: Registry, s: State, n: Node)
    requires Named(reg, s) && KnownName(reg, s, n.id)
    ensures Named(reg, Pushed(s, n))
  {
    forall m | m in Pushed(s, n).nodes
      ensures KnownName(reg, Pushed(s, n), m.id)
    {
      assert KnownName(reg, s, m.id);
    }
  }

  lemma PushIndexed(s: State, n: Node)
    requires Indexed(s)
    ensures Indexed(Pushed(s, n)) && s.val.Keys <= Ids(s.nodes)
  {
    IndexedIds(s);
    assert forall m :: m in s.nodes ==> m in Pushed(s, n).nodes;
  }

  lemma PushFinished(s: State, n: Node)
    requires AllFinished(s) && n.id !in s.val
    ensures AllFinished(Pushed(s, n))
  {
    hide NodeValue, Grounded;
    forall m | m in Pushed(s, n).nodes && m.id in s.val
      ensures Finished(Pushed(s, n), m)
    {
      assert m in s.nodes && Finished(s, m);
      GroundedReads(m, s.val.Keys);
      NearStays(s.nodes, Pushed(s, n).nodes, m, s.val.Keys);
    }
  }

  lemma GroundedReads(n: Node, known: set<Id>)
    requires Grounded(n, known)
    ensures InputIds(n) <= known
  {
  }

  lemma DistinctPush(g: seq<Node>, n: Node)
    requires Distinct(g) && n.id !in Ids(g)
    ensures Distinct(g + [n])
  {
    forall i | 0 <= i < |g| ensures g[i].id != n.id { assert g[i] in g; }
  }

  lemma PushKeeps(reg: Registry, s: State, n: Node)
    requires Core(reg, s) && n.id !in Ids(s.nodes) && KnownName(reg, s, n.id)
    ensures Core(reg, Pushed(s, n)) && n.id !in s.val
  {
    hide Named, Indexed, AllFinished, Distinct, KnownName;
    PushNamed(reg, s, n);
    PushIndexed(s, n);
    PushFinished(s, n);
    DistinctPush(s.nodes, n);
  }

  /** Completed neighbours are never replaced, so Near is stable. */
  lemma NearStays(before: seq<Node>, after: seq<Node>, n: Node, known: set<Id>)
    requires InputIds(n) <= known
    requires forall m :: m in before && m.id in known ==> m in after
    ensures forall d :: Near(before, n, d) ==> Near(after, n, d)
  {
  }

  lemma FinishedStays(s: State, s': State, m: Node, id: Id)
    requires Finished(s, m) && id !in s.val
    requires s'.val.Keys == s.val.Keys + {id} && forall x :: x in s.val ==> s'.val[x] == s.val[x]
    requires forall x :: x in s.nodes && x.id in s.val ==> x in s'.nodes
    ensures Finished(s', m)
  {
    SameMentionsSameValue(m, s.val, s'.val);
    NearStays(s.nodes, s'.nodes, m, s.val.Keys);
  }

  lemma DistinctUpdate(g: seq<Node>, t: nat, n: Node)
    requires Distinct(g) && t < |g| && g[t].id == n.id
    ensures Distinct(g[t := n]) && Ids(g[t := n]) == Ids(g)
  {
    var h := g[t := n];
    assert forall i :: 0 <= i < |g| ==> h[i].id == g[i].id;
    forall x ensures x in Ids(g) <==> x in Ids(h) {
      if x in Ids(g) { var i := NodeWithId(g, x); assert h[i] in h; }
      if x in Ids(h) { var i := NodeWithId(h, x); assert g[i] in g; }
    }
  }

  ghost predicate MayFill(s: State, t: nat, n: Node) {
    && t < |s.nodes| && s.nodes[t].id == n.id && n.id !in s.val
    && Grounded(n, s.val.Keys)
    && forall d :: d in OptionIds(n) ==> Near(s.nodes, n, d)
  }

  lemma FillNames(reg: Registry, s: State, t: nat, n: Node, tracked: Option<DataType>)
    requires Named(reg, s) && t < |s.nodes| && s.nodes[t].id == n.id
    ensures Named(reg, Filled(s, t, n, tracked))
  {
    var s' := Filled(s, t, n, tracked);
    forall m | m in s'.nodes
      ensures KnownName(reg, s', m.id)
    {
      var i :| 0 <= i < |s'.nodes| && s'.nodes[i] == m;
      assert s.nodes[i] in s.nodes && KnownName(reg, s, s.nodes[i].id);
    }
  }

  lemma FillFinishes(s: State, t: nat, n: Node, tracked: Option<DataType>)
    requires Distinct(s.nodes) && AllFinished(s) && MayFill(s, t, n)
    ensures AllFinished(Filled(s, t, n, tracked))
  {
    var s' := Filled(s, t, n, tracked);
    assert s'.nodes[t] == n;
    forall x | x in s.nodes && x.id in s.val
      ensures x in s'.nodes
    {
      var i :| 0 <= i < |s.nodes| && s.nodes[i] == x;
      assert s'.nodes[i] == x;
    }
    forall m | m in s'.nodes && m.id in s'.val
      ensures Finished(s', m)
    {
      var i :| 0 <= i < |s'.nodes| && s'.nodes[i] == m;
      if i == t {
        SameMentionsSameValue(n, s.val, s'.val);
        NearStays(s.nodes, s'.nodes, n, s.val.Keys);
      } else {
        assert s.nodes[i] == m && m.id != n.id;
        FinishedStays(s, s', m, n.id);
      }
    }
  }

  lemma FillKeeps(reg: Registry, s: State, t: nat, n: Node, tracked: Option<DataType>)
    requires Core(reg, s) && MayFill(s, t, n)
    ensures Core(reg, Filled(s, t, n, tracked))
  {
    hide Named, AllFinished, Grounded, NodeValue;
    DistinctUpdate(s.nodes, t, n);
    FillNames(reg, s, t, n, tracked);
    FillFinishes(s, t, n, tracked);
  }

  lemma IndexedIds(s: State)
    requires Indexed(s)
    ensures s.val.Keys <= Ids(s.nodes) && s.types.Keys <= Ids(s.nodes)
  {
    forall id | id in s.val ensures id in Ids(s.nodes) {
      assert s.nodes[s.lookup[id]] in s.nodes;
    }
  }

  lemma PlaceholderNodes(reg: Registry, s0: State, p: Node, s1: State, n: Node)
    requires NodesGrow(reg, Pushed(s0, p), s1, |s0.nodes|) && n.id == p.id && Reserved(reg, p.id)
    ensures NodesGrow(reg, s0, s1.(nodes := s1.nodes[|s0.nodes| := n]), -1)
    ensures Ids(s1.nodes[|s0.nodes| := n][|s0.nodes|..]) == {n.id} + Ids(s1.nodes[|s0.nodes| + 1..])
    ensures Ids(s0.nodes) <= Ids(Pushed(s0, p).nodes)
  {
    var t, s := |s0.nodes|, Pushed(s0, p);
    assert forall i :: 0 <= i < t ==> s.nodes[i] == s0.nodes[i];
    assert s1.nodes[t := n][t..] == [n] + s1.nodes[t + 1..];
  }

  lemma PlaceholderValues(s0: State, p: Node, s1: State, n: Node, tracked: Option<DataType>)
    requires s0.val.Keys <= Ids(s0.nodes) && p.id !in Ids(s0.nodes) && n.id == p.id && |s0.nodes| < |s1.nodes|
    requires ValuesGrow(Pushed(s0, p), s1)
    requires Ids(s1.nodes[|s0.nodes| := n][|s0.nodes|..]) == {n.id} + Ids(s1.nodes[|s0.nodes| + 1..])
    ensures ValuesGrow(s0, Filled(s1, |s0.nodes|, n, tracked))
  {
    hide Ids, NodeValue;
    assert s1.nodes[|Pushed(s0, p).nodes|..] == s1.nodes[|s0.nodes| + 1..];
  }

  lemma PlaceholderTypes(s0: State, p: Node, s1: State, n: Node, tracked: Option<DataType>)
    requires s0.types.Keys <= Ids(s0.nodes) && p.id !in Ids(s0.nodes) && n.id == p.id && |s0.nodes| < |s1.nodes|
    requires TypesStay(Pushed(s0, p), s1) && Ids(s0.nodes) <= Ids(Pushed(s0, p).nodes)
    ensures TypesStay(s0, Filled(s1, |s0.nodes|, n, tracked))
  {
    hide Ids, NodeValue;
    var f := Filled(s1, |s0.nodes|, n, tracked);
    forall id | id in Ids(s0.nodes)
      ensures Tracked(f, id) == Tracked(s0, id)
    {
      assert Tracked(s1, id) == Tracked(Pushed(s0, p), id);
    }
  }

  /** Completing a placeholder turns a step after the push into a step from before it. */
  lemma PlaceholderExtends(reg: Registry, s0: State, p: Node, s1: State, n: Node, tracked: Option<DataType>)
    requires Core(reg, s0) && p.id !in Ids(s0.nodes) && Reserved(reg, p.id)
    requires Extends(reg, Pushed(s0, p), s1, |s0.nodes|) && n.id == p.id
    ensures Extends(reg, s0, Filled(s1, |s0.nodes|, n, tracked), -1)
  {
    hide Ids, NodeValue, ValuesGrow, TypesStay;
    IndexedIds(s0);
    PlaceholderNodes(reg, s0, p, s1, n);
    PlaceholderLength(reg, s0, p, s1);
    PlaceholderValues(s0, p, s1, n, tracked);
    PlaceholderTypes(s0, p, s1, n, tracked);
    PlaceholderBindings(reg, s0, p, s1, n, tracked);
  }

  lemma PlaceholderLength(reg: Registry, s0: State, p: Node, s1: State)
    requires NodesGrow(reg, Pushed(s0, p), s1, |s0.nodes|)
    ensures |s0.nodes| < |s1.nodes|
  {
  }

  lemma PlaceholderBindings(reg: Registry, s0: State, p: Node, s1: State, n: Node, tracked: Option<DataType>)
    requires BindingsStay(reg, Pushed(s0, p), s1) && |s0.nodes| < |s1.nodes|
    ensures BindingsStay(reg, s0, Filled(s1, |s0.nodes|, n, tracked))
  {
    forall x | !Reserved(reg, x)
      ensures BindingOf(Filled(s1, |s0.nodes|, n, tracked), x) == BindingOf(s0, x)
    {
      assert BindingOf(s1, x) == BindingOf(Pushed(s0, p), x);
    }
  }

  lemma PlaceholderGrows(reg: Registry, s0: State, p: Node, s1: State, n: Node, tracked: Option<DataType>)
    requires Core(reg, s0) && p.id !in Ids(s0.nodes) && Reserved(reg, p.id)
    requires Grows(reg, Pushed(s0, p), s1, |s0.nodes|) && n.id == p.id && !IsSink(reg, n.kind) && TextIds(n) == {}
    ensures Grows(reg, s0, Filled(s1, |s0.nodes|, n, tracked), -1)
  {
    hide TextIds;
    PlaceholderExtends(reg, s0, p, s1, n, tracked);
  }

  lemma GrowsWeaken(reg: Registry, a: State, b: State, t: int)
    requires Grows(reg, a, b, -1)
    ensures Grows(reg, a, b, t)
  {
  }

  // -------------------------------------------------------------------------- scopes

  /** Variables are bound to finished nodes. */
  ghost predicate Bound(reg: Registry, s: State) {
    && (forall x :: x in s.bindings && !Reserved(reg, x) ==>
          match s.bindings[x]
          case NodeHandle(h) => h.nodeId in s.val
          case ComponentName(k) => x in s.val && KindOf(s.val[x]) == k && Tracked(s, x) == None)
    && (forall n :: n in s.nodes && !Reserved(reg, n.id) ==> n.id in s.bindings)
  }

  ghost predicate Ready(reg: Registry, s: State) { Core(reg, s) && Bound(reg, s) }

  function TermOf(s: State, id: Id): Value { if id in s.val then s.val[id] else External(id) }

  ghost function EntryOf(s: State, x: string): Entry
    requires x in s.bindings
  {
    match s.bindings[x]
    case NodeHandle(h) => Handle(Den(TermOf(s, h.nodeId), h.handle, Tracked(s, h.nodeId)))
    case ComponentName(_) => Instance(TermOf(s, x))
  }

  ghost function ScopeOf(reg: Registry, s: State): Scope {
    map x | x in s.bindings && !Reserved(reg, x) :: EntryOf(s, x)
  }

  lemma BoundStays(reg: Registry, s0: State, s1: State)
    requires Ready(reg, s0) && Extends(reg, s0, s1, -1)
    ensures Bound(reg, s1)
  {
    IndexedIds(s0);
    forall x | x in s1.bindings && !Reserved(reg, x)
      ensures match s1.bindings[x]
              case NodeHandle(h) => h.nodeId in s1.val
              case ComponentName(k) => x in s1.val && KindOf(s1.val[x]) == k && Tracked(s1, x) == None
    {
      assert BindingOf(s1, x) == BindingOf(s0, x);
    }
    forall n | n in s1.nodes && !Reserved(reg, n.id)
      ensures n.id in s1.bindings
    {
      var i :| 0 <= i < |s1.nodes| && s1.nodes[i] == n;
      assert i < |s0.nodes| && s0.nodes[i] in s0.nodes;
      assert BindingOf(s1, n.id) == BindingOf(s0, n.id);
    }
  }

  lemma EntriesStay(reg: Registry, s0: State, s1: State)
    requires Ready(reg, s0) && Extends(reg, s0, s1, -1)
    ensures forall x :: !Reserved(reg, x) ==> (x in s0.bindings <==> x in s1.bindings)
    ensures forall x :: !Reserved(reg, x) && x in s0.bindings && x in s1.bindings ==> EntryOf(s1, x) == EntryOf(s0, x)
  {
    IndexedIds(s0);
    forall x | !Reserved(reg, x)
      ensures x in s0.bindings <==> x in s1.bindings
      ensures x in s0.bindings && x in s1.bindings ==> EntryOf(s1, x) == EntryOf(s0, x)
    {
      assert BindingOf(s1, x) == BindingOf(s0, x);
    }
  }

  /** Lowering an expression leaves the meaning of every variable alone. */
  lemma ScopeStays(reg: Registry, s0: State, s1: State)
    requires Ready(reg, s0) && Extends(reg, s0, s1, -1)
    ensures ScopeOf(reg, s1) == ScopeOf(reg, s0)
  {
    hide Extends, Core, Bound, EntryOf;
    EntriesStay(reg, s0, s1);
  }

  // -------------------------------------------------------------------------- inputs

  type Inputs = map<string, seq<string>>

  /** `inputs[name].push_back(ref)`. */
  function AddRef(inputs: Inputs, name: string, ref: string): Inputs {
    inputs[name := (if name in inputs then inputs[name] else []) + [ref]]
  }

  /** Every reference is an "id#handle" text naming a known node. */
  ghost predicate Wireable(inputs: Inputs, known: set<Id>) {
    forall k, r :: k in inputs && r in inputs[k] ==> HasHash(r) && NodeOf(r) in known
  }

  lemma WireableGrounds(n: Node, known: set<Id>)
    requires Wireable(n.inputs, known) && OptionIds(n) == {}
    ensures Grounded(n, known)
  {
  }

  lemma AddRefMeans(inputs: Inputs, name: string, ref: string, v: Valuation)
    ensures InputsMeaning(AddRef(inputs, name, ref), v) == Wire(InputsMeaning(inputs, v), name, RefValue(ref, v))
  {
    var before := if name in inputs then inputs[name] else [];
    assert RefValues(before + [ref], v) == RefValues(before, v) + [RefValue(ref, v)];
    if name !in inputs { assert RefValues([], v) == []; }
    var after := AddRef(inputs, name, ref);
    forall k | k in after
      ensures InputsMeaning(after, v)[k] == Wire(InputsMeaning(inputs, v), name, RefValue(ref, v))[k]
    {
    }
  }

  lemma AddRefWireable(inputs: Inputs, name: string, ref: string, known: set<Id>)
    requires Wireable(inputs, known) && HasHash(ref) && NodeOf(ref) in known
    ensures Wireable(AddRef(inputs, name, ref), known)
  {
  }

  /** Wiring the handle of a denotation adds its value. */
  lemma WireHandle(reg: Registry, s: State, inputs: Inputs, name: string, h: ValueHandle, d: Den)
    requires Core(reg, s) && Represents(s, h, d) && Wireable(inputs, s.val.Keys)
    ensures Wireable(AddRef(inputs, name, RefTo(h)), s.val.Keys)
    ensures InputsMeaning(AddRef(inputs, name, RefTo(h)), s.val) == Wire(InputsMeaning(inputs, s.val), name, ValueOf(d))
  {
    RefMeans(reg, s, h, d);
    AddRefMeans(inputs, name, RefTo(h), s.val);
    AddRefWireable(inputs, name, RefTo(h), s.val.Keys);
  }

  lemma WireablyStays(inputs: Inputs, v: Valuation, w: Valuation)
    requires Wireable(inputs, v.Keys) && forall id :: id in v ==> id in w && w[id] == v[id]
    ensures Wireable(inputs, w.Keys) && InputsMeaning(inputs, w) == InputsMeaning(inputs, v)
  {
    forall k | k in inputs
      ensures RefValues(inputs[k], w) == RefValues(inputs[k], v)
    {
      forall i | 0 <= i < |inputs[k]|
        ensures RefValue(inputs[k][i], w) == RefValue(inputs[k][i], v)
      {
        assert inputs[k][i] in inputs[k];
      }
    }
  }

  lemma WireOne(a: string, x: Value)
    ensures Wire(map[], a, x) == map[a := Args([x])]
  {
    assert [] + [x] == [x];
  }

  lemma WireTwo(a: string, x: Value, b: string, y: Value)
    requires a != b
    ensures Wire(Wire(map[], a, x), b, y) == map[a := Args([x]), b := Args([y])]
  {
    assert [] + [x] == [x] && [] + [y] == [y];
  }

  lemma NoInputs(v: Valuation)
    ensures InputsMeaning(map[], v) == map[] && Wireable(map[], v.Keys)
  {
  }

  // ------------------------------------------------------------------ complete nodes

  ghost predicate MayAppend(reg: Registry, s: State, n: Node) {
    && n.id !in Ids(s.nodes) && n.id in s.used && PlainName(n.id) && Reserved(reg, n.id)
    && Wireable(n.inputs, s.val.Keys) && OptionIds(n) == {} && !IsSink(reg, n.kind)
  }

  lemma AppendedIsFilled(s: State, n: Node, tracked: Option<DataType>, bound: bool)
    ensures Filled(Pushed(s, n), |s.nodes|, n, tracked) == Appended(s, n, tracked, bound).(bindings := s.bindings)
  {
    assert (s.nodes + [n])[|s.nodes| := n] == s.nodes + [n];
  }

  lemma AppendCore(reg: Registry, s: State, n: Node, tracked: Option<DataType>, bound: bool)
    requires Core(reg, s) && MayAppend(reg, s, n)
    ensures Core(reg, Appended(s, n, tracked, bound))
  {
    PushKeeps(reg, s, n);
    WireableGrounds(n, s.val.Keys);
    assert Pushed(s, n).nodes[|s.nodes|] == n;
    FillKeeps(reg, Pushed(s, n), |s.nodes|, n, tracked);
    AppendedIsFilled(s, n, tracked, bound);
    CoreIgnoresBindings(reg, Appended(s, n, tracked, bound), s.bindings);
  }

  lemma GrowsWithBindings(reg: Registry, s: State, f: State, b: map<string, Binding>)
    requires Grows(reg, s, f, -1)
    requires forall x :: !Reserved(reg, x) ==> (x in b <==> x in f.bindings) && (x in b ==> b[x] == f.bindings[x])
    ensures Grows(reg, s, f.(bindings := b), -1)
  {
    var f' := f.(bindings := b);
    forall x | !Reserved(reg, x)
      ensures BindingOf(f', x) == BindingOf(s, x)
    {
      assert BindingOf(f, x) == BindingOf(s, x);
    }
    forall id | id in Ids(s.nodes)
      ensures Tracked(f', id) == Tracked(s, id)
    {
      assert Tracked(f, id) == Tracked(s, id);
    }
  }

  lemma AppendGrows(reg: Registry, s: State, n: Node, tracked: Option<DataType>, bound: bool)
    requires Core(reg, s) && MayAppend(reg, s, n)
    ensures Grows(reg, s, Appended(s, n, tracked, bound), -1)
  {
    GrowsRefl(reg, Pushed(s, n), |s.nodes|);
    PlaceholderGrows(reg, s, n, Pushed(s, n), n, tracked);
    AppendedIsFilled(s, n, tracked, bound);
    var f := Filled(Pushed(s, n), |s.nodes|, n, tracked);
    GrowsWithBindings(reg, s, f, Appended(s, n, tracked, bound).bindings);
  }

  /** Appending a complete node keeps the invariant and gives the node its term. */
  lemma AppendKeeps(reg: Registry, s: State, n: Node, tracked: Option<DataType>, bound: bool)
    requires Core(reg, s) && MayAppend(reg, s, n)
    ensures Core(reg, Appended(s, n, tracked, bound))
    ensures Grows(reg, s, Appended(s, n, tracked, bound), -1)
    ensures Tracked(Appended(s, n, tracked, bound), n.id) == tracked
  {
    AppendCore(reg, s, n, tracked, bound);
    AppendGrows(reg, s, n, tracked, bound);
    IndexedIds(s);
  }

  lemma CoreIgnoresBindings(reg: Registry, s: State, b: map<string, Binding>)
    requires Core(reg, s.(bindings := b))
    ensures Core(reg, s)
  {
    var s' := s.(bindings := b);
    forall n | n in s.nodes
      ensures KnownName(reg, s, n.id)
    {
      assert KnownName(reg, s', n.id);
    }
    forall n | n in s.nodes && n.id in s.val
      ensures Finished(s, n)
    {
      assert Finished(s', n);
    }
  }

  lemma SameOptionIds(n: Node, m: Node)
    requires n.kind == m.kind && n.options == m.options
    ensures OptionIds(n) == OptionIds(m)
  {
  }

  /** Creating one complete node: a fresh id, then the push. */
  method Emit(ctx: Context, base: string, kind: string, cfg: Config, inputs: Inputs,
              tracked: Option<DataType>, bound: bool)
    returns (id: Id)
    requires Core(ctx.registry, ctx.S()) && PlainRegistry(ctx.registry) && IsBase(ctx.registry, base)
    requires !IsSink(ctx.registry, kind) && Wireable(inputs, ctx.val.Keys)
    requires OptionIds(Node(kind, "", cfg.options, inputs, None, None)) == {}
    modifies ctx
    ensures Core(ctx.registry, ctx.S()) && Grows(ctx.registry, old(ctx.S()), ctx.S(), -1)
    ensures id in ctx.val && Tracked(ctx.S(), id) == tracked
    ensures ctx.val[id] == Configured(kind, OptionsMeaning(kind, cfg.options, old(ctx.val)),
                                      InputsMeaning(inputs, old(ctx.val)), cfg)
    ensures ctx.algorithms == old(ctx.algorithms) + [Node(kind, id, cfg.options, inputs, cfg.timeframe, cfg.session)]
  {
    hide Core, Grows, PlainRegistry, IsBase, Wireable, OptionIds, OptionsMeaning;
    ghost var s0 := ctx.S();
    id := ctx.UniqueNodeId(base);
    FreshId(ctx.registry, s0, base, id);
    UseKeeps(ctx.registry, s0, id);
    ghost var s1 := ctx.S();
    assert s1 == s0.(used := s0.used + {id});
    var n := Node(kind, id, cfg.options, inputs, cfg.timeframe, cfg.session);
    SameOptionIds(Node(kind, "", cfg.options, inputs, None, None), n);
    AppendKeeps(ctx.registry, s1, n, tracked, bound);
    ctx.Append(n, tracked, bound);
    UsedGrows(ctx.registry, s0, s1, ctx.S());
  }

  lemma UsedExtends(reg: Registry, s0: State, s1: State, s2: State)
    requires s1 == s0.(used := s1.used) && s0.used <= s1.used && Extends(reg, s1, s2, -1)
    ensures Extends(reg, s0, s2, -1)
  {
    forall x | !Reserved(reg, x)
      ensures BindingOf(s2, x) == BindingOf(s0, x)
    {
      assert BindingOf(s2, x) == BindingOf(s1, x);
    }
    forall id | id in Ids(s0.nodes)
      ensures Tracked(s2, id) == Tracked(s0, id)
    {
      assert Tracked(s2, id) == Tracked(s1, id);
    }
  }

  lemma UsedGrows(reg: Registry, s0: State, s1: State, s2: State)
    requires s1 == s0.(used := s1.used) && s0.used <= s1.used && Grows(reg, s1, s2, -1)
    ensures Grows(reg, s0, s2, -1)
  {
    UsedExtends(reg, s0, s1, s2);
  }

  /** The configuration of nodes the compiler builds itself. */
  function Plain(options: map<string, OptionValue>): Config { Config(options, None, None) }

  // -------------------------------------------------------------------- placeholders

  /** Scope and bindings only read the binding, type and value tables. */
  lemma SameTablesSameScope(reg: Registry, s: State, s': State)
    requires s'.bindings == s.bindings && s'.types == s.types && s'.val == s.val
    requires forall n :: n in s'.nodes && !Reserved(reg, n.id) ==> n in s.nodes
    ensures Bound(reg, s) ==> Bound(reg, s')
    ensures ScopeOf(reg, s') == ScopeOf(reg, s)
  {
    assert forall id :: Tracked(s', id) == Tracked(s, id);
    assert forall x :: x in s.bindings ==> EntryOf(s', x) == EntryOf(s, x);
  }

  lemma PushScope(reg: Registry, s: State, p: Node)
    requires Bound(reg, s) && Reserved(reg, p.id)
    ensures Bound(reg, Pushed(s, p)) && ScopeOf(reg, Pushed(s, p)) == ScopeOf(reg, s)
  {
    SameTablesSameScope(reg, s, Pushed(s, p));
  }

  lemma UseScope(reg: Registry, s: State, id: Id)
    requires Ready(reg, s)
    ensures Ready(reg, s.(used := s.used + {id}))
    ensures ScopeOf(reg, s.(used := s.used + {id})) == ScopeOf(reg, s)
  {
    UseKeeps(reg, s, id);
    SameTablesSameScope(reg, s, s.(used := s.used + {id}));
  }

  /** The placeholder is still where it was pushed and still has no term. */
  lemma PlaceholderWaits(reg: Registry, s: State, p: Node, s': State, t: int)
    requires Core(reg, s) && p.id !in Ids(s.nodes) && Core(reg, s')
    requires Grows(reg, Pushed(s, p), s', t)
    ensures |s.nodes| < |s'.nodes| && s'.nodes[|s.nodes|].id == p.id && p.id !in s'.val
    ensures t != |s.nodes| ==> s'.nodes[|s.nodes|] == p
  {
    var k := |s.nodes|;
    assert Pushed(s, p).nodes[k] == p;
    IndexedIds(s);
    assert p.id !in Ids(s'.nodes[k + 1..]) by {
      forall i | k + 1 <= i < |s'.nodes| ensures s'.nodes[i].id != p.id {
        assert s'.nodes[k].id == p.id;
      }
    }
  }

  /** Filling in a placeholder whose inputs are ready completes the step that pushed it. */
  lemma FinishPlaceholder(reg: Registry, s: State, p: Node, s': State, n: Node, tracked: Option<DataType>)
    requires Core(reg, s) && p.id !in Ids(s.nodes) && Reserved(reg, p.id) && Core(reg, s')
    requires Grows(reg, Pushed(s, p), s', |s.nodes|)
    requires n.id == p.id && Wireable(n.inputs, s'.val.Keys) && OptionIds(n) == {} && !IsSink(reg, n.kind)
    ensures |s.nodes| < |s'.nodes|
    ensures Core(reg, Filled(s', |s.nodes|, n, tracked))
    ensures Grows(reg, s, Filled(s', |s.nodes|, n, tracked), -1)
  {
    PlaceholderWaits(reg, s, p, s', |s.nodes|);
    WireableGrounds(n, s'.val.Keys);
    FillKeeps(reg, s', |s.nodes|, n, tracked);
    PlaceholderGrows(reg, s, p, s', n, tracked);
  }

  // --------------------------------------------------------------------- results

  /** One lowering step between two consistent contexts. */
  ghost predicate Steps(reg: Registry, s0: State, s1: State) {
    Ready(reg, s0) && Ready(reg, s1) && Grows(reg, s0, s1, -1)
  }

  lemma StepsRefl(reg: Registry, s: State)
    requires Ready(reg, s)
    ensures Steps(reg, s, s)
  {
    GrowsRefl(reg, s, -1);
  }

  lemma StepsTrans(reg: Registry, a: State, b: State, c: State)
    requires Steps(reg, a, b) && Steps(reg, b, c)
    ensures Steps(reg, a, c)
  {
    GrowsTrans(reg, a, b, c, -1);
  }

  /** Variables and handles keep their meaning across a step. */
  lemma StepsScope(reg: Registry, a: State, b: State)
    requires Steps(reg, a, b)
    ensures ScopeOf(reg, b) == ScopeOf(reg, a)
  {
    ScopeStays(reg, a, b);
  }

  lemma StepsRepresent(reg: Registry, a: State, b: State, h: ValueHandle, d: Den)
    requires Steps(reg, a, b) && Represents(a, h, d)
    ensures Represents(b, h, d)
  {
    StillRepresents(reg, a, b, -1, h, d);
  }

  ghost predicate AllRepresent(s: State, hs: seq<ValueHandle>, ds: seq<Den>) {
    |hs| == |ds| && forall i :: 0 <= i < |hs| ==> Represents(s, hs[i], ds[i])
  }

  lemma StepsAllRepresent(reg: Registry, a: State, b: State, hs: seq<ValueHandle>, ds: seq<Den>)
    requires Steps(reg, a, b) && AllRepresent(a, hs, ds)
    ensures AllRepresent(b, hs, ds)
  {
    forall i | 0 <= i < |hs| ensures Represents(b, hs[i], ds[i]) {
      StepsRepresent(reg, a, b, hs[i], ds[i]);
    }
  }

  lemma StepsTo(reg: Registry, a: State, b: State)
    requires Ready(reg, a) && Core(reg, b) && Grows(reg, a, b, -1)
    ensures Steps(reg, a, b)
  {
    BoundStays(reg, a, b);
  }

  /** A visit succeeds exactly when the expression has a meaning, and returns a handle to it. */
  ghost predicate Lowered(reg: Registry, s0: State, s1: State, r: Result<ValueHandle>, want: Option<Den>) {
    && (r.Ok? <==> want.Some?)
    && (r.Ok? ==> Steps(reg, s0, s1) && Represents(s1, r.value, want.value))
  }

  /** A fresh placeholder has been pushed. */
  ghost predicate Reserving(reg: Registry, s0: State, s: State, p: Node) {
    && Ready(reg, s0) && Ready(reg, s) && s0.used <= s.used && Core(reg, s0.(used := s.used))
    && s == Pushed(s0.(used := s.used), p) && p.id !in Ids(s0.nodes) && Reserved(reg, p.id)
  }

  lemma ReservingKeeps(reg: Registry, s0: State, base: string, p: Node, s: State)
    requires Ready(reg, s0) && PlainRegistry(reg) && IsBase(reg, base)
    requires p.id !in s0.used && exists k :: 0 <= k && p.id == Candidate(base, k)
    requires s == Pushed(s0.(used := s0.used + {p.id}), p)
    ensures Reserving(reg, s0, s, p) && ScopeOf(reg, s) == ScopeOf(reg, s0)
  {
    FreshId(reg, s0, base, p.id);
    UseScope(reg, s0, p.id);
    PushKeeps(reg, s0.(used := s0.used + {p.id}), p);
    PushScope(reg, s0.(used := s0.used + {p.id}), p);
  }

  /** Reserve an id and a position for a node that is completed later. */
  method Reserve(ctx: Context, base: string, kind: string) returns (id: Id, t: nat)
    requires Ready(ctx.registry, ctx.S()) && PlainRegistry(ctx.registry) && IsBase(ctx.registry, base)
    modifies ctx
    ensures t == |old(ctx.algorithms)| < |ctx.algorithms|
    ensures Reserving(ctx.registry, old(ctx.S()), ctx.S(), Node(kind, id, map[], map[], None, None))
    ensures ScopeOf(ctx.registry, ctx.S()) == ScopeOf(ctx.registry, old(ctx.S()))
  {
    id := ctx.UniqueNodeId(base);
    var p := Node(kind, id, map[], map[], None, None);
    t := |ctx.algorithms|;
    ctx.Push(p);
    ReservingKeeps(ctx.registry, old(ctx.S()), base, p, ctx.S());
  }

  /** Completing the placeholder after its operands have been lowered is one step. */
  lemma FinishReserved(reg: Registry, s0: State, sp: State, p: Node, s: State, inputs: Inputs,
                       tracked: Option<DataType>)
    requires Reserving(reg, s0, sp, p) && Steps(reg, sp, s) && !IsSink(reg, p.kind)
    requires p == Node(p.kind, p.id, map[], map[], None, None) && Wireable(inputs, s.val.Keys)
    ensures |s0.nodes| < |s.nodes| && s.nodes[|s0.nodes|] == p
    ensures var f := Filled(s, |s0.nodes|, p.(inputs := inputs), tracked);
            Steps(reg, s0, f) && f.val[p.id] == Built(p.kind, InputsMeaning(inputs, s.val)) &&
            Tracked(f, p.id) == tracked
  {
    hide Core, Bound, Grows, Wireable;
    var n, u := p.(inputs := inputs), s0.(used := sp.used);
    PlaceholderWaits(reg, u, p, s, -1);
    GrowsWeaken(reg, sp, s, |s0.nodes|);
    FinishPlaceholder(reg, u, p, s, n, tracked);
    var f := Filled(s, |s0.nodes|, n, tracked);
    UsedGrows(reg, s0, u, f);
    StepsTo(reg, s0, f);
    BuiltIsConfigured(p.kind, InputsMeaning(inputs, s.val), s.val);
    NotTrackedYet(u, sp, s, p, reg);
  }

  lemma NotTrackedYet(u: State, sp: State, s: State, p: Node, reg: Registry)
    requires Core(reg, u) && sp == Pushed(u, p) && p.id !in Ids(u.nodes) && Steps(reg, sp, s)
    ensures Tracked(s, p.id) == None
  {
    IndexedIds(u);
    assert p in sp.nodes;
  }

  lemma BuiltIsConfigured(kind: string, inputs: map<string, Args>, v: Valuation)
    ensures Configured(kind, OptionsMeaning(kind, map[], v), inputs, Plain(map[])) == Built(kind, inputs)
  {
    assert OptionsMeaning(kind, map[], v) == map[];
  }

  /** Emit a node without options whose inputs mean `want`. */
  method EmitBuilt(ctx: Context, base: string, kind: string, inputs: Inputs, tracked: Option<DataType>, bound: bool,
                   ghost want: map<string, Args>)
    returns (id: Id)
    requires Core(ctx.registry, ctx.S()) && PlainRegistry(ctx.registry) && IsBase(ctx.registry, base)
    requires !IsSink(ctx.registry, kind) && Wireable(inputs, ctx.val.Keys) && InputsMeaning(inputs, ctx.val) == want
    modifies ctx
    ensures Core(ctx.registry, ctx.S()) && Grows(ctx.registry, old(ctx.S()), ctx.S(), -1)
    ensures id in ctx.val && Tracked(ctx.S(), id) == tracked && ctx.val[id] == Built(kind, want)
    ensures ctx.algorithms == old(ctx.algorithms) + [Node(kind, id, map[], inputs, None, None)]
  {
    BuiltIsConfigured(kind, want, ctx.val);
    id := Emit(ctx, base, kind, Plain(map[]), inputs, tracked, bound);
  }
}
