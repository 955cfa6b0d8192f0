/** The state all compiler components share. */
module CompilationContext {
  import opened Wrappers
  import opened Graph
  import opened Registry
  import opened NodeIds

  datatype ValueHandle = ValueHandle(nodeId: Id, handle: string)

  /** "node.handle" or "component": the two forms of a binding text. */
  datatype Binding = NodeHandle(at: ValueHandle) | ComponentName(kind: string)

  /**
   A snapshot of the context.  `val` gives the term of every finished node; a node that has
   been pushed but not yet filled in has none.
   */
  datatype State = State(
    nodes: seq<Node>,
    bindings: map<string, Binding>,
    lookup: map<Id, nat>,
    used: set<Id>,
    types: map<Id, map<string, DataType>>,
    val: Valuation)

  /** The node pushed before it is wired. */
  function Pushed(s: State, n: Node): State { s.(nodes := s.nodes + [n]) }

  function Typed(types: map<Id, map<string, DataType>>, id: Id,
                 tracked: Option<DataType>): map<Id, map<string, DataType>>
  {
    if tracked.Some? then types[id := map["result" := tracked.value]] else types
  }

  /** A complete node appended, entered in the lookup and type tables. */
  function Appended(s: State, n: Node, tracked: Option<DataType>, bound: bool): State {
    State(s.nodes + [n],
          if bound then s.bindings[n.id := ComponentName(n.kind)] else s.bindings,
          s.lookup[n.id := |s.nodes|], s.used, Typed(s.types, n.id, tracked),
          s.val[n.id := NodeValue(n, s.val)])
  }

  /** A node of a component call entered before its inputs are wired. */
  function Entered(s: State, n: Node, bound: bool): State {
    s.(nodes := s.nodes + [n], lookup := s.lookup[n.id := |s.nodes|],
       bindings := if bound then s.bindings[n.id := ComponentName(n.kind)] else s.bindings)
  }

  /** The wiring of node t is over: it now has a term. */
  function Completed(s: State, t: nat): State
    requires t < |s.nodes|
  {
    s.(val := s.val[s.nodes[t].id := NodeValue(s.nodes[t], s.val)])
  }

  /** The node at t completed. */
  function Filled(s: State, t: nat, n: Node, tracked: Option<DataType>): State
    requires t < |s.nodes|
  {
    State(s.nodes[t := n], s.bindings, s.lookup[n.id := t], s.used, Typed(s.types, n.id, tracked),
          s.val[n.id := NodeValue(n, s.val)])
  }

  class Context {
    const registry: Registry
    var algorithms: seq<Node>
    var varToBinding: map<string, Binding>
    var nodeLookup: map<Id, nat>
    var usedNodeIds: set<Id>
    var nodeOutputTypes: map<Id, map<string, DataType>>
    ghost var val: Valuation

    ghost function S(): State
      reads this
    {
      State(algorithms, varToBinding, nodeLookup, usedNodeIds, nodeOutputTypes, val)
    }

    constructor (registry: Registry)
      ensures this.registry == registry
      ensures S() == State([], map[], map[], {}, map[], map[])
    {
      this.registry := registry;
      algorithms, varToBinding, nodeLookup := [], map[], map[];
      usedNodeIds, nodeOutputTypes := {}, map[];
      val := map[];
    }

    /** Fresh compilation: every table is emptied. */
    method Clear()
      modifies this
      ensures S() == State([], map[], map[], {}, map[], map[])
    {
      algorithms, varToBinding, nodeLookup := [], map[], map[];
      usedNodeIds, nodeOutputTypes := {}, map[];
      val := map[];
    }

    /** The first candidate nobody has used; found within |usedNodeIds| + 1 probes. */
    method UniqueNodeId(base: string) returns (id: Id)
      modifies this`usedNodeIds
      ensures exists k :: 0 <= k <= |old(usedNodeIds)| && id == Candidate(base, k) &&
                forall j :: 0 <= j < k ==> Candidate(base, j) in old(usedNodeIds)
      ensures id !in old(usedNodeIds) && usedNodeIds == old(usedNodeIds) + {id}
    {
      var idx: nat := 0;
      id := Candidate(base, idx);
      CandidatesRunOut(usedNodeIds, base, idx);
      while id in usedNodeIds
        invariant usedNodeIds == old(usedNodeIds)
        invariant id == Candidate(base, idx) && idx <= |usedNodeIds|
        invariant forall j :: 0 <= j < idx ==> Candidate(base, j) in usedNodeIds
        decreases |usedNodeIds| - idx
      {
        CandidatesRunOut(usedNodeIds, base, idx + 1);
        idx := idx + 1;
        id := Candidate(base, idx);
      }
      usedNodeIds := usedNodeIds + {id};
    }

    method Push(n: Node)
      modifies this`algorithms
      ensures S() == Pushed(old(S()), n)
    {
      algorithms := algorithms + [n];
    }

    method Track(id: Id, tracked: Option<DataType>)
      modifies this`nodeOutputTypes
      ensures nodeOutputTypes == Typed(old(nodeOutputTypes), id, tracked)
    {
      if tracked.Some? {
        nodeOutputTypes := nodeOutputTypes[id := map["result" := tracked.value]];
      }
    }

    method Append(n: Node, tracked: Option<DataType>, bound: bool)
      modifies this
      ensures S() == Appended(old(S()), n, tracked, bound)
    {
      algorithms := algorithms + [n];
      nodeLookup := nodeLookup[n.id := |algorithms| - 1];
      if bound { varToBinding := varToBinding[n.id := ComponentName(n.kind)]; }
      Track(n.id, tracked);
      val := val[n.id := NodeValue(n, val)];
    }

    method Enter(n: Node, bound: bool)
      modifies this
      ensures S() == Entered(old(S()), n, bound)
    {
      algorithms := algorithms + [n];
      nodeLookup := nodeLookup[n.id := |algorithms| - 1];
      if bound { varToBinding := varToBinding[n.id := ComponentName(n.kind)]; }
    }

    ghost method Complete(t: nat)
      requires t < |algorithms|
      modifies this`val
      ensures S() == Completed(old(S()), t)
    {
      val := val[algorithms[t].id := NodeValue(algorithms[t], val)];
    }

    method Fill(t: nat, inputs: map<string, seq<string>>, tracked: Option<DataType>)
      requires t < |algorithms|
      modifies this
      ensures S() == Filled(old(S()), t, old(algorithms[t]).(inputs := inputs), tracked)
    {
      algorithms := algorithms[t := algorithms[t].(inputs := inputs)];
      nodeLookup := nodeLookup[algorithms[t].id := t];
      Track(algorithms[t].id, tracked);
      val := val[algorithms[t].id := NodeValue(algorithms[t], val)];
    }
  }
}
