/**
 Kahn's algorithm as the last pass of the compiler runs it, and why it is exact:
 it fails on precisely the graphs that repeat an id or contain a cycle, and then names
 precisely the nodes that depend on a cycle.
 */
module TopologicalSort {
  import opened Graph

  datatype SortResult = Sorted(nodes: seq<Node>) | Circular(remaining: set<Id>)

  function At(m: map<Id, seq<Id>>, k: Id): seq<Id> { if k in m then m[k] else [] }

  ghost predicate NoDuplicates(s: seq<Id>) { forall i, j :: 0 <= i < j < |s| ==> s[i] != s[j] }

  // ------------------------------------------------------------------- edge log

  /** One reference from `node` to `dep`; repeated references are repeated edges. */
  datatype Edge = Edge(dep: Id, node: Id)

  function Count(s: seq<Id>, id: Id): nat {
    if s == [] then 0
    else Count(s[..|s| - 1], id) + if s[|s| - 1] == id then 1 else 0
  }

  /** Who depends on d, in the order the references were met. */
  ghost function Dependents(edges: seq<Edge>, d: Id): seq<Id> {
    if edges == [] then []
    else
      var before, last := Dependents(edges[..|edges| - 1], d), edges[|edges| - 1];
      if last.dep == d then before + [last.node] else before
  }

  /** References of id to nodes that are not emitted yet. */
  ghost function Pending(edges: seq<Edge>, emitted: set<Id>, id: Id): nat {
    if edges == [] then 0
    else
      var before, last := Pending(edges[..|edges| - 1], emitted, id), edges[|edges| - 1];
      if last.node == id && last.dep !in emitted then before + 1 else before
  }

  lemma CountSnoc(s: seq<Id>, x: Id, id: Id)
    ensures Count(s + [x], id) == Count(s, id) + (if x == id then 1 else 0)
  {
    assert (s + [x])[..|s|] == s;
  }

  lemma {:induction false} EmitDropsPending(edges: seq<Edge>, emitted: set<Id>, d: Id, id: Id)
    requires d !in emitted
    ensures Pending(edges, emitted, id)
         == Pending(edges, emitted + {d}, id) + Count(Dependents(edges, d), id)
  {
    if edges == [] {
      assert Count([], id) == 0;
    } else {
      hide Count;
      EmitDropsPending(edges[..|edges| - 1], emitted, d, id);
      CountSnoc(Dependents(edges[..|edges| - 1], d), edges[|edges| - 1].node, id);
    }
  }

  lemma {:induction false} NothingPending(edges: seq<Edge>, emitted: set<Id>, id: Id)
    ensures Pending(edges, emitted, id) == 0 <==>
            forall e :: e in edges && e.node == id ==> e.dep in emitted
  {
    if edges != [] {
      NothingPending(edges[..|edges| - 1], emitted, id);
      assert edges == edges[..|edges| - 1] + [edges[|edges| - 1]];
    }
  }

  lemma {:induction false} CountPositive(s: seq<Id>, id: Id)
    ensures Count(s, id) > 0 <==> id in s
  {
    if s != [] {
      CountPositive(s[..|s| - 1], id);
      assert s == s[..|s| - 1] + [s[|s| - 1]];
    }
  }

  lemma {:induction false} CountPrefix(s: seq<Id>, k: nat, id: Id)
    requires k <= |s|
    ensures Count(s[..k], id) <= Count(s, id)
  {
    if k == |s| {
      assert s[..k] == s;
    } else {
      CountPrefix(s[..|s| - 1], k, id);
      assert s[..|s| - 1][..k] == s[..k];
    }
  }

  lemma {:induction false} DependentsAreNodes(edges: seq<Edge>, d: Id, id: Id)
    ensures id in Dependents(edges, d) <==> Edge(d, id) in edges
  {
    if edges != [] {
      DependentsAreNodes(edges[..|edges| - 1], d, id);
      assert edges == edges[..|edges| - 1] + [edges[|edges| - 1]];
    }
  }

  // -------------------------------------------------------- building the tables

  /** The tables of the algorithm are views of one edge log. */
  ghost predicate Tables(ids: set<Id>, inDegree: map<Id, int>, dependents: map<Id, seq<Id>>,
                         edges: seq<Edge>)
  {
    && inDegree.Keys == ids
    && (forall id :: id in ids ==> inDegree[id] == Pending(edges, {}, id))
    && (forall d :: At(dependents, d) == Dependents(edges, d))
  }

  function NamedIds(refs: seq<string>): set<Id> { set r | r in refs :: NodeOf(r) }

  function EdgesInto(id: Id, deps: set<Id>): set<Edge> { set d | d in deps :: Edge(d, id) }

  ghost function EdgeSet(edges: seq<Edge>): set<Edge> { set e | e in edges }

  lemma EdgeLogged(ids: set<Id>, inDegree: map<Id, int>, dependents: map<Id, seq<Id>>,
                   edges: seq<Edge>, dep: Id, id: Id)
    requires id in ids && Tables(ids, inDegree, dependents, edges)
    ensures Tables(ids, inDegree[id := inDegree[id] + 1],
                   dependents[dep := At(dependents, dep) + [id]], edges + [Edge(dep, id)])
    ensures EdgeSet(edges + [Edge(dep, id)]) == EdgeSet(edges) + {Edge(dep, id)}
  {
    var after, more := dependents[dep := At(dependents, dep) + [id]], edges + [Edge(dep, id)];
    assert more[..|edges|] == edges;
    forall d
      ensures At(after, d) == Dependents(more, d)
    {
      assert At(dependents, d) == Dependents(edges, d);
    }
  }

  method CountRefs(ids: set<Id>, id: Id, refs: seq<string>, inDegree0: map<Id, int>,
                   dependents0: map<Id, seq<Id>>, ghost edges0: seq<Edge>)
    returns (inDegree: map<Id, int>, dependents: map<Id, seq<Id>>, ghost edges: seq<Edge>)
    requires id in ids && Tables(ids, inDegree0, dependents0, edges0)
    ensures Tables(ids, inDegree, dependents, edges)
    ensures EdgeSet(edges) == EdgeSet(edges0) + EdgesInto(id, NamedIds(refs) * ids)
  {
    inDegree, dependents, edges := inDegree0, dependents0, edges0;
    for j := 0 to |refs|
      invariant Tables(ids, inDegree, dependents, edges)
      invariant EdgeSet(edges) == EdgeSet(edges0) + EdgesInto(id, NamedIds(refs[..j]) * ids)
    {
      var dep := NodeOf(refs[j]);
      assert refs[..j + 1] == refs[..j] + [refs[j]];
      assert NamedIds(refs[..j + 1]) == NamedIds(refs[..j]) + {dep};
      assert EdgesInto(id, NamedIds(refs[..j + 1]) * ids)
          == EdgesInto(id, NamedIds(refs[..j]) * ids) + if dep in ids then {Edge(dep, id)} else {};
      if dep in ids {
        EdgeLogged(ids, inDegree, dependents, edges, dep, id);
        inDegree := inDegree[id := inDegree[id] + 1];
        dependents := dependents[dep := At(dependents, dep) + [id]];
        edges := edges + [Edge(dep, id)];
      }
    }
    assert refs[..|refs|] == refs;
  }

  /** Ids named under some of a node's inputs. */
  function NamedUnder(n: Node, names: set<string>): set<Id>
    requires names <= n.inputs.Keys
  {
    set k, r | k in names && r in n.inputs[k] :: NodeOf(r)
  }

  method CountInputs(ids: set<Id>, node: Node, inDegree0: map<Id, int>,
                     dependents0: map<Id, seq<Id>>, ghost edges0: seq<Edge>)
    returns (inDegree: map<Id, int>, dependents: map<Id, seq<Id>>, ghost edges: seq<Edge>)
    requires node.id in ids && Tables(ids, inDegree0, dependents0, edges0)
    ensures Tables(ids, inDegree, dependents, edges)
    ensures EdgeSet(edges) == EdgeSet(edges0) + EdgesInto(node.id, InputIds(node) * ids)
  {
    inDegree, dependents, edges := inDegree0, dependents0, edges0;
    var names := node.inputs.Keys;
    while names != {}
      invariant names <= node.inputs.Keys
      invariant Tables(ids, inDegree, dependents, edges)
      invariant EdgeSet(edges)
             == EdgeSet(edges0) + EdgesInto(node.id, NamedUnder(node, node.inputs.Keys - names) * ids)
    {
      var name :| name in names;
      ghost var done := node.inputs.Keys - names;
      inDegree, dependents, edges :=
        CountRefs(ids, node.id, node.inputs[name], inDegree, dependents, edges);
      names := names - {name};
      assert node.inputs.Keys - names == done + {name};
      assert NamedUnder(node, done + {name}) == NamedUnder(node, done) + NamedIds(node.inputs[name]);
    }
    assert NamedUnder(node, node.inputs.Keys - {}) == InputIds(node);
  }

  /** The edges contributed by the first k nodes. */
  ghost predicate EdgesOf(nodes: seq<Node>, k: nat, edges: seq<Edge>)
    requires k <= |nodes|
  {
    forall e :: e in EdgeSet(edges) <==> e.dep in Ids(nodes) && Contributes(nodes, k, e)
  }

  ghost predicate Contributes(nodes: seq<Node>, k: nat, e: Edge)
    requires k <= |nodes|
  {
    exists i :: 0 <= i < k && nodes[i].id == e.node && e.dep in InputIds(nodes[i])
  }

  lemma EdgesOfNext(nodes: seq<Node>, k: nat, before: seq<Edge>, after: seq<Edge>)
    requires k < |nodes| && EdgesOf(nodes, k, before)
    requires EdgeSet(after) == EdgeSet(before) + EdgesInto(nodes[k].id, InputIds(nodes[k]) * Ids(nodes))
    ensures EdgesOf(nodes, k + 1, after)
  {
    forall e
      ensures Contributes(nodes, k + 1, e) <==>
              Contributes(nodes, k, e) || (nodes[k].id == e.node && e.dep in InputIds(nodes[k]))
    {
    }
  }

  method CountDependencies(nodes: seq<Node>)
    returns (inDegree: map<Id, int>, dependents: map<Id, seq<Id>>, ghost edges: seq<Edge>)
    ensures Tables(Ids(nodes), inDegree, dependents, edges)
    ensures forall e :: e in edges <==> DependsOn(nodes, e.node, e.dep)
  {
    var ids := Ids(nodes);
    inDegree := map id | id in ids :: 0;
    dependents := map[];
    edges := [];
    for i := 0 to |nodes|
      invariant Tables(ids, inDegree, dependents, edges)
      invariant EdgesOf(nodes, i, edges)
    {
      ghost var before := edges;
      inDegree, dependents, edges := CountInputs(ids, nodes[i], inDegree, dependents, edges);
      EdgesOfNext(nodes, i, before, edges);
    }
    EdgesAreDependencies(nodes, edges);
  }

  lemma EdgesAreDependencies(nodes: seq<Node>, edges: seq<Edge>)
    requires EdgesOf(nodes, |nodes|, edges)
    ensures forall e :: e in edges <==> DependsOn(nodes, e.node, e.dep)
  {
    forall e
      ensures e in edges <==> DependsOn(nodes, e.node, e.dep)
    {
      assert e in edges <==> e in EdgeSet(edges);
      assert Contributes(nodes, |nodes|, e) <==>
             exists n :: n in nodes && n.id == e.node && e.dep in InputIds(n);
    }
  }

  // ------------------------------------------------------------------- emitting

  /** Decrement the in-degree of every listed dependent; queue those that reach zero. */
  method Release(list: seq<Id>, inDegree0: map<Id, int>)
    returns (inDegree: map<Id, int>, ready: seq<Id>)
    requires forall id :: id in list ==> id in inDegree0
    requires forall id :: id in inDegree0 ==> inDegree0[id] >= Count(list, id)
    ensures inDegree.Keys == inDegree0.Keys
    ensures forall id :: id in inDegree ==> inDegree[id] == inDegree0[id] - Count(list, id)
    ensures NoDuplicates(ready)
    ensures forall id :: id in ready <==> id in list && inDegree[id] == 0
  {
    inDegree, ready := inDegree0, [];
    for j := 0 to |list|
      invariant inDegree.Keys == inDegree0.Keys
      invariant forall id :: id in inDegree ==> inDegree[id] == inDegree0[id] - Count(list[..j], id)
      invariant NoDuplicates(ready)
      invariant forall id :: id in ready <==> id in list[..j] && inDegree[id] == 0
    {
      var id := list[j];
      assert list[..j + 1] == list[..j] + [id];
      assert list[..j + 1][..j] == list[..j];
      CountPrefix(list, j + 1, id);
      assert inDegree[id] > 0;
      inDegree := inDegree[id := inDegree[id] - 1];
      if inDegree[id] == 0 {
        ready := ready + [id];
      }
    }
    assert list[..|list|] == list;
  }

  // ----------------------------------------------------------------- the sort

  /** Inputs come before the nodes that read them. */
  ghost predicate InputsFirst(g: seq<Node>) {
    forall i, d :: 0 <= i < |g| && d in InputIds(g[i]) && d in Ids(g) ==> d in Ids(g[..i])
  }

  ghost function IdSeq(g: seq<Node>): seq<Id> { seq(|g|, i requires 0 <= i < |g| => g[i].id) }

  lemma IdSeqSnoc(g: seq<Node>, n: Node)
    ensures IdSeq(g + [n]) == IdSeq(g) + [n.id]
  {
  }

  /** Emitted ids, each after everything it depends on. */
  ghost predicate EmittedInOrder(nodes: seq<Node>, order: seq<Id>) {
    && NoDuplicates(order)
    && forall i, d :: 0 <= i < |order| && DependsOn(nodes, order[i], d) ==> d in order[..i]
  }

  ghost function Elements(s: seq<Id>): set<Id> { set x | x in s }

  /** The queue holds exactly the nodes with no pending reference that are not emitted yet. */
  ghost predicate Frontier(ids: set<Id>, inDegree: map<Id, int>, order: seq<Id>, queue: seq<Id>) {
    && NoDuplicates(order + queue)
    && inDegree.Keys == ids
    && forall id :: id in order + queue <==> id in ids && inDegree[id] == 0
  }

  lemma EmitOne(nodes: seq<Node>, inDegree: map<Id, int>, edges: seq<Edge>, order: seq<Id>, queue: seq<Id>)
    requires queue != [] && Frontier(Ids(nodes), inDegree, order, queue)
    requires forall id :: id in inDegree ==> inDegree[id] == Pending(edges, Elements(order), id)
    requires forall e :: e in edges <==> DependsOn(nodes, e.node, e.dep)
    requires EmittedInOrder(nodes, order)
    ensures EmittedInOrder(nodes, order + [queue[0]])
    ensures Elements(order + [queue[0]]) == Elements(order) + {queue[0]}
    ensures forall id :: id in inDegree ==>
              inDegree[id] == Pending(edges, Elements(order) + {queue[0]}, id) + Count(Dependents(edges, queue[0]), id)
    ensures forall id :: id in Dependents(edges, queue[0]) ==> id in Ids(nodes)
  {
    var d := queue[0];
    var both := order + queue;
    assert both[|order|] == d;
    assert d !in order by { assert forall i :: 0 <= i < |order| ==> both[i] == order[i]; }
    NothingPending(edges, Elements(order), d);
    forall x | DependsOn(nodes, d, x)
      ensures x in order
    {
      assert Edge(x, d) in edges;
    }
    var more := order + [d];
    forall i, x | 0 <= i < |more| && DependsOn(nodes, more[i], x)
      ensures x in more[..i]
    {
      assert more[..i] == order[..i];
      assert i == |order| ==> order[..i] == order;
    }
    forall id | id in inDegree
      ensures inDegree[id] == Pending(edges, Elements(order) + {d}, id) + Count(Dependents(edges, d), id)
    {
      EmitDropsPending(edges, Elements(order), d, id);
    }
    forall id | id in Dependents(edges, d)
      ensures id in Ids(nodes)
    {
      DependentsAreNodes(edges, d, id);
    }
  }

  lemma FrontierMoves(ids: set<Id>, before: map<Id, int>, after: map<Id, int>, list: seq<Id>,
                      order: seq<Id>, queue: seq<Id>, ready: seq<Id>)
    requires queue != [] && Frontier(ids, before, order, queue)
    requires after.Keys == ids
    requires forall id :: id in ids ==> 0 <= after[id] == before[id] - Count(list, id)
    requires NoDuplicates(ready)
    requires forall id :: id in ready <==> id in list && id in ids && after[id] == 0
    ensures Frontier(ids, after, order + [queue[0]], queue[1..] + ready)
  {
    var next := order + [queue[0]] + (queue[1..] + ready);
    assert next == (order + queue) + ready;
    forall id { CountPositive(list, id); }
    forall id | id in ready
      ensures id !in order + queue
    {
      assert Count(list, id) > 0;
    }
    forall id
      ensures id in next <==> id in ids && after[id] == 0
    {
      if id in order + queue { assert before[id] == 0; }
    }
    forall i, j | 0 <= i < j < |next|
      ensures next[i] != next[j]
    {
      var n := |order + queue|;
      if j < n {
        assert next[i] == (order + queue)[i] && next[j] == (order + queue)[j];
      } else if i < n {
        assert next[i] in order + queue && next[j] in ready;
      } else {
        assert next[i] == ready[i - n] && next[j] == ready[j - n];
      }
    }
  }

  // ---------------------------------------------------------- why it is exact

  /** A walk that starts among emitted nodes stays there and moves strictly backwards. */
  lemma {:induction false} EmittedWalk(nodes: seq<Node>, order: seq<Id>, p: seq<Id>, i: nat, a: nat)
    returns (b: nat)
    requires EmittedInOrder(nodes, order) && Walk(nodes, p) && i < |p|
    requires a < |order| && order[a] == p[0]
    ensures b < |order| && order[b] == p[i] && b <= a && (i > 0 ==> b < a)
  {
    if i == 0 { return a; }
    var c := EmittedWalk(nodes, order, p, i - 1, a);
    assert DependsOn(nodes, order[c], p[i]);
    b :| 0 <= b < c && order[b] == p[i];
  }

  lemma EmittedAvoidsCycles(nodes: seq<Node>, order: seq<Id>, id: Id)
    requires EmittedInOrder(nodes, order) && id in order
    ensures !ReachesCycle(nodes, id)
  {
    var a :| 0 <= a < |order| && order[a] == id;
    forall p, i, j | Walk(nodes, p) && p[0] == id && 0 <= i < j < |p|
      ensures p[i] != p[j]
    {
      var b := EmittedWalk(nodes, order, p, i, a);
      WalkTail(nodes, p, i);
      var c := EmittedWalk(nodes, order, p[i..], j - i, b);
    }
  }

  lemma WalkTail(nodes: seq<Node>, p: seq<Id>, i: nat)
    requires Walk(nodes, p) && i < |p|
    ensures Walk(nodes, p[i..])
  {
    var q := p[i..];
    forall k | 0 <= k < |q| - 1
      ensures DependsOn(nodes, q[k], q[k + 1])
    {
      assert q[k] == p[i + k] && q[k + 1] == p[i + k + 1];
    }
  }

  lemma WalkCons(nodes: seq<Node>, id: Id, q: seq<Id>)
    requires Walk(nodes, q) && DependsOn(nodes, id, q[0])
    ensures Walk(nodes, [id] + q)
  {
    var p := [id] + q;
    forall i | 0 <= i < |p| - 1
      ensures DependsOn(nodes, p[i], p[i + 1])
    {
      if i > 0 { assert p[i] == q[i - 1] && p[i + 1] == q[i - 1 + 1]; }
    }
  }

  ghost predicate DependsInto(nodes: seq<Node>, id: Id, pool: set<Id>) {
    exists d :: d in pool && DependsOn(nodes, id, d)
  }

  /** Inside a set where everybody depends on somebody in the set there are walks of any length. */
  lemma {:induction false} LongWalk(nodes: seq<Node>, stuck: set<Id>, id: Id, n: nat) returns (p: seq<Id>)
    requires id in stuck && forall x {:trigger DependsInto(nodes, x, stuck)} ::
                              x in stuck ==> DependsInto(nodes, x, stuck)
    ensures Walk(nodes, p) && |p| == n + 1 && p[0] == id
    ensures forall k :: 0 <= k < |p| ==> p[k] in stuck
    decreases n
  {
    p := [id];
    if n > 0 {
      assert DependsInto(nodes, id, stuck);
      var d :| d in stuck && DependsOn(nodes, id, d);
      var q := LongWalk(nodes, stuck, d, n - 1);
      WalkCons(nodes, id, q);
      p := [id] + q;
    }
  }

  /** The pigeonhole principle for sequences drawn from a finite set. */
  lemma {:induction false} Pigeonhole(s: seq<Id>, pool: set<Id>)
    requires forall k :: 0 <= k < |s| ==> s[k] in pool
    requires NoDuplicates(s)
    ensures |s| <= |pool|
  {
    if s != [] {
      Pigeonhole(s[1..], pool - {s[0]});
    }
  }

  lemma StuckReachesCycle(nodes: seq<Node>, stuck: set<Id>, id: Id)
    requires id in stuck && forall x {:trigger DependsInto(nodes, x, stuck)} ::
                              x in stuck ==> DependsInto(nodes, x, stuck)
    ensures ReachesCycle(nodes, id)
  {
    var p := LongWalk(nodes, stuck, id, |stuck|);
    if !Repeats(p) {
      Pigeonhole(p, stuck);
    }
  }

  lemma DistinctSnoc(init: seq<Node>, last: Node)
    ensures Distinct(init + [last]) <==> Distinct(init) && last.id !in Ids(init)
  {
    var all := init + [last];
    if Distinct(all) {
      forall i, j | 0 <= i < j < |init| ensures init[i].id != init[j].id {
        assert all[i] == init[i] && all[j] == init[j];
      }
      forall i | 0 <= i < |init| ensures init[i].id != last.id {
        assert all[i] == init[i] && all[|init|] == last;
      }
    }
  }

  lemma {:induction false} IdCount(nodes: seq<Node>)
    ensures |Ids(nodes)| <= |nodes|
    ensures |Ids(nodes)| == |nodes| <==> Distinct(nodes)
  {
    if nodes == [] {
    } else {
      var init, last := nodes[..|nodes| - 1], nodes[|nodes| - 1];
      IdCount(init);
      assert nodes == init + [last];
      assert Ids(nodes) == Ids(init) + {last.id};
      DistinctSnoc(init, last);
    }
  }

  lemma {:induction false} ElementCount(s: seq<Id>)
    requires NoDuplicates(s)
    ensures |Elements(s)| == |s|
  {
    if s != [] {
      ElementCount(s[1..]);
      assert s == [s[0]] + s[1..];
      assert Elements(s) == {s[0]} + Elements(s[1..]);
    }
  }

  /** When the queue runs dry, the emitted nodes are those that reach no cycle. */
  lemma DryQueue(nodes: seq<Node>, inDegree: map<Id, int>, edges: seq<Edge>, order: seq<Id>)
    requires Frontier(Ids(nodes), inDegree, order, [])
    requires forall id :: id in inDegree ==> inDegree[id] == Pending(edges, Elements(order), id)
    requires forall e :: e in edges <==> DependsOn(nodes, e.node, e.dep)
    requires EmittedInOrder(nodes, order)
    ensures forall id :: id in order <==> id in Ids(nodes) && !ReachesCycle(nodes, id)
    ensures forall id :: id in Ids(nodes) && inDegree[id] > 0 <==> id in Ids(nodes) && ReachesCycle(nodes, id)
    ensures |order| == |nodes| <==> Distinct(nodes) && Acyclic(nodes)
  {
    assert order + [] == order;
    var stuck := Ids(nodes) - Elements(order);
    forall x | x in stuck
      ensures DependsInto(nodes, x, stuck)
    {
      NothingPending(edges, Elements(order), x);
      var e :| e in edges && e.node == x && e.dep !in order;
      assert e.dep in stuck;
    }
    forall x | x in Ids(nodes)
      ensures x in order <==> !ReachesCycle(nodes, x)
    {
      if x in order {
        EmittedAvoidsCycles(nodes, order, x);
      } else {
        StuckReachesCycle(nodes, stuck, x);
      }
    }
    IdCount(nodes);
    ElementCount(order);
    assert Elements(order) <= Ids(nodes);
    if |order| == |nodes| {
      SubsetOfSameSize(Elements(order), Ids(nodes));
    }
    if Distinct(nodes) && Acyclic(nodes) {
      assert Elements(order) == Ids(nodes);
    }
  }

  lemma SubsetOfSameSize(a: set<Id>, b: set<Id>)
    requires a <= b && |a| >= |b|
    ensures a == b
  {
    assert b == a + (b - a);
    assert |b| == |a| + |b - a|;
  }

  /** Distinct ids drawn from a graph of the same size are a permutation of it. */
  lemma {:induction false} SameNodes(sorted: seq<Node>, nodes: seq<Node>)
    requires Distinct(sorted) && |sorted| == |nodes|
    requires forall n :: n in sorted ==> n in nodes
    ensures multiset(sorted) == multiset(nodes)
  {
    if sorted != [] {
      assert sorted[0] in nodes;
      var i :| 0 <= i < |nodes| && nodes[i] == sorted[0];
      var rest := nodes[..i] + nodes[i + 1..];
      assert nodes == nodes[..i] + [nodes[i]] + nodes[i + 1..];
      assert sorted == [sorted[0]] + sorted[1..];
      forall n | n in sorted[1..]
        ensures n in rest
      {
        assert n in nodes && n != nodes[i];
      }
      SameNodes(sorted[1..], rest);
    }
  }

  lemma SortedIsOrdered(nodes: seq<Node>, sorted: seq<Node>)
    requires EmittedInOrder(nodes, IdSeq(sorted))
    requires forall n :: n in sorted ==> n in nodes
    ensures Distinct(sorted) && InputsFirst(sorted)
  {
    var order := IdSeq(sorted);
    assert forall i :: 0 <= i < |sorted| ==> order[i] == sorted[i].id;
    forall i, d | 0 <= i < |sorted| && d in InputIds(sorted[i]) && d in Ids(sorted)
      ensures d in Ids(sorted[..i])
    {
      assert sorted[i] in nodes;
      assert Ids(sorted) <= Ids(nodes);
      assert DependsOn(nodes, order[i], d);
      var k :| 0 <= k < i && order[k] == d;
      assert sorted[..i][k].id == d;
    }
  }

  /** Loop invariant of the pass. */
  ghost predicate Progress(nodes: seq<Node>, edges: seq<Edge>, inDegree: map<Id, int>,
                           order: seq<Id>, queue: seq<Id>)
  {
    && Frontier(Ids(nodes), inDegree, order, queue)
    && (forall id :: id in inDegree ==> inDegree[id] == Pending(edges, Elements(order), id))
    && EmittedInOrder(nodes, order)
  }

  lemma Advance(nodes: seq<Node>, edges: seq<Edge>, before: map<Id, int>, after: map<Id, int>,
                order: seq<Id>, queue: seq<Id>, ready: seq<Id>)
    requires queue != [] && Progress(nodes, edges, before, order, queue)
    requires forall e :: e in edges <==> DependsOn(nodes, e.node, e.dep)
    requires var list := Dependents(edges, queue[0]);
             && after.Keys == before.Keys && NoDuplicates(ready)
             && (forall id :: id in after ==> after[id] == before[id] - Count(list, id))
             && (forall id :: id in ready <==> id in list && id in after && after[id] == 0)
    ensures Progress(nodes, edges, after, order + [queue[0]], queue[1..] + ready)
  {
    EmitOne(nodes, before, edges, order, queue);
    FrontierMoves(Ids(nodes), before, after, Dependents(edges, queue[0]), order, queue, ready);
  }

  lemma Releasable(nodes: seq<Node>, inDegree: map<Id, int>, dependents: map<Id, seq<Id>>,
                   edges: seq<Edge>, order: seq<Id>, queue: seq<Id>)
    requires queue != [] && Progress(nodes, edges, inDegree, order, queue)
    requires At(dependents, queue[0]) == Dependents(edges, queue[0])
    requires forall e :: e in edges <==> DependsOn(nodes, e.node, e.dep)
    ensures queue[0] in Ids(nodes) && queue[0] !in Elements(order)
    ensures Elements(order + [queue[0]]) == Elements(order) + {queue[0]}
    ensures var list := At(dependents, queue[0]);
            && (forall id :: id in list ==> id in inDegree)
            && (forall id :: id in inDegree ==> inDegree[id] >= Count(list, id))
  {
    EmitOne(nodes, inDegree, edges, order, queue);
    assert queue[0] in order + queue;
    assert forall i :: 0 <= i < |order| ==> (order + queue)[i] == order[i];
    assert (order + queue)[|order|] == queue[0];
  }

  /** Nodes without pending references, in whatever order the table yields them. */
  method Seed(inDegree: map<Id, int>) returns (queue: seq<Id>)
    ensures NoDuplicates(queue)
    ensures forall id :: id in queue <==> id in inDegree && inDegree[id] == 0
  {
    queue := [];
    var unseen := inDegree.Keys;
    while unseen != {}
      invariant unseen <= inDegree.Keys
      invariant NoDuplicates(queue)
      invariant forall id :: id in queue <==> id in inDegree && id !in unseen && inDegree[id] == 0
    {
      var id :| id in unseen;
      unseen := unseen - {id};
      if inDegree[id] == 0 { queue := queue + [id]; }
    }
  }

  /**
   The pass.  Seeding and iteration follow no particular order: `:|` picks any.
   */
  method TopologicalSort(nodes: seq<Node>) returns (r: SortResult)
    ensures r.Sorted? <==> Distinct(nodes) && Acyclic(nodes)
    ensures r.Sorted? ==> multiset(r.nodes) == multiset(nodes) && Distinct(r.nodes) && InputsFirst(r.nodes)
    ensures r.Circular? ==>
              forall id :: id in r.remaining <==> id in Ids(nodes) && ReachesCycle(nodes, id)
  {
    var index := map id | id in Ids(nodes) :: LastWithId(nodes, id);
    var inDegree, dependents;
    ghost var edges;
    inDegree, dependents, edges := CountDependencies(nodes);
    var queue := Seed(inDegree);
    var sorted: seq<Node> := [];
    ghost var order: seq<Id> := [];
    assert order + queue == queue;
    assert Elements(order) == {};
    while queue != []
      invariant Progress(nodes, edges, inDegree, order, queue)
      invariant order == IdSeq(sorted)
      invariant forall n :: n in sorted ==> n in nodes
      decreases Ids(nodes) - Elements(order)
    {
      var id := queue[0];
      ghost var before := inDegree;
      Releasable(nodes, inDegree, dependents, edges, order, queue);
      var ready;
      inDegree, ready := Release(At(dependents, id), inDegree);
      Advance(nodes, edges, before, inDegree, order, queue, ready);
      IdSeqSnoc(sorted, nodes[index[id]]);
      sorted := sorted + [nodes[index[id]]];
      order := order + [id];
      queue := queue[1..] + ready;
    }
    DryQueue(nodes, inDegree, edges, order);
    SortedIsOrdered(nodes, sorted);
    if |sorted| != |nodes| {
      r := Circular(set id | id in inDegree && inDegree[id] > 0);
    } else {
      SameNodes(sorted, nodes);
      r := Sorted(sorted);
    }
  }

  /** `node_index` keeps the last position of an id. */
  function LastWithId(nodes: seq<Node>, id: Id): (i: nat)
    requires id in Ids(nodes)
    ensures i < |nodes| && nodes[i].id == id
  {
    var last := |nodes| - 1;
    if nodes[last].id == id then last
    else
      assert nodes == nodes[..last] + [nodes[last]];
      LastWithId(nodes[..last], id)
  }
}
