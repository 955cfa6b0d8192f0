/**
 When ids collide.  An instance takes the name of its variable as its id and leaves no trace in
 the set that generated ids are drawn from.
 */
module IdCollisions {
  import opened Wrappers
  import opened Graph
  import opened Registry
  import opened NodeIds
  import opened CompilationContext
  import TopologicalSort

  /** What a program asks of the id supply, in order: a variable's name, or a generated id. */
  datatype Request = Own(name: Id) | Fresh(base: string)

  /** How many ids of this base have been generated. */
  function Generated(rs: seq<Request>, base: string): nat {
    if rs == [] then 0
    else Generated(rs[..|rs| - 1], base) + (if rs[|rs| - 1] == Fresh(base) then 1 else 0)
  }

  function IdFor(before: seq<Request>, r: Request): Id {
    match r
    case Own(x) => x
    case Fresh(base) => Candidate(base, Generated(before, base))
  }

  function IdsGiven(rs: seq<Request>): (ids: seq<Id>)
    ensures |ids| == |rs|
  {
    if rs == [] then [] else IdsGiven(rs[..|rs| - 1]) + [IdFor(rs[..|rs| - 1], rs[|rs| - 1])]
  }

  // --------------------------------------------------------------- candidates of bases

  lemma {:induction false} DecimalHasNoBar(n: nat)
    ensures '_' !in NodeIds.Decimal(n)
  {
    if n >= 10 { DecimalHasNoBar(n / 10); }
  }

  /** An id determines its base and its number: the number follows the last underscore. */
  lemma CandidateSplits(a: string, j: nat, b: string, k: nat)
    requires Candidate(a, j) == Candidate(b, k)
    ensures a == b && j == k
  {
    var s, x, y := Candidate(a, j), NodeIds.Decimal(j), NodeIds.Decimal(k);
    DecimalHasNoBar(j);
    DecimalHasNoBar(k);
    assert s == a + "_" + x == b + "_" + y;
    assert s[|a|] == '_' && s[|b|] == '_';
    assert forall i :: |a| < i < |s| ==> s[i] == x[i - |a| - 1];
    assert forall i :: |b| < i < |s| ==> s[i] == y[i - |b| - 1];
    assert |a| == |b|;
    assert a == s[..|a|] == b;
    assert x == s[|a| + 1..] == y;
    DecimalInjective(j, k);
  }

  // ------------------------------------------------------------------------ the supply

  /** The used ids are exactly those generated so far. */
  ghost predicate Supplied(used: set<Id>, rs: seq<Request>) {
    forall id :: id in used <==> exists base, k: nat :: k < Generated(rs, base) && id == Candidate(base, k)
  }

  lemma SuppliedExactly(used: set<Id>, rs: seq<Request>, base: string, k: nat)
    requires Supplied(used, rs)
    ensures Candidate(base, k) in used <==> k < Generated(rs, base)
  {
    hide Candidate, Generated;
    if Candidate(base, k) in used {
      var b, j: nat :| j < Generated(rs, b) && Candidate(base, k) == Candidate(b, j);
      CandidateSplits(base, k, b, j);
    }
  }

  lemma NextIsFirstUnused(used: set<Id>, rs: seq<Request>, base: string, k: nat)
    requires Supplied(used, rs)
    requires Candidate(base, k) !in used && forall j :: 0 <= j < k ==> Candidate(base, j) in used
    ensures k == Generated(rs, base)
  {
    hide Supplied, Candidate, Generated;
    var n := Generated(rs, base);
    SuppliedExactly(used, rs, base, k);
    SuppliedExactly(used, rs, base, n);
  }

  lemma SuppliedMore(used: set<Id>, rs: seq<Request>, r: Request)
    requires Supplied(used, rs)
    ensures Supplied(if r.Fresh? then used + {IdFor(rs, r)} else used, rs + [r])
  {
    assert (rs + [r])[..|rs|] == rs;
    var more := if r.Fresh? then used + {IdFor(rs, r)} else used;
    assert forall base :: Generated(rs + [r], base) == Generated(rs, base) + (if r == Fresh(base) then 1 else 0);
    forall id
      ensures id in more <==> exists base, k: nat :: k < Generated(rs + [r], base) && id == Candidate(base, k)
    {
      if id in used {
        var base, k: nat :| k < Generated(rs, base) && id == Candidate(base, k);
        assert k < Generated(rs + [r], base);
      } else if base, k: nat :| k < Generated(rs + [r], base) && id == Candidate(base, k) {
        assert !(k < Generated(rs, base));
      }
      if r.Fresh? && id == IdFor(rs, r) { assert Generated(rs, r.base) < Generated(rs + [r], r.base); }
    }
  }

  /** The context serves the requests of a program: names are taken as they are. */
  method Serve(ctx: Context, rs: seq<Request>) returns (ids: seq<Id>)
    requires ctx.usedNodeIds == {}
    modifies ctx`usedNodeIds
    ensures ids == IdsGiven(rs)
  {
    ids := [];
    for i := 0 to |rs|
      invariant ids == IdsGiven(rs[..i]) && Supplied(ctx.usedNodeIds, rs[..i])
    {
      assert rs[..i + 1] == rs[..i] + [rs[i]] && rs[..i + 1][..i] == rs[..i];
      SuppliedMore(ctx.usedNodeIds, rs[..i], rs[i]);
      match rs[i]
      case Own(x) => ids := ids + [x];
      case Fresh(base) =>
        ghost var used := ctx.usedNodeIds;
        var id := ctx.UniqueNodeId(base);
        ghost var k: nat :| id == Candidate(base, k) && forall j :: 0 <= j < k ==> Candidate(base, j) in used;
        NextIsFirstUnused(used, rs[..i], base, k);
        ids := ids + [id];
    }
    assert rs[..|rs|] == rs;
  }

  // --------------------------------------------------------------------- collisions

  ghost predicate Different(ids: seq<Id>) { forall i, j :: 0 <= i < j < |ids| ==> ids[i] != ids[j] }

  /** Names are taken once, and none is the k-th id of a base from which more than k are generated. */
  ghost predicate Clear(rs: seq<Request>) {
    && (forall i, j :: 0 <= i < j < |rs| && rs[i].Own? && rs[j].Own? ==> rs[i].name != rs[j].name)
    && (forall i, base, k: nat {:trigger Candidate(base, k), rs[i]} ::
          0 <= i < |rs| && rs[i].Own? && rs[i].name == Candidate(base, k) ==> k >= Generated(rs, base))
  }

  lemma {:induction false} GivenAt(rs: seq<Request>, i: nat)
    requires i < |rs|
    ensures IdsGiven(rs)[i] == IdFor(rs[..i], rs[i])
  {
    if i < |rs| - 1 {
      GivenAt(rs[..|rs| - 1], i);
      assert rs[..|rs| - 1][..i] == rs[..i];
    }
  }

  lemma {:induction false} GeneratedGrows(rs: seq<Request>, i: nat, base: string)
    requires i <= |rs|
    ensures Generated(rs[..i], base) <= Generated(rs, base)
    ensures i < |rs| && rs[i] == Fresh(base) ==> Generated(rs[..i], base) < Generated(rs, base)
  {
    if i == |rs| {
      assert rs[..i] == rs;
    } else {
      var n := |rs| - 1;
      assert rs[..n][..i] == rs[..i];
      GeneratedGrows(rs[..n], i, base);
    }
  }

  /** The k-th generation of a base, if there are more than k. */
  lemma {:induction false} GenerationAt(rs: seq<Request>, base: string, k: nat) returns (i: nat)
    requires k < Generated(rs, base)
    ensures i < |rs| && rs[i] == Fresh(base) && Generated(rs[..i], base) == k
  {
    var n := |rs| - 1;
    if k < Generated(rs[..n], base) {
      i := GenerationAt(rs[..n], base, k);
      assert rs[..n][..i] == rs[..i];
    } else {
      i := n;
    }
  }

  lemma PairDiffers(rs: seq<Request>, i: nat, j: nat)
    requires Clear(rs) && i < j < |rs|
    ensures IdsGiven(rs)[i] != IdsGiven(rs)[j]
  {
    GivenAt(rs, i);
    GivenAt(rs, j);
    match (rs[i], rs[j])
    case (Own(x), Own(y)) =>
    case (Own(x), Fresh(base)) => GeneratedGrows(rs, j, base);
    case (Fresh(base), Own(y)) => GeneratedGrows(rs, i, base);
    case (Fresh(a), Fresh(b)) =>
      GeneratedGrows(rs[..j], i, a);
      assert rs[..j][..i] == rs[..i] && rs[..j][i] == rs[i];
      if IdsGiven(rs)[i] == IdsGiven(rs)[j] {
        CandidateSplits(a, Generated(rs[..i], a), b, Generated(rs[..j], b));
      }
  }

  /** The ids of a program are different exactly when its variables keep clear of the generated ids. */
  lemma CollideExactly(rs: seq<Request>)
    ensures Different(IdsGiven(rs)) <==> Clear(rs)
  {
    if Clear(rs) {
      forall i, j | 0 <= i < j < |rs| ensures IdsGiven(rs)[i] != IdsGiven(rs)[j] { PairDiffers(rs, i, j); }
    }
    if Different(IdsGiven(rs)) {
      forall i, j | 0 <= i < j < |rs| && rs[i].Own? && rs[j].Own? ensures rs[i].name != rs[j].name {
        GivenAt(rs, i);
        GivenAt(rs, j);
      }
      forall i, base, k: nat | 0 <= i < |rs| && rs[i].Own? && rs[i].name == Candidate(base, k)
        ensures k >= Generated(rs, base)
      {
        GivenAt(rs, i);
        if k < Generated(rs, base) {
          var j := GenerationAt(rs, base, k);
          GivenAt(rs, j);
        }
      }
    }
  }

  /** An acyclic graph over these ids is sorted exactly when the requests are clear; else it counts as circular. */
  method SortProgram(nodes: seq<Node>, rs: seq<Request>) returns (r: TopologicalSort.SortResult)
    requires Acyclic(nodes) && |nodes| == |rs| && forall i :: 0 <= i < |rs| ==> nodes[i].id == IdsGiven(rs)[i]
    ensures r.Sorted? <==> Clear(rs)
    ensures r.Circular? ==> r.remaining == {}
  {
    CollideExactly(rs);
    assert Distinct(nodes) <==> Different(IdsGiven(rs));
    r := TopologicalSort.TopologicalSort(nodes);
  }

  /** number_0 = source(); x = 1.0, as the context sees it: the literal gets the variable's id. */
  method CollidingProgram(registry: Registry) returns (ctx: Context, r: TopologicalSort.SortResult)
    ensures |ctx.algorithms| == 2 && ctx.algorithms[0].id == "number_0" == ctx.algorithms[1].id
    ensures Acyclic(ctx.algorithms) && r.Circular?
  {
    ctx := new Context(registry);
    ctx.Enter(Node("source", "number_0", map[], map[], None, None), true);
    ghost var used := ctx.usedNodeIds;
    var id := ctx.UniqueNodeId("number");
    assert used == {} && NodeIds.Decimal(0) == "0" && Candidate("number", 0) == "number_0";
    assert id == "number_0";
    ctx.Append(Node("number", id, map["value" := Number(1.0)], map[], None, None), Some(DataType.Decimal), true);
    CollisionIsAcyclic(ctx.algorithms[0], ctx.algorithms[1]);
    assert ctx.algorithms == [ctx.algorithms[0], ctx.algorithms[1]];
    assert !Distinct(ctx.algorithms) by { assert ctx.algorithms[0].id == ctx.algorithms[1].id; }
    r := TopologicalSort.TopologicalSort(ctx.algorithms);
  }

  /** Two nodes without inputs make no cycle, whatever their ids. */
  lemma CollisionIsAcyclic(n: Node, m: Node)
    requires n.inputs == map[] && m.inputs == map[]
    ensures Acyclic([n, m])
  {
    forall id, p | id in Ids([n, m]) && Walk([n, m], p) && p[0] == id
      ensures |p| == 1
    {
      assert |p| >= 2 ==> DependsOn([n, m], p[0], p[1]);
    }
  }
}
