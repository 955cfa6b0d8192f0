/**
 Timeframes of the compiled list.  A node without one takes the lowest resolution among its
 inputs; a node that gets none that way takes it from its readers; constants need none.
 */
module TimeframeResolver {
  import opened Wrappers
  import opened Graph
  import opened Registry
  import opened CompilationContext
  import TopologicalSort

  /** `TimeFrame::operator<`: a higher rank is a lower resolution. */
  type Rank = string -> int

  type Times = map<Id, Option<string>>

  // ------------------------------------------------------------------- specification

  /** The node with this id has no timeframe of its own. */
  ghost predicate Undated(g: seq<Node>, id: Id) { forall n :: n in g && n.id == id ==> n.timeframe.None? }

  ghost predicate Dated(g: seq<Node>, id: Id, t: string) { exists n :: n in g && n.id == id && n.timeframe == Some(t) }

  /** Down the inputs, through nodes without a timeframe, to one that has it. */
  ghost predicate Lineage(g: seq<Node>, p: seq<Id>, t: string) {
    Walk(g, p) && Dated(g, p[|p| - 1], t) && forall i :: 0 <= i < |p| - 1 ==> Undated(g, p[i])
  }

  ghost predicate Inherits(g: seq<Node>, id: Id, t: string) {
    exists p :: Lineage(g, p, t) && p[0] == id
  }

  ghost predicate HasTime(g: seq<Node>, id: Id) { exists t :: Inherits(g, id, t) }

  /** `own` gives each node the latest timeframe it inherits, if any. */
  ghost predicate Latest(g: seq<Node>, rank: Rank, id: Id, own: Option<string>) {
    match own
    case None => !HasTime(g, id)
    case Some(t) => Inherits(g, id, t) && forall u :: Inherits(g, id, u) ==> rank(u) <= rank(t)
  }

  ghost predicate Owned(g: seq<Node>, rank: Rank, own: Times) {
    own.Keys == Ids(g) && forall id :: id in own ==> Latest(g, rank, id, own[id])
  }

  ghost predicate Reads(g: seq<Node>, m: Node, id: Id) { m in g && id in InputIds(m) }

  /** The latest timeframe among the readers, if any has one. */
  ghost predicate FromReaders(g: seq<Node>, rank: Rank, own: Times, id: Id, t: Option<string>)
    requires own.Keys == Ids(g)
  {
    match t
    case None => forall m :: Reads(g, m, id) ==> own[m.id].None?
    case Some(x) =>
      && (exists m :: Reads(g, m, id) && own[m.id] == Some(x))
      && (forall m :: Reads(g, m, id) && own[m.id].Some? ==> rank(own[m.id].value) <= rank(x))
  }

  predicate IsScalar(reg: Registry, kind: string) { kind in reg.components && reg.components[kind].scalar }

  /** What node n is left with. */
  ghost predicate Settled(reg: Registry, g: seq<Node>, rank: Rank, own: Times, n: Node, t: Option<string>)
    requires own.Keys == Ids(g) && n in g
  {
    if own[n.id].Some? || IsScalar(reg, n.kind) then t == own[n.id] else FromReaders(g, rank, own, n.id, t)
  }

  /** A timeframe of its own, by inheritance, or by inheritance of a direct reader. */
  ghost predicate Timed(g: seq<Node>, id: Id) {
    HasTime(g, id) || exists m :: Reads(g, m, id) && HasTime(g, m.id)
  }

  /** Kinds must be known wherever they are looked up; nodes other than constants must be timed. */
  ghost predicate Resolvable(reg: Registry, g: seq<Node>, skipValidation: bool) {
    && (forall n :: n in g && !HasTime(g, n.id) ==> n.kind in reg.components)
    && (!skipValidation ==> forall n :: n in g ==>
          n.kind in reg.components && (IsScalar(reg, n.kind) || Timed(g, n.id)))
  }

  /** The answer does not depend on the order of the list. */
  lemma OrderIsIrrelevant(reg: Registry, a: seq<Node>, b: seq<Node>, skipValidation: bool)
    requires forall n :: n in a <==> n in b
    ensures Resolvable(reg, a, skipValidation) <==> Resolvable(reg, b, skipValidation)
  {
    assert Ids(a) == Ids(b);
    assert forall x, y :: DependsOn(a, x, y) <==> DependsOn(b, x, y);
    forall id, t ensures Inherits(a, id, t) <==> Inherits(b, id, t) {
      forall p ensures Lineage(a, p, t) <==> Lineage(b, p, t) {
        assert Walk(a, p) <==> Walk(b, p);
      }
    }
    assert forall id :: HasTime(a, id) <==> HasTime(b, id);
    assert forall id :: Timed(a, id) <==> Timed(b, id);
  }

  // ------------------------------------------------------------------ first pass

  lemma SameNode(g: seq<Node>, n: Node, m: Node)
    requires Distinct(g) && n in g && m in g && n.id == m.id
    ensures n == m
  {
    var i :| 0 <= i < |g| && g[i] == n;
    var j :| 0 <= j < |g| && g[j] == m;
    assert i == j;
  }

  lemma DatedOrNot(g: seq<Node>, n: Node)
    requires Distinct(g) && n in g
    ensures Undated(g, n.id) <==> n.timeframe.None?
    ensures forall t :: Dated(g, n.id, t) <==> n.timeframe == Some(t)
  {
    forall m | m in g && m.id == n.id ensures m == n { SameNode(g, n, m); }
  }

  lemma OwnTime(g: seq<Node>, n: Node, t: string)
    requires Distinct(g) && n in g && n.timeframe.Some?
    ensures Inherits(g, n.id, t) <==> n.timeframe == Some(t)
  {
    if n.timeframe == Some(t) { assert Lineage(g, [n.id], t); }
    if Inherits(g, n.id, t) {
      DatedOrNot(g, n);
      var p :| Lineage(g, p, t) && p[0] == n.id;
      assert |p| == 1;
    }
  }

  /** Without its own, a node inherits exactly what its inputs inherit. */
  lemma InputTimes(g: seq<Node>, n: Node, t: string)
    requires Distinct(g) && n in g && n.timeframe.None?
    ensures Inherits(g, n.id, t) <==> exists d :: d in InputIds(n) && d in Ids(g) && Inherits(g, d, t)
  {
    DatedOrNot(g, n);
    if Inherits(g, n.id, t) {
      var p :| Lineage(g, p, t) && p[0] == n.id;
      assert |p| > 1;
      assert DependsOn(g, p[0], p[1]);
      var m :| m in g && m.id == p[0] && p[1] in InputIds(m) && p[1] in Ids(g);
      SameNode(g, n, m);
      var q := p[1..];
      forall i | 0 <= i < |q| - 1 ensures DependsOn(g, q[i], q[i + 1]) && Undated(g, q[i]) {
        assert q[i] == p[i + 1] && q[i + 1] == p[i + 2];
      }
      assert Lineage(g, q, t);
    }
    forall d | d in InputIds(n) && d in Ids(g) && Inherits(g, d, t) ensures Inherits(g, n.id, t) {
      var q :| Lineage(g, q, t) && q[0] == d;
      var p := [n.id] + q;
      assert DependsOn(g, n.id, d);
      forall i | 0 <= i < |p| - 1 ensures DependsOn(g, p[i], p[i + 1]) && Undated(g, p[i]) {
        if i > 0 { assert p[i] == q[i - 1] && p[i + 1] == q[i]; }
      }
      assert p[|p| - 1] == q[|q| - 1];
      assert Lineage(g, p, t);
    }
  }

  /** Later of two timeframes, the first on a tie (std::max_element). */
  function Later(rank: Rank, a: Option<string>, b: Option<string>): Option<string> {
    if b.None? || (a.Some? && rank(b.value) <= rank(a.value)) then a else b
  }

  /** The latest timeframe the cache holds for these ids. */
  ghost predicate LatestIn(rank: Rank, cache: Times, ids: set<Id>, t: Option<string>) {
    && (forall d :: d in ids && d in cache && cache[d].Some? ==> t.Some? && rank(cache[d].value) <= rank(t.value))
    && (t.Some? ==> exists d :: d in ids && d in cache && cache[d] == t)
  }

  /** `ResolveTimeframe`: the lowest resolution among the cached inputs, in any order. */
  method ResolveFromInputs(rank: Rank, cache: Times, refs: set<string>) returns (t: Option<string>)
    ensures LatestIn(rank, cache, set r | r in refs :: NodeOf(r), t)
  {
    t := None;
    var todo := refs;
    while todo != {}
      invariant todo <= refs
      invariant LatestIn(rank, cache, set r | r in refs - todo :: NodeOf(r), t)
    {
      var ref :| ref in todo;
      assert (set r | r in refs - (todo - {ref}) :: NodeOf(r)) ==
               (set r | r in refs - todo :: NodeOf(r)) + {NodeOf(ref)};
      todo := todo - {ref};
      if NodeOf(ref) in cache { t := Later(rank, t, cache[NodeOf(ref)]); }
    }
    assert refs - {} == refs;
  }

  /** The cache after the first i nodes; a node without inputs and timeframe is not entered. */
  ghost predicate Cached(g: seq<Node>, rank: Rank, i: nat, cache: Times)
    requires i <= |g|
  {
    && cache.Keys <= Ids(g[..i])
    && (forall id :: id in Ids(g[..i]) ==> Latest(g, rank, id, TimeIn(cache, id)))
  }

  function TimeIn(cache: Times, id: Id): Option<string> { if id in cache then cache[id] else None }

  lemma StepIsLatest(g: seq<Node>, rank: Rank, i: nat, cache: Times, t: Option<string>)
    requires Distinct(g) && TopologicalSort.InputsFirst(g) && i < |g| && Cached(g, rank, i, cache)
    requires if g[i].timeframe.Some? then t == g[i].timeframe else LatestIn(rank, cache, InputIds(g[i]), t)
    ensures Latest(g, rank, g[i].id, t)
  {
    hide Inherits, InputIds;
    var n := g[i];
    assert n in g;
    if n.timeframe.Some? {
      forall u ensures Inherits(g, n.id, u) <==> n.timeframe == Some(u) { OwnTime(g, n, u); }
    } else {
      InputsAreLatest(g, rank, i, cache);
      LatestOfInputs(g, rank, n, cache, t);
    }
  }

  lemma InputsAreLatest(g: seq<Node>, rank: Rank, i: nat, cache: Times)
    requires TopologicalSort.InputsFirst(g) && i < |g| && Cached(g, rank, i, cache)
    ensures forall d :: d in InputIds(g[i]) && d in Ids(g) ==> Latest(g, rank, d, TimeIn(cache, d))
    ensures cache.Keys <= Ids(g)
  {
    hide Latest, InputIds;
    forall d | d in cache ensures d in Ids(g) { PrefixIsPart(g, i, d); }
  }

  /** The latest timeframe of its inputs is the latest that a node without one of its own inherits. */
  lemma LatestOfInputs(g: seq<Node>, rank: Rank, n: Node, cache: Times, t: Option<string>)
    requires Distinct(g) && n in g && n.timeframe.None? && cache.Keys <= Ids(g)
    requires forall d :: d in InputIds(n) && d in Ids(g) ==> Latest(g, rank, d, TimeIn(cache, d))
    requires LatestIn(rank, cache, InputIds(n), t)
    ensures Latest(g, rank, n.id, t)
  {
    hide Inherits, InputIds, Distinct, Ids;
    forall u ensures Inherits(g, n.id, u) <==> exists d :: d in InputIds(n) && d in Ids(g) && Inherits(g, d, u) {
      InputTimes(g, n, u);
    }
    forall u | Inherits(g, n.id, u) ensures t.Some? && rank(u) <= rank(t.value) {
      var d :| d in InputIds(n) && d in Ids(g) && Inherits(g, d, u);
      assert Latest(g, rank, d, TimeIn(cache, d));
    }
    if t.Some? {
      var d :| d in InputIds(n) && d in cache && cache[d] == t;
      assert Latest(g, rank, d, TimeIn(cache, d));
    }
  }

  lemma PrefixIsPart(g: seq<Node>, i: nat, d: Id)
    requires i <= |g| && d in Ids(g[..i])
    ensures d in Ids(g)
  {
  }

  lemma CachedStep(g: seq<Node>, rank: Rank, i: nat, cache: Times, after: Times, t: Option<string>)
    requires Distinct(g) && i < |g| && Cached(g, rank, i, cache) && Latest(g, rank, g[i].id, t)
    requires after == cache[g[i].id := t] || (after == cache && t.None?)
    ensures Cached(g, rank, i + 1, after)
  {
    hide Latest;
    var n := g[i];
    assert g[..i + 1] == g[..i] + [n];
    assert Ids(g[..i + 1]) == Ids(g[..i]) + {n.id};
    assert n.id !in Ids(g[..i]);
  }

  /** What the first pass makes of the list. */
  ghost predicate FirstPass(g: seq<Node>, now: seq<Node>, cache: Times, i: nat)
    requires i <= |g|
  {
    && |now| == |g|
    && (forall k :: 0 <= k < i ==> now[k] == g[k].(timeframe := TimeIn(cache, g[k].id)))
    && (forall k :: i <= k < |g| ==> now[k] == g[k])
  }

  lemma FirstStep(g: seq<Node>, rank: Rank, now: seq<Node>, before: Times, after: Times, i: nat, t: Option<string>)
    requires Distinct(g) && i < |g| && Cached(g, rank, i, before) && FirstPass(g, now, before, i)
    requires after == before[g[i].id := t] || (after == before && t.None?)
    ensures FirstPass(g, now[i := now[i].(timeframe := t)], after, i + 1)
  {
    hide Latest;
    FreshInCache(g, rank, i, before);
  }

  lemma FirstPassAt(g: seq<Node>, now: seq<Node>, cache: Times, i: nat)
    requires i < |g| && FirstPass(g, now, cache, i)
    ensures |now| == |g| && now[i] == g[i]
  {
  }

  method InheritTimes(ctx: Context, rank: Rank) returns (cache: Times)
    requires Distinct(ctx.algorithms) && TopologicalSort.InputsFirst(ctx.algorithms)
    modifies ctx`algorithms
    ensures Cached(old(ctx.algorithms), rank, |old(ctx.algorithms)|, cache)
    ensures FirstPass(old(ctx.algorithms), ctx.algorithms, cache, |old(ctx.algorithms)|)
  {
    hide Latest, TopologicalSort.InputsFirst, LatestIn, InputRefs, Distinct;
    ghost var g := ctx.algorithms;
    var size := |ctx.algorithms|;
    cache := map[];
    assert FirstPass(g, ctx.algorithms, cache, 0) && Cached(g, rank, 0, cache);
    hide FirstPass, Cached;
    for i := 0 to size
      invariant FirstPass(g, ctx.algorithms, cache, i)
      invariant Cached(g, rank, i, cache)
    {
      FirstPassAt(g, ctx.algorithms, cache, i);
      var n := ctx.algorithms[i];
      var t := n.timeframe;
      ghost var before := cache;
      if t.Some? {
        cache := cache[n.id := t];
      } else {
        t := ResolveFromInputs(rank, cache, InputRefs(n));
        if InputRefs(n) != {} { cache := cache[n.id := t]; } else { NothingInherited(rank, cache, n, t); }
      }
      StepIsLatest(g, rank, i, before, t);
      CachedStep(g, rank, i, before, cache, t);
      FirstStep(g, rank, ctx.algorithms, before, cache, i, t);
      if t.Some? {
        ctx.algorithms := ctx.algorithms[i := n.(timeframe := t)];
      } else {
        Unchanged(ctx.algorithms, i, t);
      }
    }
  }

  lemma NothingInherited(rank: Rank, cache: Times, n: Node, t: Option<string>)
    requires InputRefs(n) == {} && LatestIn(rank, cache, set r | r in InputRefs(n) :: NodeOf(r), t)
    ensures t.None?
  {
  }

  lemma FreshInCache(g: seq<Node>, rank: Rank, i: nat, cache: Times)
    requires Distinct(g) && i < |g| && Cached(g, rank, i, cache)
    ensures g[i].id !in cache && forall k :: 0 <= k < i ==> g[k].id != g[i].id
  {
  }

  // ----------------------------------------------------------------- second pass

  function Readers(all: seq<Node>, id: Id): set<Id> { set m | m in all && id in InputIds(m) :: m.id }

  lemma NoReaders(all: seq<Node>, id: Id)
    requires all == []
    ensures Readers(all, id) == {}
  {
  }

  lemma OneMoreReader(all: seq<Node>, id: Id, i: nat)
    requires i < |all|
    ensures Readers(all[..i + 1], id) == Readers(all[..i], id) + if id in InputIds(all[i]) then {all[i].id} else {}
  {
    hide InputIds;
    assert all[..i + 1] == all[..i] + [all[i]];
  }

  /** `ResolveLiteralTimeframe`: the lowest resolution among the readers' cached timeframes. */
  method ResolveFromReaders(rank: Rank, cache: Times, all: seq<Node>, id: Id) returns (t: Option<string>)
    ensures LatestIn(rank, cache, Readers(all, id), t)
  {
    hide InputIds, Readers;
    t := None;
    NoReaders(all[..0], id);
    for i := 0 to |all|
      invariant LatestIn(rank, cache, Readers(all[..i], id), t)
    {
      OneMoreReader(all, id, i);
      if all[i].id in cache && id in InputIds(all[i]) { t := Later(rank, t, cache[all[i].id]); }
    }
    assert all[..|all|] == all;
  }

  /** The second pass only enters nodes it has passed, and readers are still ahead. */
  ghost predicate SecondPass(reg: Registry, g: seq<Node>, rank: Rank, own: Times, now: seq<Node>, cache: Times, i: nat)
    requires i <= |g|
  {
    && |now| == |g| && own.Keys == Ids(g)
    && (forall k :: 0 <= k < |g| ==> now[k] == g[k].(timeframe := now[k].timeframe))
    && (forall k :: 0 <= k < i ==> g[k] in g && Settled(reg, g, rank, own, g[k], now[k].timeframe))
    && (forall k :: i <= k < |g| ==> now[k].timeframe == own[g[k].id] == TimeIn(cache, g[k].id))
  }

  lemma ReadersAhead(g: seq<Node>, i: nat, m: Node)
    requires Distinct(g) && TopologicalSort.InputsFirst(g) && i < |g| && Reads(g, m, g[i].id)
    ensures exists k :: i < k < |g| && g[k] == m
  {
    var k :| 0 <= k < |g| && g[k] == m;
    assert g[i] in g && g[i].id in Ids(g);
    assert g[i].id in Ids(g[..k]);
    var j := NodeWithId(g[..k], g[i].id);
    assert g[j].id == g[i].id;
  }

  lemma ReadersSettle(reg: Registry, g: seq<Node>, rank: Rank, own: Times, now: seq<Node>, cache: Times, i: nat,
                      t: Option<string>)
    requires Distinct(g) && TopologicalSort.InputsFirst(g) && i < |g| && SecondPass(reg, g, rank, own, now, cache, i)
    requires LatestIn(rank, cache, Readers(now, g[i].id), t)
    ensures FromReaders(g, rank, own, g[i].id, t)
  {
    hide Settled, TopologicalSort.InputsFirst, InputIds;
    var ids := Readers(now, g[i].id);
    forall m | Reads(g, m, g[i].id)
      ensures m.id in ids && TimeIn(cache, m.id) == own[m.id]
    {
      ReadersAhead(g, i, m);
      var k :| i < k < |g| && g[k] == m;
      SameInputs(now[k], m);
      assert now[k] in now;
    }
    forall d | d in ids
      ensures exists m :: Reads(g, m, g[i].id) && m.id == d
    {
      var x :| x in now && g[i].id in InputIds(x) && x.id == d;
      var k :| 0 <= k < |now| && now[k] == x;
      SameInputs(x, g[k]);
      assert g[k] in g && Reads(g, g[k], g[i].id);
    }
  }

  lemma SameInputs(a: Node, b: Node)
    requires a.inputs == b.inputs
    ensures InputIds(a) == InputIds(b)
  {
  }

  /** Node i is settled and passed. */
  lemma SettleOne(reg: Registry, g: seq<Node>, rank: Rank, own: Times, now: seq<Node>, cache: Times, i: nat,
                  t: Option<string>,
                  after: Times)
    requires Distinct(g) && i < |g| && SecondPass(reg, g, rank, own, now, cache, i) && g[i] in g
    requires Settled(reg, g, rank, own, g[i], t) && (after == cache || after == cache[g[i].id := t])
    ensures SecondPass(reg, g, rank, own, now[i := now[i].(timeframe := t)], after, i + 1)
  {
    hide Settled;
  }

  lemma SecondPassAt(reg: Registry, g: seq<Node>, rank: Rank, own: Times, now: seq<Node>, cache: Times, i: nat)
    requires i < |g| && SecondPass(reg, g, rank, own, now, cache, i)
    ensures |now| == |g| && now[i].id == g[i].id && now[i].kind == g[i].kind && g[i] in g
    ensures g[i].id in own && now[i].timeframe == own[g[i].id]
  {
    hide Settled;
    assert g[i] in g && g[i].id in Ids(g);
  }

  method InheritFromReaders(ctx: Context, rank: Rank, cache0: Times, ghost g: seq<Node>, ghost own: Times)
    returns (r: Result<bool>)
    requires Distinct(g) && TopologicalSort.InputsFirst(g) && own.Keys == Ids(g)
    requires SecondPass(ctx.registry, g, rank, own, ctx.algorithms, cache0, 0)
    modifies ctx`algorithms
    ensures r.Ok? <==> forall n :: n in g && own[n.id].None? ==> n.kind in ctx.registry.components
    ensures r.Ok? ==> exists cache :: SecondPass(ctx.registry, g, rank, own, ctx.algorithms, cache, |g|)
  {
    hide TopologicalSort.InputsFirst, FromReaders, LatestIn, InputIds, SecondPass, Distinct, Readers;
    ghost var reg := ctx.registry;
    var cache, size := cache0, |ctx.algorithms|;
    SecondPassSize(reg, g, rank, own, ctx.algorithms, cache, 0);
    for i := 0 to size
      invariant SecondPass(reg, g, rank, own, ctx.algorithms, cache, i)
      invariant forall k :: 0 <= k < i ==> g[k].id in own && (own[g[k].id].None? ==> g[k].kind in reg.components)
    {
      SecondPassAt(reg, g, rank, own, ctx.algorithms, cache, i);
      var n, t, after := ctx.algorithms[i], ctx.algorithms[i].timeframe, cache;
      if t.None? {
        if n.kind !in ctx.registry.components { return Err; }
        if !ctx.registry.components[n.kind].scalar {
          t := ResolveFromReaders(rank, cache, ctx.algorithms, n.id);
          ReadersSettle(reg, g, rank, own, ctx.algorithms, cache, i, t);
          if t.Some? { after := cache[n.id := t]; }
        }
      }
      SettleOne(reg, g, rank, own, ctx.algorithms, cache, i, t, after);
      if t.Some? {
        ctx.algorithms := ctx.algorithms[i := n.(timeframe := t)];
      } else {
        Unchanged(ctx.algorithms, i, t);
      }
      cache := after;
    }
    r := Ok(true);
  }

  lemma SecondPassSize(reg: Registry, g: seq<Node>, rank: Rank, own: Times, now: seq<Node>, cache: Times, i: nat)
    requires i <= |g| && SecondPass(reg, g, rank, own, now, cache, i)
    ensures |now| == |g|
  {
  }

  lemma Unchanged(now: seq<Node>, i: nat, t: Option<string>)
    requires i < |now| && now[i].timeframe == t
    ensures now[i := now[i].(timeframe := t)] == now
  {
  }

  // -------------------------------------------------------------------- validation

  lemma SettledIsTimed(reg: Registry, g: seq<Node>, rank: Rank, own: Times, n: Node, t: Option<string>)
    requires Owned(g, rank, own) && n in g && n.kind in reg.components && !IsScalar(reg, n.kind)
    requires Settled(reg, g, rank, own, n, t)
    ensures t.Some? <==> Timed(g, n.id)
  {
    hide Inherits, InputIds;
    assert forall m :: m in g ==> m.id in own && (own[m.id].Some? <==> HasTime(g, m.id));
  }

  lemma OwnIsTimed(g: seq<Node>, rank: Rank, own: Times)
    requires Owned(g, rank, own)
    ensures forall n :: n in g ==> n.id in own && (own[n.id].Some? <==> HasTime(g, n.id))
  {
  }

  /** The times of the first pass as a table over all nodes. */
  ghost function OwnTimes(g: seq<Node>, cache: Times): Times { map id | id in Ids(g) :: TimeIn(cache, id) }

  lemma CacheIsOwned(reg: Registry, g: seq<Node>, rank: Rank, now: seq<Node>, cache: Times)
    requires Cached(g, rank, |g|, cache) && FirstPass(g, now, cache, |g|)
    ensures Owned(g, rank, OwnTimes(g, cache)) && SecondPass(reg, g, rank, OwnTimes(g, cache), now, cache, 0)
  {
    assert g[..|g|] == g;
    forall k | 0 <= k < |g| ensures g[k].id in Ids(g) { assert g[k] in g; }
  }

  /**
   Both passes and the validation.  Accepted exactly when every node that is no constant inherits
   a timeframe or is read by one that does.
   */
  method ResolveTimeframes(ctx: Context, rank: Rank, skipValidation: bool) returns (r: Result<bool>, ghost own: Times)
    requires Distinct(ctx.algorithms) && TopologicalSort.InputsFirst(ctx.algorithms)
    modifies ctx`algorithms
    ensures r.Ok? <==> Resolvable(ctx.registry, old(ctx.algorithms), skipValidation)
    ensures Owned(old(ctx.algorithms), rank, own)
    ensures r.Ok? ==>
              var g := old(ctx.algorithms);
              && |ctx.algorithms| == |g|
              && forall i :: 0 <= i < |g| ==>
                   && g[i] in g && ctx.algorithms[i] == g[i].(timeframe := ctx.algorithms[i].timeframe)
                   && Settled(ctx.registry, g, rank, own, g[i], ctx.algorithms[i].timeframe)
  {
    hide TopologicalSort.InputsFirst, Cached, Settled, HasTime, Timed, Latest;
    ghost var reg, g := ctx.registry, ctx.algorithms;
    var cache := InheritTimes(ctx, rank);
    own := OwnTimes(g, cache);
    CacheIsOwned(reg, g, rank, ctx.algorithms, cache);
    OwnIsTimed(g, rank, own);
    r := InheritFromReaders(ctx, rank, cache, g, own);
    if r.Err? { return; }
    ghost var cache2 :| SecondPass(reg, g, rank, own, ctx.algorithms, cache2, |g|);
    if !skipValidation {
      var now := ctx.algorithms;
      for i := 0 to |now|
        invariant ctx.algorithms == now
        invariant forall k :: 0 <= k < i ==>
                    g[k].kind in reg.components && (IsScalar(reg, g[k].kind) || Timed(g, g[k].id))
      {
        var n := now[i];
        assert g[i] in g && n.kind == g[i].kind;
        if n.kind !in ctx.registry.components { return Err, own; }
        if !ctx.registry.components[n.kind].scalar {
          SettledIsTimed(reg, g, rank, own, g[i], n.timeframe);
          if n.timeframe.None? { return Err, own; }
        }
      }
    }
  }

  // --------------------------------------------------- where inheritance stops short

  /** b reads a, and c, which has a timeframe, reads b. */
  ghost predicate Chain(reg: Registry, g: seq<Node>, a: Node, b: Node, c: Node) {
    && g == [a, b, c] && Distinct(g)
    && a.timeframe.None? && b.timeframe.None? && c.timeframe.Some?
    && InputIds(a) == {} && InputIds(b) == {a.id} && InputIds(c) == {b.id}
    && !IsScalar(reg, a.kind)
  }

  /** Readers hand their timeframe down one step only: b is timed, a is not, and the list is refused. */
  lemma OneStepUpOnly(reg: Registry, g: seq<Node>, a: Node, b: Node, c: Node)
    requires Chain(reg, g, a, b, c)
    ensures Timed(g, b.id) && !Timed(g, a.id) && !Resolvable(reg, g, false)
  {
    assert g[0] == a && g[1] == b && g[2] == c && a in g && b in g && c in g;
    forall t ensures Inherits(g, c.id, t) <==> c.timeframe == Some(t) { OwnTime(g, c, t); }
    forall t ensures !Inherits(g, a.id, t) { InputTimes(g, a, t); }
    forall t ensures !Inherits(g, b.id, t) { InputTimes(g, b, t); }
    assert Reads(g, c, b.id) && Inherits(g, c.id, c.timeframe.value);
    forall m | Reads(g, m, a.id) ensures m == b { }
  }

  const CLOCK := Component({}, [], [OutputPort("result", NumberType)], false)
  const RELAY := Component({}, [Input("SLOT", NumberType, false)], [OutputPort("result", NumberType)], false)

  function Relay(id: Id, from: Id, t: Option<string>): Node {
    Node("relay", id, map[], map["SLOT" := [JoinId(from, "result")]], t, None)
  }

  lemma RelayReads(id: Id, from: Id, t: Option<string>)
    requires Word(from)
    ensures InputIds(Relay(id, from, t)) == {from}
  {
    WordIsPlain(from);
    SplitJoined(from, "result");
    var n, r := Relay(id, from, t), JoinId(from, "result");
    assert n.inputs["SLOT"] == [r] && r in n.inputs["SLOT"];
    forall s ensures s in InputRefs(n) <==> s == r { }
    assert InputRefs(n) == {r};
  }

  lemma ThreeIds()
    ensures Word("clock_0") && Word("relay_0")
    ensures "clock_0" != "relay_0" && "clock_0" != "relay_1" && "relay_0" != "relay_1"
  {
    assert "clock_0"[0] != "relay_0"[0] && "clock_0"[0] != "relay_1"[0] && "relay_0"[6] != "relay_1"[6];
  }

  /** All three components are known, and none is a constant: only the timeframe of the clock is missing. */
  lemma ChainExists(reg: Registry) returns (g: seq<Node>, a: Node, b: Node, c: Node)
    requires reg.components == map["clock" := CLOCK, "relay" := RELAY]
    ensures Chain(reg, g, a, b, c) && forall n :: n in g ==> n.kind in reg.components
  {
    hide Word, InputIds;
    ThreeIds();
    a := Node("clock", "clock_0", map[], map[], None, None);
    b, c := Relay("relay_0", a.id, None), Relay("relay_1", "relay_0", Some("1H"));
    g := [a, b, c];
    RelayReads(b.id, a.id, None);
    RelayReads(c.id, b.id, Some("1H"));
    NoInputs(a);
  }

  lemma NoInputs(n: Node)
    requires n.inputs == map[]
    ensures InputIds(n) == {}
  {
    assert InputRefs(n) == {};
  }
}
