/**
 Elimination comes before timeframes are resolved.  A merged node has the readers of all the nodes
 it stands for, and may take its timeframe from any of them.
 */
module MergedTimes {
  import opened Wrappers
  import opened Graph
  import opened Registry
  import opened TimeframeResolver
  import CseOptimizer
  import OrphanRemoval

  /** Sends each node to the one that stands for it. */
  type Standing = map<Id, Id>

  function Images(ids: set<Id>, to: Standing): set<Id> { set d | d in ids && d in to :: to[d] }

  /** The same node but for its inputs, which are replaced by what stands for them. */
  ghost predicate StandsFor(n: Node, m: Node, to: Standing) {
    && n.id in to && m.id == to[n.id] && m.kind == n.kind && m.timeframe == n.timeframe
    && InputIds(n) <= to.Keys && InputIds(m) == Images(InputIds(n), to)
  }

  /** b is a with nodes merged. */
  ghost predicate Quotient(a: seq<Node>, b: seq<Node>, to: Standing) {
    && Distinct(a) && Distinct(b) && to.Keys == Ids(a) && Images(Ids(a), to) == Ids(b)
    && forall n, m :: n in a && m in b && n.id in to && m.id == to[n.id] ==> StandsFor(n, m, to)
  }

  // ---------------------------------------------------------------- times of their own

  lemma {:induction false} InheritsAlike(a: seq<Node>, b: seq<Node>, to: Standing, v: Valuation, n: Node, m: Node,
                                         t: string)
    requires Quotient(a, b, to) && Descends(a, v) && n in a && m in b && n.id in v && m.id == to[n.id]
    ensures Inherits(b, m.id, t) <==> Inherits(a, n.id, t)
    decreases v[n.id]
  {
    hide Inherits, Distinct, InputIds;
    assert StandsFor(n, m, to);
    if n.timeframe.Some? {
      OwnTime(a, n, t);
      OwnTime(b, m, t);
    } else {
      InputTimes(a, n, t);
      InputTimes(b, m, t);
      forall d | d in InputIds(n) ensures d in Ids(a) && to[d] in Ids(b) && to[d] in InputIds(m)
        ensures Inherits(b, to[d], t) <==> Inherits(a, d, t)
      {
        assert d in to && to[d] in Images(Ids(a), to);
        var i := NodeWithId(a, d);
        var j := NodeWithId(b, to[d]);
        InheritsAlike(a, b, to, v, a[i], b[j], t);
      }
    }
  }

  /** No difference that an order of timeframes could show. */
  predicate SameTime(rank: Rank, x: Option<string>, y: Option<string>) {
    (x.Some? <==> y.Some?) && (x.Some? ==> rank(x.value) == rank(y.value))
  }

  /** What a node inherits is the same before and after. */
  lemma OwnAlike(a: seq<Node>, b: seq<Node>, to: Standing, v: Valuation, rank: Rank, own: Times, ownB: Times,
                 n: Node, m: Node)
    requires Quotient(a, b, to) && Descends(a, v) && Owned(a, rank, own) && Owned(b, rank, ownB)
    requires n in a && m in b && n.id in to && m.id == to[n.id]
    ensures n.id in own && m.id in ownB && SameTime(rank, own[n.id], ownB[m.id])
  {
    hide Inherits, Distinct, InputIds, Quotient;
    QuotientKeys(a, b, to, v, n, m);
    forall t ensures Inherits(b, m.id, t) <==> Inherits(a, n.id, t) { InheritsAlike(a, b, to, v, n, m, t); }
    assert Latest(a, rank, n.id, own[n.id]) && Latest(b, rank, m.id, ownB[m.id]);
  }

  lemma QuotientKeys(a: seq<Node>, b: seq<Node>, to: Standing, v: Valuation, n: Node, m: Node)
    requires Quotient(a, b, to) && Descends(a, v) && n in a && m in b && n.id in to && m.id == to[n.id]
    ensures n.id in v && n.id in Ids(a) && m.id in Ids(b) && StandsFor(n, m, to)
  {
  }

  // ---------------------------------------------------------------- times from readers

  /** k reads node id, or a node merged with it. */
  ghost predicate ReadsAlike(a: seq<Node>, to: Standing, k: Node, id: Id) {
    k in a && id in to && to[id] in Images(InputIds(k), to)
  }

  /** Readers afterwards are the readers of all the merged nodes. */
  lemma ReadersAlike(a: seq<Node>, b: seq<Node>, to: Standing, id: Id, k: Node, l: Node)
    requires Quotient(a, b, to) && id in to && k in a && l in b && k.id in to && l.id == to[k.id]
    ensures Reads(b, l, to[id]) <==> ReadsAlike(a, to, k, id)
    ensures Reads(a, k, id) ==> ReadsAlike(a, to, k, id)
  {
    hide InputIds;
    assert StandsFor(k, l, to);
  }

  lemma Represented(a: seq<Node>, b: seq<Node>, to: Standing, l: Node) returns (k: Node)
    requires Quotient(a, b, to) && l in b
    ensures k in a && k.id in to && l.id == to[k.id]
  {
    assert l.id in Images(Ids(a), to);
    var d :| d in Ids(a) && d in to && to[d] == l.id;
    var i := NodeWithId(a, d);
    k := a[i];
  }

  lemma Representative(a: seq<Node>, b: seq<Node>, to: Standing, k: Node) returns (l: Node)
    requires Quotient(a, b, to) && k in a
    ensures l in b && k.id in to && l.id == to[k.id]
  {
    assert k.id in Ids(a) && to[k.id] in Images(Ids(a), to);
    var i := NodeWithId(b, to[k.id]);
    l := b[i];
  }

  /**
   Node n needs a timeframe from its readers, and some reader of a node merged with it is later than
   all of its own.
   */
  ghost predicate Gains(reg: Registry, a: seq<Node>, to: Standing, rank: Rank, own: Times, n: Node)
    requires own.Keys == Ids(a) && n in a
  {
    && own[n.id].None? && !IsScalar(reg, n.kind)
    && exists k ::
         ReadsAlike(a, to, k, n.id) && own[k.id].Some? && LaterThanReaders(a, rank, own, n.id, own[k.id].value)
  }

  ghost predicate LaterThanReaders(a: seq<Node>, rank: Rank, own: Times, id: Id, t: string)
    requires own.Keys == Ids(a)
  {
    forall k :: Reads(a, k, id) && own[k.id].Some? ==> rank(own[k.id].value) < rank(t)
  }

  /** x is the latest time among the readers of n and of the nodes merged with it. */
  ghost predicate LatestAlike(a: seq<Node>, to: Standing, rank: Rank, own: Times, id: Id, x: Option<string>)
    requires own.Keys == Ids(a)
  {
    match x
    case None => forall k :: ReadsAlike(a, to, k, id) ==> own[k.id].None?
    case Some(t) =>
      && (exists k :: ReadsAlike(a, to, k, id) && own[k.id].Some? && rank(own[k.id].value) == rank(t))
      && (forall k :: ReadsAlike(a, to, k, id) && own[k.id].Some? ==> rank(own[k.id].value) <= rank(t))
  }

  lemma FromAllReaders(a: seq<Node>, b: seq<Node>, to: Standing, v: Valuation, rank: Rank, own: Times, ownB: Times,
                       n: Node, x: Option<string>)
    requires Quotient(a, b, to) && Descends(a, v) && Owned(a, rank, own) && Owned(b, rank, ownB)
    requires n in a && n.id in to && FromReaders(b, rank, ownB, to[n.id], x)
    ensures LatestAlike(a, to, rank, own, n.id, x)
  {
    hide Quotient, Owned, Reads, ReadsAlike, InputIds;
    OwnedKeys(a, rank, own);
    OwnedKeys(b, rank, ownB);
    forall k | ReadsAlike(a, to, k, n.id)
      ensures k.id in own
      ensures exists l :: Reads(b, l, to[n.id]) && l.id in ownB && SameTime(rank, own[k.id], ownB[l.id])
    {
      AlikeIsNode(a, to, k, n.id);
      var l := Representative(a, b, to, k);
      ReadersAlike(a, b, to, n.id, k, l);
      OwnAlike(a, b, to, v, rank, own, ownB, k, l);
    }
    forall l | Reads(b, l, to[n.id]) ensures l in b && l.id in ownB { ReaderIsNode(b, l, to[n.id]); }
    if x.Some? {
      var l :| Reads(b, l, to[n.id]) && l.id in ownB && ownB[l.id] == x;
      var k := Represented(a, b, to, l);
      ReadersAlike(a, b, to, n.id, k, l);
      OwnAlike(a, b, to, v, rank, own, ownB, k, l);
    }
  }

  lemma OwnedKeys(a: seq<Node>, rank: Rank, own: Times)
    requires Owned(a, rank, own)
    ensures own.Keys == Ids(a)
  {
  }

  lemma AlikeIsNode(a: seq<Node>, to: Standing, k: Node, id: Id)
    requires ReadsAlike(a, to, k, id)
    ensures k in a && k.id in Ids(a)
  {
  }

  lemma ReaderIsNode(a: seq<Node>, k: Node, id: Id)
    requires Reads(a, k, id)
    ensures k in a && k.id in Ids(a)
  {
  }

  /**
   Merging changes the timeframe a node is left with exactly when the node has to take it from its
   readers and a reader of a node merged with it is later than all of them; it never gets earlier.
   */
  lemma MergingChangesTimesExactly(reg: Registry, a: seq<Node>, b: seq<Node>, to: Standing, v: Valuation, rank: Rank,
                                   own: Times, ownB: Times, n: Node, m: Node, x: Option<string>, y: Option<string>)
    requires Quotient(a, b, to) && Descends(a, v) && Owned(a, rank, own) && Owned(b, rank, ownB)
    requires n in a && m in b && n.id in to && m.id == to[n.id]
    requires Settled(reg, a, rank, own, n, x) && Settled(reg, b, rank, ownB, m, y)
    ensures !SameTime(rank, x, y) <==> Gains(reg, a, to, rank, own, n)
    ensures x.Some? ==> y.Some? && rank(x.value) <= rank(y.value)
  {
    hide Quotient, Owned, Reads, ReadsAlike, InputIds, Inherits, FromReaders, LatestAlike, LaterThanReaders;
    OwnAlike(a, b, to, v, rank, own, ownB, n, m);
    QuotientKeys(a, b, to, v, n, m);
    OwnedKeys(a, rank, own);
    if own[n.id].None? && !IsScalar(reg, n.kind) {
      FromAllReaders(a, b, to, v, rank, own, ownB, n, y);
      forall k | Reads(a, k, n.id) ensures ReadsAlike(a, to, k, n.id) {
        ReaderIsNode(a, k, n.id);
        var l := Representative(a, b, to, k);
        ReadersAlike(a, b, to, n.id, k, l);
      }
      MoreReaders(a, to, rank, own, n.id, x, y);
    }
  }

  /** The latest of more readers is later exactly when one of them is later than all the others. */
  lemma MoreReaders(a: seq<Node>, to: Standing, rank: Rank, own: Times, id: Id, x: Option<string>, y: Option<string>)
    requires own.Keys == Ids(a) && forall k :: Reads(a, k, id) ==> ReadsAlike(a, to, k, id)
    requires FromReaders(a, rank, own, id, x) && LatestAlike(a, to, rank, own, id, y)
    ensures !SameTime(rank, x, y) <==>
            exists k ::
              ReadsAlike(a, to, k, id) && own[k.id].Some? && LaterThanReaders(a, rank, own, id, own[k.id].value)
    ensures x.Some? ==> y.Some? && rank(x.value) <= rank(y.value)
  {
    hide InputIds, Images;
    forall k | ReadsAlike(a, to, k, id) ensures k.id in own { AlikeIsNode(a, to, k, id); }
  }

  // -------------------------------------------------------------------- elimination

  function Stands(rd: CseOptimizer.Redirect, g: seq<Node>): Standing {
    map id | id in Ids(g) :: CseOptimizer.Target(rd, id)
  }

  /** The nodes of k, each duplicate with the timeframe of the node of g it is merged into. */
  function Redated(g: seq<Node>, rd: CseOptimizer.Redirect, k: seq<Node>): seq<Node> {
    seq(|k|, i requires 0 <= i < |k| => Redate(g, rd, k[i]))
  }

  function Redate(g: seq<Node>, rd: CseOptimizer.Redirect, n: Node): Node {
    if n.id in rd && rd[n.id] in Ids(g) then n.(timeframe := g[CseOptimizer.FirstIndex(g, rd[n.id])].timeframe) else n
  }

  lemma FirstIsIt(g: seq<Node>, c: Node)
    requires Distinct(g) && c in g
    ensures c.id in Ids(g) && g[CseOptimizer.FirstIndex(g, c.id)] == c
  {
    var i :| 0 <= i < |g| && g[i] == c;
  }

  /** Redating changes a node exactly when it is merged with one of another timeframe; then it is a constant. */
  lemma RedatedExactly(h: CseOptimizer.Hashing, g: seq<Node>, rd: CseOptimizer.Redirect, n: Node, c: Node)
    requires CseOptimizer.Assumptions(h, g, rd) && n in g && c in g && n.id in rd && c.id == rd[n.id]
    ensures Redate(g, rd, n) == n <==> n.timeframe == c.timeframe
    ensures n.kind !in SCALAR_KINDS ==> Redate(g, rd, n) == n
  {
    hide CseOptimizer.Redirects;
    FirstIsIt(g, c);
    var d := CseOptimizer.RemovedLikeCanonical(h, g, rd, n);
    SameNode(g, c, d);
  }

  /** Elimination merges the redated graph. */
  lemma EliminationMerges(h: CseOptimizer.Hashing, g: seq<Node>, rd: CseOptimizer.Redirect)
    requires CseOptimizer.Assumptions(h, g, rd) && CseOptimizer.BareRefsKept(g, rd)
    requires forall n :: n in g ==> InputIds(n) <= Ids(g)
    ensures Quotient(Redated(g, rd, g), CseOptimizer.Survivors(g, rd), Stands(rd, g))
  {
    hide CseOptimizer.Assumptions, CseOptimizer.Survivors, CseOptimizer.BareRefsKept, StandsFor, Distinct, Redate,
         InputIds, CseOptimizer.Redirects;
    EliminationFacts(h, g, rd);
    RedatedIds(g, rd, g);
    CseOptimizer.SurvivorIds(g, rd);
    CseOptimizer.RedirectIsOneStep(h, g, rd);
    EliminationImages(g, rd);
    forall n', m | && n' in Redated(g, rd, g) && m in CseOptimizer.Survivors(g, rd)
                   && m.id == CseOptimizer.Target(rd, n'.id)
      ensures StandsFor(n', m, Stands(rd, g))
    {
      var i :| 0 <= i < |g| && Redated(g, rd, g)[i] == n';
      EliminatedStands(h, g, rd, g[i], m);
    }
  }

  lemma EliminationFacts(h: CseOptimizer.Hashing, g: seq<Node>, rd: CseOptimizer.Redirect)
    requires CseOptimizer.Assumptions(h, g, rd)
    ensures Distinct(g) && PlainIds(g) && CseOptimizer.Redirects(h, g, rd)
  {
  }

  lemma RedatedIds(g: seq<Node>, rd: CseOptimizer.Redirect, k: seq<Node>)
    ensures Ids(Redated(g, rd, k)) == Ids(k) && (Distinct(Redated(g, rd, k)) <==> Distinct(k))
    ensures forall i :: 0 <= i < |k| ==> Redated(g, rd, k)[i].id == k[i].id
  {
    var a := Redated(g, rd, k);
    assert forall i :: 0 <= i < |k| ==> a[i].id == k[i].id;
    forall id ensures id in Ids(a) <==> id in Ids(k) {
      if id in Ids(a) { var i := NodeWithId(a, id); assert k[i] in k; }
      if id in Ids(k) { var i := NodeWithId(k, id); assert a[i] in a; }
    }
  }

  lemma RedatedFrom(g: seq<Node>, rd: CseOptimizer.Redirect, k: seq<Node>, n: Node) returns (m: Node)
    requires n in Redated(g, rd, k)
    ensures m in k && m.id in Ids(k) && n == Redate(g, rd, m) && n.id == m.id && InputIds(n) == InputIds(m)
  {
    hide InputIds;
    var i :| 0 <= i < |k| && Redated(g, rd, k)[i] == n;
    m := k[i];
    SameInputIds(n, m);
  }

  lemma {:induction false} KeptRedated(g: seq<Node>, rd: CseOptimizer.Redirect, k: seq<Node>, live: set<Id>)
    ensures OrphanRemoval.Keep(Redated(g, rd, k), live) == Redated(g, rd, OrphanRemoval.Keep(k, live))
  {
    hide Redate;
    if k == [] {
    } else {
      var n := |k| - 1;
      assert Redate(g, rd, k[n]).id == k[n].id by { SameIdRedated(g, rd, k[n]); }
      assert Redated(g, rd, k)[..n] == Redated(g, rd, k[..n]) && Redated(g, rd, k)[n] == Redate(g, rd, k[n]);
      KeptRedated(g, rd, k[..n], live);
      var kept := OrphanRemoval.Keep(k[..n], live);
      assert Redated(g, rd, kept + [k[n]]) == Redated(g, rd, kept) + [Redate(g, rd, k[n])];
    }
  }

  lemma SameIdRedated(g: seq<Node>, rd: CseOptimizer.Redirect, n: Node)
    ensures Redate(g, rd, n) == n.(timeframe := Redate(g, rd, n).timeframe)
  {
  }

  lemma EliminationImages(g: seq<Node>, rd: CseOptimizer.Redirect)
    requires forall id :: id in rd ==> id in Ids(g) && rd[id] in Ids(g) && rd[id] !in rd
    ensures Images(Ids(g), Stands(rd, g)) == Ids(g) - rd.Keys
  {
    forall d | d in Ids(g) - rd.Keys ensures d in Images(Ids(g), Stands(rd, g)) { assert Stands(rd, g)[d] == d; }
  }

  lemma EliminatedStands(h: CseOptimizer.Hashing, g: seq<Node>, rd: CseOptimizer.Redirect, n: Node, m: Node)
    requires CseOptimizer.Assumptions(h, g, rd) && CseOptimizer.BareRefsKept(g, rd) && n in g && InputIds(n) <= Ids(g)
    requires m in CseOptimizer.Survivors(g, rd) && m.id == CseOptimizer.Target(rd, n.id)
    ensures StandsFor(Redate(g, rd, n), m, Stands(rd, g))
  {
    hide CseOptimizer.Assumptions, CseOptimizer.Survivors, CseOptimizer.BareRefsKept, InputIds, Images, Redate,
         Distinct;
    var c := CseOptimizer.SurvivorOrigin(g, rd, m);
    var d := CanonicalOf(h, g, rd, n);
    SameNode(g, c, d);
    SameInputIds(n, c);
    EliminatedInputs(h, g, rd, c);
    SameInputIds(Redate(g, rd, n), n);
    assert n.id in Ids(g);
  }

  lemma CanonicalOf(h: CseOptimizer.Hashing, g: seq<Node>, rd: CseOptimizer.Redirect, n: Node) returns (c: Node)
    requires CseOptimizer.Assumptions(h, g, rd) && n in g
    ensures Distinct(g) && c in g && c.id == CseOptimizer.Target(rd, n.id) && c.id !in rd
    ensures c.kind == n.kind && c.inputs == n.inputs && Redate(g, rd, n) == n.(timeframe := c.timeframe)
  {
    hide CseOptimizer.Redirects, CseOptimizer.SessionsTold;
    c := n;
    if n.id in rd {
      c := CseOptimizer.RemovedLikeCanonical(h, g, rd, n);
      FirstIsIt(g, c);
    }
  }

  lemma SameInputIds(n: Node, m: Node)
    requires n.inputs == m.inputs
    ensures InputIds(n) == InputIds(m)
  {
  }

  lemma EliminatedInputs(h: CseOptimizer.Hashing, g: seq<Node>, rd: CseOptimizer.Redirect, c: Node)
    requires CseOptimizer.Assumptions(h, g, rd) && CseOptimizer.BareRefsKept(g, rd) && c in g && c.id !in rd
    requires InputIds(c) <= Ids(g)
    ensures InputIds(CseOptimizer.RewriteNode(c, rd)) == Images(InputIds(c), Stands(rd, g))
  {
    hide InputIds, CseOptimizer.Redirects, InputRefs;
    CseOptimizer.RedirectMerges(h, g, rd);
    forall d | d in InputIds(c) ensures CseOptimizer.Target(rd, d) in InputIds(CseOptimizer.RewriteNode(c, rd)) {
      CseOptimizer.RewrittenInput(c, rd, d);
    }
    forall e | e in InputIds(CseOptimizer.RewriteNode(c, rd)) ensures e in Images(InputIds(c), Stands(rd, g)) {
      var d := CseOptimizer.RewrittenInputBack(c, rd, e);
      assert Stands(rd, g)[d] == e;
    }
  }

  // ------------------------------------------------------------------ orphan removal

  lemma MarksOf(g: seq<Node>, n: Node, d: Id)
    requires Distinct(g) && n in g
    ensures OrphanRemoval.Marks(g, n.id, d) <==> d in InputIds(n)
  {
    hide InputIds;
    var i :| 0 <= i < |g| && g[i] == n;
    assert OrphanRemoval.FirstWithId(g, n.id) == i;
  }

  /** The marking node of a step along a trail. */
  lemma MarkingNode(g: seq<Node>, a: Id, d: Id) returns (n: Node)
    requires OrphanRemoval.Marks(g, a, d)
    ensures n in g && n.id == a && d in InputIds(n)
  {
    n := g[OrphanRemoval.FirstWithId(g, a)];
  }

  lemma {:induction false} NeededAfter(reg: Registry, a: seq<Node>, b: seq<Node>, to: Standing, p: seq<Id>, i: nat)
    requires Quotient(a, b, to) && OrphanRemoval.Trail(reg, a, p) && i < |p|
    ensures p[i] in to && OrphanRemoval.Needed(reg, b, to[p[i]])
  {
    hide InputIds, Images, Distinct, IsSink, OrphanRemoval.Needed, OrphanRemoval.Marks;
    if i == 0 {
      var n :| n in a && n.id == p[0] && IsSink(reg, n.kind);
      var m := Representative(a, b, to, n);
      assert StandsFor(n, m, to);
      OrphanRemoval.SinkIsNeeded(reg, b, m.id);
    } else {
      NeededAfter(reg, a, b, to, p, i - 1);
      assert OrphanRemoval.Marks(a, p[i - 1], p[i]);
      var n := MarkingNode(a, p[i - 1], p[i]);
      var m := Representative(a, b, to, n);
      StandsReads(n, m, to, p[i]);
      MarksOf(b, m, to[p[i]]);
      OrphanRemoval.MarkedIsNeeded(reg, b, m.id, to[p[i]]);
    }
  }

  lemma StandsReads(n: Node, m: Node, to: Standing, d: Id)
    requires StandsFor(n, m, to) && d in InputIds(n)
    ensures d in to && to[d] in InputIds(m)
  {
  }

  /** Whatever is needed afterwards stands for something that was needed before. */
  lemma {:induction false} NeededBefore(reg: Registry, a: seq<Node>, b: seq<Node>, to: Standing, q: seq<Id>, i: nat)
    returns (x: Id)
    requires Quotient(a, b, to) && OrphanRemoval.Trail(reg, b, q) && i < |q|
    ensures x in to && to[x] == q[i] && OrphanRemoval.Needed(reg, a, x)
  {
    hide InputIds, Distinct, IsSink, OrphanRemoval.Needed, OrphanRemoval.Marks;
    if i == 0 {
      var m :| m in b && m.id == q[0] && IsSink(reg, m.kind);
      var n := Represented(a, b, to, m);
      assert StandsFor(n, m, to);
      x := n.id;
      OrphanRemoval.SinkIsNeeded(reg, a, x);
    } else {
      var y := NeededBefore(reg, a, b, to, q, i - 1);
      assert OrphanRemoval.Marks(b, q[i - 1], q[i]);
      var m := MarkingNode(b, q[i - 1], q[i]);
      var k := NodeWithId(a, y);
      assert StandsFor(a[k], m, to);
      x :| x in InputIds(a[k]) && x in to && to[x] == q[i];
      MarksOf(a, a[k], x);
      OrphanRemoval.MarkedIsNeeded(reg, a, y, x);
    }
  }

  function Narrowed(to: Standing, g: seq<Node>): Standing { map id | id in Ids(g) && id in to :: to[id] }

  ghost predicate NeededIds(reg: Registry, g: seq<Node>, live: set<Id>) {
    forall id :: id in live <==> OrphanRemoval.Needed(reg, g, id)
  }

  lemma NeededMatches(reg: Registry, a: seq<Node>, b: seq<Node>, to: Standing, la: set<Id>, lb: set<Id>)
    requires Quotient(a, b, to) && NeededIds(reg, a, la) && NeededIds(reg, b, lb)
    ensures la <= to.Keys && Images(la, to) == lb
  {
    hide Quotient;
    forall x | x in la ensures x in to && to[x] in lb {
      var p :| OrphanRemoval.Trail(reg, a, p) && p[|p| - 1] == x;
      NeededAfter(reg, a, b, to, p, |p| - 1);
    }
    forall d | d in lb ensures d in Images(la, to) {
      var q :| OrphanRemoval.Trail(reg, b, q) && q[|q| - 1] == d;
      var x := NeededBefore(reg, a, b, to, q, |q| - 1);
    }
  }

  /** What is left of the merged list stands for what is left of the list itself. */
  lemma KeptMerges(reg: Registry, a: seq<Node>, b: seq<Node>, to: Standing, la: set<Id>, lb: set<Id>)
    requires Quotient(a, b, to) && NeededIds(reg, a, la) && NeededIds(reg, b, lb)
    ensures Quotient(OrphanRemoval.Keep(a, la), OrphanRemoval.Keep(b, lb), Narrowed(to, OrphanRemoval.Keep(a, la)))
  {
    hide OrphanRemoval.Keep, InputIds, OrphanRemoval.Needed, NeededIds, StandsFor, Distinct, Images, Ids, Narrowed;
    var ka, kb := OrphanRemoval.Keep(a, la), OrphanRemoval.Keep(b, lb);
    NeededMatches(reg, a, b, to, la, lb);
    OrphanRemoval.KeepDistinct(a, la);
    OrphanRemoval.KeepDistinct(b, lb);
    OrphanRemoval.KeepIds(a, la);
    OrphanRemoval.KeepIds(b, lb);
    KeptImages(a, b, to, la, lb, ka, kb);
    forall n, m | n in ka && m in kb && n.id in Narrowed(to, ka) && m.id == Narrowed(to, ka)[n.id]
      ensures StandsFor(n, m, Narrowed(to, ka))
    {
      NarrowedAt(to, ka, n.id);
      OrphanRemoval.KeepMembers(a, la, n);
      OrphanRemoval.KeepMembers(b, lb, m);
      NeededInputs(reg, a, la, n);
      NarrowedStands(n, m, to, ka);
    }
  }

  lemma KeptImages(a: seq<Node>, b: seq<Node>, to: Standing, la: set<Id>, lb: set<Id>, ka: seq<Node>, kb: seq<Node>)
    requires to.Keys == Ids(a) && Images(Ids(a), to) == Ids(b) && la <= to.Keys && Images(la, to) == lb
    requires Ids(ka) == Ids(a) * la && Ids(kb) == Ids(b) * lb
    ensures Narrowed(to, ka).Keys == Ids(ka) && Images(Ids(ka), Narrowed(to, ka)) == Ids(kb)
  {
    hide Ids;
    assert Ids(ka) == la && lb <= Ids(b);
    forall d | d in lb ensures d in Images(la, Narrowed(to, ka)) {
      var x :| x in la && x in to && to[x] == d;
      assert Narrowed(to, ka)[x] == d;
    }
  }

  lemma NeededInputs(reg: Registry, g: seq<Node>, live: set<Id>, n: Node)
    requires Distinct(g) && NeededIds(reg, g, live) && n in g && n.id in live
    ensures InputIds(n) <= live
  {
    hide InputIds, OrphanRemoval.Needed;
    forall d | d in InputIds(n) ensures d in live {
      MarksOf(g, n, d);
      OrphanRemoval.MarkedIsNeeded(reg, g, n.id, d);
    }
  }

  lemma NarrowedAt(to: Standing, k: seq<Node>, id: Id)
    requires id in Narrowed(to, k)
    ensures id in Ids(k) && id in to && Narrowed(to, k)[id] == to[id]
  {
  }

  lemma NarrowedStands(n: Node, m: Node, to: Standing, k: seq<Node>)
    requires StandsFor(n, m, to) && n.id in Ids(k) && InputIds(n) <= Ids(k)
    ensures StandsFor(n, m, Narrowed(to, k))
  {
    hide InputIds, Ids;
    forall d ensures d in Images(InputIds(n), Narrowed(to, k)) <==> d in Images(InputIds(n), to) {
      if d in Images(InputIds(n), to) {
        var x :| x in InputIds(n) && x in to && to[x] == d;
        assert Narrowed(to, k)[x] == d;
      }
    }
  }

  lemma PermutedMerges(a: seq<Node>, b: seq<Node>, c: seq<Node>, to: Standing)
    requires Quotient(a, b, to) && Distinct(c) && forall n :: n in b <==> n in c
    ensures Quotient(a, c, to)
  {
    hide StandsFor, Distinct;
    assert Ids(b) == Ids(c);
  }
}
