/**
 Constants are merged whatever their timeframes.  What inherits from the duplicate then inherits
 from the node that stands for it: a later timeframe, an earlier one, or none at all.
 */
module MergedConstants {
  import opened Wrappers
  import opened Graph
  import opened Registry
  import opened TimeframeResolver
  import opened MergedTimes
  import opened CompiledLists
  import CseOptimizer

  // ------------------------------------------------------- lineages through constants

  /** The nodes that are dated otherwise in r. */
  function Turned(a: seq<Node>, r: seq<Node>): set<Id> {
    set i | 0 <= i < |a| && i < |r| && r[i].timeframe != a[i].timeframe :: a[i].id
  }

  /** A lineage of this time past none of these nodes. */
  ghost predicate Clean(g: seq<Node>, turned: set<Id>, id: Id, t: string) {
    exists p :: Lineage(g, p, t) && p[0] == id && forall i :: 0 <= i < |p| ==> p[i] !in turned
  }

  /** A lineage of this time through one of them. */
  ghost predicate Crossing(g: seq<Node>, turned: set<Id>, id: Id, t: string) {
    exists p :: Lineage(g, p, t) && p[0] == id && exists i :: 0 <= i < |p| && p[i] in turned
  }

  lemma CleanOrCrossing(g: seq<Node>, turned: set<Id>, id: Id, t: string)
    ensures Inherits(g, id, t) <==> Clean(g, turned, id, t) || Crossing(g, turned, id, t)
  {
    if Inherits(g, id, t) {
      var p :| Lineage(g, p, t) && p[0] == id;
      if !Crossing(g, turned, id, t) { assert forall i :: 0 <= i < |p| ==> p[i] !in turned; }
    }
  }

  lemma SameDate(a: seq<Node>, r: seq<Node>, d: Id)
    requires Retimed(a, r) && Distinct(a) && Distinct(r) && d !in Turned(a, r)
    ensures Undated(a, d) <==> Undated(r, d)
    ensures forall t :: Dated(a, d, t) <==> Dated(r, d, t)
  {
    forall n | n in a && n.id == d ensures exists m :: m in r && m.id == d && m.timeframe == n.timeframe {
      var i :| 0 <= i < |a| && a[i] == n;
      assert r[i] in r && a[i].id == r[i].id;
      assert r[i].timeframe == a[i].timeframe;
    }
    forall m | m in r && m.id == d ensures exists n :: n in a && n.id == d && n.timeframe == m.timeframe {
      var i :| 0 <= i < |r| && r[i] == m;
      assert a[i] in a && a[i].id == r[i].id;
      assert r[i].timeframe == a[i].timeframe;
    }
    forall n | n in r && n.id == d ensures Undated(r, d) <==> n.timeframe.None? { DatedOrNot(r, n); }
    forall n | n in a && n.id == d ensures Undated(a, d) <==> n.timeframe.None? { DatedOrNot(a, n); }
  }

  lemma SameSteps(a: seq<Node>, r: seq<Node>)
    requires Retimed(a, r)
    ensures Ids(a) == Ids(r) && forall x, y :: DependsOn(a, x, y) ==> DependsOn(r, x, y)
  {
    hide InputIds, SchemaIds, OptionIds;
    RetimedIds(a, r);
    assert a[..|a|] == a && r[..|r|] == r;
    forall x, y | DependsOn(a, x, y) ensures DependsOn(r, x, y) {
      var n :| n in a && n.id == x && y in InputIds(n) && y in Ids(a);
      var i :| 0 <= i < |a| && a[i] == n;
      assert SameLinks(a[i], r[i]) && r[i] in r;
    }
  }

  lemma CleanCarries(a: seq<Node>, r: seq<Node>, id: Id, t: string)
    requires Retimed(a, r) && Distinct(a) && Distinct(r) && Clean(a, Turned(a, r), id, t)
    ensures Clean(r, Turned(a, r), id, t)
  {
    hide Turned, Distinct, DependsOn, Dated, Undated, Retimed;
    var turned := Turned(a, r);
    SameSteps(a, r);
    var p :| Lineage(a, p, t) && p[0] == id && forall i :: 0 <= i < |p| ==> p[i] !in turned;
    forall i | 0 <= i < |p|
      ensures Undated(a, p[i]) <==> Undated(r, p[i])
      ensures Dated(a, p[i], t) <==> Dated(r, p[i], t)
    {
      SameDate(a, r, p[i]);
    }
    assert Lineage(r, p, t);
  }

  lemma RetimedBack(a: seq<Node>, r: seq<Node>)
    requires Retimed(a, r)
    ensures Retimed(r, a) && Turned(r, a) == Turned(a, r)
  {
    forall i | 0 <= i < |a| ensures a[i].id == r[i].id { }
    forall d | d in Turned(a, r) ensures d in Turned(r, a) {
      var i :| 0 <= i < |a| && r[i].timeframe != a[i].timeframe && a[i].id == d;
    }
    forall d | d in Turned(r, a) ensures d in Turned(a, r) {
      var i :| 0 <= i < |a| && r[i].timeframe != a[i].timeframe && r[i].id == d;
      assert a[i].id == d;
    }
  }

  /** Lineages past no turned constant are the same before and after. */
  lemma CleanStays(a: seq<Node>, r: seq<Node>, id: Id, t: string)
    requires Retimed(a, r) && Distinct(a) && Distinct(r)
    ensures Clean(a, Turned(a, r), id, t) <==> Clean(r, Turned(a, r), id, t)
  {
    hide Clean, Turned, Distinct, Retimed;
    RetimedBack(a, r);
    if Clean(a, Turned(a, r), id, t) { CleanCarries(a, r, id, t); }
    if Clean(r, Turned(a, r), id, t) { CleanCarries(r, a, id, t); }
  }

  // ------------------------------------------------------------- timeframes that count

  ghost function InheritedBy(g: seq<Node>, id: Id): iset<string> { iset t | Inherits(g, id, t) }

  ghost predicate ReaderInherits(g: seq<Node>, id: Id, t: string) {
    exists m :: Reads(g, m, id) && Inherits(g, m.id, t)
  }

  ghost predicate AlikeInherits(r: seq<Node>, to: Standing, id: Id, t: string) {
    exists m :: ReadsAlike(r, to, m, id) && Inherits(r, m.id, t)
  }

  /** The timeframes from which node n of g takes the latest: its lineages', or its readers'. */
  ghost function Counted(reg: Registry, g: seq<Node>, n: Node): iset<string> {
    if HasTime(g, n.id) || IsScalar(reg, n.kind) then InheritedBy(g, n.id)
    else iset t | ReaderInherits(g, n.id, t)
  }

  /** The same once nodes are merged: readers are those of every node that n is merged with. */
  ghost function CountedMerged(reg: Registry, r: seq<Node>, to: Standing, n: Node): iset<string> {
    if HasTime(r, n.id) || IsScalar(reg, n.kind) then InheritedBy(r, n.id)
    else iset t | AlikeInherits(r, to, n.id, t)
  }

  /** Some timeframe of s is later than all of u. */
  ghost predicate Beats(rank: Rank, s: iset<string>, u: iset<string>) {
    exists t :: t in s && forall x :: x in u ==> rank(x) < rank(t)
  }

  predicate Earlier(rank: Rank, x: Option<string>, y: Option<string>) {
    y.Some? && (x.Some? ==> rank(x.value) < rank(y.value))
  }

  ghost predicate IsLatestOf(rank: Rank, s: iset<string>, x: Option<string>) {
    && (x.None? <==> s == iset{})
    && (x.Some? ==> x.value in s && forall t :: t in s ==> rank(t) <= rank(x.value))
  }

  lemma SettledIsLatest(reg: Registry, g: seq<Node>, rank: Rank, own: Times, n: Node, x: Option<string>)
    requires Owned(g, rank, own) && n in g && Settled(reg, g, rank, own, n, x)
    ensures IsLatestOf(rank, Counted(reg, g, n), x)
  {
    hide Inherits, InputIds;
    assert n.id in Ids(g) && Latest(g, rank, n.id, own[n.id]);
    forall m | Reads(g, m, n.id) ensures m.id in own && Latest(g, rank, m.id, own[m.id]) {
      ReaderIsNode(g, m, n.id);
    }
    if own[n.id].None? && !IsScalar(reg, n.kind) {
      assert !HasTime(g, n.id);
      ReadersCount(reg, g, rank, own, n, x);
    } else {
      assert forall t :: t in Counted(reg, g, n) <==> Inherits(g, n.id, t);
    }
  }

  lemma ReadersCount(reg: Registry, g: seq<Node>, rank: Rank, own: Times, n: Node, x: Option<string>)
    requires own.Keys == Ids(g) && !HasTime(g, n.id) && !IsScalar(reg, n.kind) && FromReaders(g, rank, own, n.id, x)
    requires forall m :: Reads(g, m, n.id) ==> m.id in own && Latest(g, rank, m.id, own[m.id])
    ensures IsLatestOf(rank, Counted(reg, g, n), x)
  {
    hide Inherits, Reads;
    forall t | t in Counted(reg, g, n) ensures x.Some? && rank(t) <= rank(x.value) {
      var m :| Reads(g, m, n.id) && Inherits(g, m.id, t);
      assert Latest(g, rank, m.id, own[m.id]);
    }
    if x.Some? {
      var m :| Reads(g, m, n.id) && own[m.id] == x;
      assert Inherits(g, m.id, x.value) && x.value in Counted(reg, g, n);
    }
  }

  /** Which of two latest timeframes is earlier shows in what they are the latest of. */
  lemma LatestCompare(rank: Rank, s: iset<string>, u: iset<string>, x: Option<string>, y: Option<string>)
    requires IsLatestOf(rank, s, x) && IsLatestOf(rank, u, y)
    ensures Earlier(rank, y, x) <==> Beats(rank, s, u)
  {
    if Beats(rank, s, u) { var t :| t in s && forall x :: x in u ==> rank(x) < rank(t); }
  }

  /** What counts in the merged list counts before, seen from the nodes that are merged. */
  lemma MergedCounts(reg: Registry, r: seq<Node>, b: seq<Node>, to: Standing, v: Valuation, n: Node, m: Node)
    requires Quotient(r, b, to) && Descends(r, v) && n in r && m in b && n.id in to && m.id == to[n.id]
    ensures Counted(reg, b, m) == CountedMerged(reg, r, to, n)
    ensures HasTime(b, m.id) <==> HasTime(r, n.id)
  {
    hide Inherits, Distinct, InputIds, Quotient, Reads, ReadsAlike, Descends;
    QuotientKeys(r, b, to, v, n, m);
    forall t ensures Inherits(b, m.id, t) <==> Inherits(r, n.id, t) { InheritsAlike(r, b, to, v, n, m, t); }
    forall k, t | ReadsAlike(r, to, k, n.id) && Inherits(r, k.id, t)
      ensures exists l :: Reads(b, l, m.id) && Inherits(b, l.id, t)
    {
      AlikeIsNode(r, to, k, n.id);
      var l := Representative(r, b, to, k);
      ReadersAlike(r, b, to, n.id, k, l);
      QuotientKeys(r, b, to, v, k, l);
      InheritsAlike(r, b, to, v, k, l, t);
    }
    forall l, t | Reads(b, l, m.id) && Inherits(b, l.id, t)
      ensures exists k :: ReadsAlike(r, to, k, n.id) && Inherits(r, k.id, t)
    {
      ReaderIsNode(b, l, m.id);
      var k := Represented(r, b, to, l);
      ReadersAlike(r, b, to, n.id, k, l);
      QuotientKeys(r, b, to, v, k, l);
      InheritsAlike(r, b, to, v, k, l, t);
    }
  }

  /**
   The timeframe a node is left with gets earlier, or is lost, exactly when one that counted before
   is later than all that count afterwards; it gets later exactly when it is the other way round.
   */
  lemma MergingRetimesExactly(reg: Registry, a: seq<Node>, r: seq<Node>, b: seq<Node>, to: Standing, v: Valuation,
                              rank: Rank, own: Times, ownB: Times, n: Node, n': Node, m: Node, x: Option<string>,
                              y: Option<string>)
    requires Quotient(r, b, to) && Descends(r, v) && Owned(a, rank, own) && Owned(b, rank, ownB)
    requires n in a && n' in r && n' == n.(timeframe := n'.timeframe) && m in b && n.id in to && m.id == to[n.id]
    requires Settled(reg, a, rank, own, n, x) && Settled(reg, b, rank, ownB, m, y)
    ensures Earlier(rank, y, x) <==> Beats(rank, Counted(reg, a, n), CountedMerged(reg, r, to, n))
    ensures Earlier(rank, x, y) <==> Beats(rank, CountedMerged(reg, r, to, n), Counted(reg, a, n))
    ensures SameTime(rank, x, y) <==> !Earlier(rank, y, x) && !Earlier(rank, x, y)
  {
    hide Quotient, Owned, Settled, Beats, Counted, CountedMerged, IsLatestOf, Descends;
    SettledIsLatest(reg, a, rank, own, n, x);
    SettledIsLatest(reg, b, rank, ownB, m, y);
    MergedCounts(reg, r, b, to, v, n', m);
    SameCounted(reg, r, to, n, n');
    LatestCompare(rank, Counted(reg, a, n), CountedMerged(reg, r, to, n), x, y);
    LatestCompare(rank, CountedMerged(reg, r, to, n), Counted(reg, a, n), y, x);
  }

  lemma SameCounted(reg: Registry, r: seq<Node>, to: Standing, n: Node, m: Node)
    requires n.id == m.id && n.kind == m.kind
    ensures CountedMerged(reg, r, to, n) == CountedMerged(reg, r, to, m)
  {
  }

  // --------------------------------------------------- away from constants that are turned

  /** Neither n nor a reader of it, or of a node merged with it, has a lineage through a turned constant. */
  ghost predicate Steady(a: seq<Node>, r: seq<Node>, to: Standing, n: Node) {
    && Unturned(a, r, n.id)
    && forall k :: ReadsAlike(r, to, k, n.id) ==> Unturned(a, r, k.id)
  }

  ghost predicate Unturned(a: seq<Node>, r: seq<Node>, id: Id) {
    forall t :: !Crossing(a, Turned(a, r), id, t) && !Crossing(r, Turned(a, r), id, t)
  }

  lemma UnturnedSame(a: seq<Node>, r: seq<Node>, id: Id)
    requires Retimed(a, r) && Distinct(a) && Distinct(r) && Unturned(a, r, id)
    ensures forall t :: Inherits(a, id, t) <==> Inherits(r, id, t)
  {
    hide Clean, Crossing, Inherits, Retimed, Distinct;
    forall t ensures Inherits(a, id, t) <==> Inherits(r, id, t) {
      CleanOrCrossing(a, Turned(a, r), id, t);
      CleanOrCrossing(r, Turned(a, r), id, t);
      CleanStays(a, r, id, t);
    }
  }

  lemma SameAlike(a: seq<Node>, r: seq<Node>, to: Standing, k: Node, id: Id) returns (l: Node)
    requires Retimed(a, r) && ReadsAlike(a, to, k, id)
    ensures ReadsAlike(r, to, l, id) && l.id == k.id
  {
    hide InputIds, Images;
    var i :| 0 <= i < |a| && a[i] == k;
    l := r[i];
    SameInputIds(k, l);
  }

  /** There, merging only adds readers: the timeframe never gets earlier, and later exactly by gaining one. */
  lemma SteadyOnlyGains(reg: Registry, a: seq<Node>, r: seq<Node>, b: seq<Node>, to: Standing, rank: Rank, own: Times,
                        n: Node)
    requires Quotient(r, b, to) && Retimed(a, r) && Distinct(a) && Owned(a, rank, own) && n in a && n.id in to
    requires Steady(a, r, to, n)
    ensures !Beats(rank, Counted(reg, a, n), CountedMerged(reg, r, to, n))
    ensures own.Keys == Ids(a)
    ensures Beats(rank, CountedMerged(reg, r, to, n), Counted(reg, a, n)) <==> Gains(reg, a, to, rank, own, n)
  {
    hide Inherits, Reads, ReadsAlike, Unturned, Distinct, Retimed, Quotient;
    QuotientDistinct(r, b, to);
    UnturnedSame(a, r, n.id);
    assert HasTime(a, n.id) <==> HasTime(r, n.id);
    forall t | ReaderInherits(a, n.id, t) ensures AlikeInherits(r, to, n.id, t) {
      var m :| Reads(a, m, n.id) && Inherits(a, m.id, t);
      ReadsOften(a, r, b, to, m, n.id);
      var l := SameAlike(a, r, to, m, n.id);
      UnturnedSame(a, r, l.id);
    }
    OwnIsTimed(a, rank, own);
    OwnedKeys(a, rank, own);
    NeverBeatsMore(rank, Counted(reg, a, n), CountedMerged(reg, r, to, n));
    if !HasTime(a, n.id) && !IsScalar(reg, n.kind) { GainsCounted(reg, a, r, to, rank, own, n); }
  }

  lemma NeverBeatsMore(rank: Rank, s: iset<string>, u: iset<string>)
    requires s <= u
    ensures !Beats(rank, s, u)
  {
  }

  lemma QuotientDistinct(a: seq<Node>, b: seq<Node>, to: Standing)
    requires Quotient(a, b, to)
    ensures Distinct(a)
  {
  }

  /** A reader is among the readers alike. */
  lemma ReadsOften(a: seq<Node>, r: seq<Node>, b: seq<Node>, to: Standing, k: Node, id: Id)
    requires Quotient(r, b, to) && Retimed(a, r) && Reads(a, k, id) && id in to
    ensures ReadsAlike(a, to, k, id)
  {
  }

  lemma GainsCounted(reg: Registry, a: seq<Node>, r: seq<Node>, to: Standing, rank: Rank, own: Times, n: Node)
    requires Retimed(a, r) && Distinct(a) && Distinct(r) && Owned(a, rank, own) && own.Keys == Ids(a) && n in a
    requires !HasTime(a, n.id) && !HasTime(r, n.id) && !IsScalar(reg, n.kind) && own[n.id].None?
    requires forall k :: ReadsAlike(r, to, k, n.id) ==> Unturned(a, r, k.id)
    ensures Beats(rank, CountedMerged(reg, r, to, n), Counted(reg, a, n)) <==> Gains(reg, a, to, rank, own, n)
  {
    hide Inherits, Reads, ReadsAlike, Unturned, Distinct, Retimed;
    forall k | Reads(a, k, n.id) ensures k.id in own && Latest(a, rank, k.id, own[k.id]) { ReaderIsNode(a, k, n.id); }
    forall k | ReadsAlike(a, to, k, n.id)
      ensures k.id in own && Latest(a, rank, k.id, own[k.id])
      ensures forall t :: Inherits(a, k.id, t) ==> AlikeInherits(r, to, n.id, t)
    {
      AlikeIsNode(a, to, k, n.id);
      var l := SameAlike(a, r, to, k, n.id);
      UnturnedSame(a, r, l.id);
    }
    var before, after := Counted(reg, a, n), CountedMerged(reg, r, to, n);
    if Beats(rank, after, before) {
      var t :| t in after && forall x :: x in before ==> rank(x) < rank(t);
      var l :| ReadsAlike(r, to, l, n.id) && Inherits(r, l.id, t);
      RetimedBack(a, r);
      var k := SameAlike(r, a, to, l, n.id);
      UnturnedSame(a, r, l.id);
      assert own[k.id].Some? && rank(t) <= rank(own[k.id].value);
      forall m | Reads(a, m, n.id) && own[m.id].Some? ensures rank(own[m.id].value) < rank(own[k.id].value) {
        assert ReaderInherits(a, n.id, own[m.id].value) && own[m.id].value in before;
      }
      assert LaterThanReaders(a, rank, own, n.id, own[k.id].value);
    }
    if Gains(reg, a, to, rank, own, n) {
      var k :| ReadsAlike(a, to, k, n.id) && own[k.id].Some? && LaterThanReaders(a, rank, own, n.id, own[k.id].value);
      var t := own[k.id].value;
      assert t in after;
      forall x | x in before ensures rank(x) < rank(t) {
        var m :| Reads(a, m, n.id) && Inherits(a, m.id, x);
        assert own[m.id].Some? && rank(x) <= rank(own[m.id].value);
      }
    }
  }

  ghost predicate LaterThanAll(g: seq<Node>, rank: Rank, id: Id, t: string) {
    forall u :: Inherits(g, id, u) ==> rank(u) < rank(t)
  }

  /**
   What a node inherits gets earlier, or is lost, exactly when a timeframe from beyond a turned
   constant was later than all it inherits now; with a and r swapped, when it gets later.
   */
  lemma OwnTimeTurns(a: seq<Node>, r: seq<Node>, rank: Rank, id: Id)
    requires Retimed(a, r) && Distinct(a) && Distinct(r)
    ensures Beats(rank, InheritedBy(a, id), InheritedBy(r, id)) <==>
            exists t :: Crossing(a, Turned(a, r), id, t) && LaterThanAll(r, rank, id, t)
  {
    hide Clean, Crossing, Inherits, Retimed, Distinct;
    var s, u := InheritedBy(a, id), InheritedBy(r, id);
    if Beats(rank, s, u) {
      var t :| t in s && forall x :: x in u ==> rank(x) < rank(t);
      CleanOrCrossing(a, Turned(a, r), id, t);
      CleanOrCrossing(r, Turned(a, r), id, t);
      CleanStays(a, r, id, t);
      assert t !in u && Crossing(a, Turned(a, r), id, t);
      forall x | Inherits(r, id, x) ensures rank(x) < rank(t) { assert x in u; }
    }
    if t :| Crossing(a, Turned(a, r), id, t) && LaterThanAll(r, rank, id, t) {
      CleanOrCrossing(a, Turned(a, r), id, t);
      assert t in s;
    }
  }

  // ----------------------------------------------------------------- lists that are refused

  /** What is left of n and of all readers it has afterwards leads to no timeframe. */
  ghost predicate Stranded(reg: Registry, a: seq<Node>, r: seq<Node>, to: Standing, skip: bool, n: Node) {
    && NothingLeft(a, r, n.id)
    && (n.kind in reg.components ==>
          !skip && !IsScalar(reg, n.kind) && forall k :: ReadsAlike(r, to, k, n.id) ==> NothingLeft(a, r, k.id))
  }

  /** Every lineage was through a turned constant, and none leads on from there. */
  ghost predicate NothingLeft(a: seq<Node>, r: seq<Node>, id: Id) {
    forall t :: !Clean(a, Turned(a, r), id, t) && !Crossing(r, Turned(a, r), id, t)
  }

  lemma NothingLeftExactly(a: seq<Node>, r: seq<Node>, id: Id)
    requires Retimed(a, r) && Distinct(a) && Distinct(r)
    ensures NothingLeft(a, r, id) <==> !HasTime(r, id)
  {
    hide Clean, Crossing, Inherits, Retimed, Distinct;
    forall t ensures Inherits(r, id, t) <==> Clean(a, Turned(a, r), id, t) || Crossing(r, Turned(a, r), id, t) {
      CleanOrCrossing(r, Turned(a, r), id, t);
      CleanStays(a, r, id, t);
    }
  }

  lemma StrandedExactly(reg: Registry, a: seq<Node>, r: seq<Node>, to: Standing, skip: bool, n: Node)
    requires Retimed(a, r) && Distinct(a) && Distinct(r)
    ensures Stranded(reg, a, r, to, skip, n) <==>
            !HasTime(r, n.id) && (n.kind in reg.components ==>
                                    !skip && !IsScalar(reg, n.kind) && CountedMerged(reg, r, to, n) == iset{})
  {
    hide NothingLeft, HasTime, Retimed, Distinct, ReadsAlike, Inherits;
    NothingLeftExactly(a, r, n.id);
    forall k
      ensures NothingLeft(a, r, k) <==> forall t :: !Inherits(r, k, t)
    {
      NothingLeftExactly(a, r, k);
      HasTimeMeans(r, k);
    }
    if !HasTime(r, n.id) && !IsScalar(reg, n.kind) {
      if CountedMerged(reg, r, to, n) == iset{} {
        forall k, t | ReadsAlike(r, to, k, n.id) ensures !Inherits(r, k.id, t) {
          assert !AlikeInherits(r, to, n.id, t) by { assert t !in CountedMerged(reg, r, to, n); }
        }
      }
    }
  }

  lemma HasTimeMeans(g: seq<Node>, id: Id)
    ensures HasTime(g, id) <==> exists t :: Inherits(g, id, t)
  {
  }

  lemma TimedIsCounted(reg: Registry, g: seq<Node>, n: Node)
    requires !IsScalar(reg, n.kind)
    ensures Timed(g, n.id) <==> Counted(reg, g, n) != iset{}
  {
    hide Inherits, Reads;
    if t :| t in Counted(reg, g, n) { }
    if Timed(g, n.id) && !HasTime(g, n.id) {
      var m :| Reads(g, m, n.id) && HasTime(g, m.id);
      var t :| Inherits(g, m.id, t);
      assert ReaderInherits(g, n.id, t) && t in Counted(reg, g, n);
    }
    if HasTime(g, n.id) { var t :| Inherits(g, n.id, t); assert t in Counted(reg, g, n); }
  }

  /** One node's part in the answer. */
  ghost predicate Passes(reg: Registry, g: seq<Node>, skip: bool, n: Node) {
    && (!HasTime(g, n.id) ==> n.kind in reg.components)
    && (!skip ==> n.kind in reg.components && (IsScalar(reg, n.kind) || Timed(g, n.id)))
  }

  lemma ResolvableMeans(reg: Registry, g: seq<Node>, skip: bool)
    ensures Resolvable(reg, g, skip) <==> forall n :: n in g ==> Passes(reg, g, skip, n)
  {
    hide HasTime, Timed;
  }

  lemma PassesMerged(reg: Registry, a: seq<Node>, r: seq<Node>, b: seq<Node>, to: Standing, v: Valuation, skip: bool,
                     n: Node, m: Node)
    requires Quotient(r, b, to) && Descends(r, v) && Retimed(a, r) && Distinct(a)
    requires n in r && m in b && n.id in to && m.id == to[n.id] && (!skip ==> n.kind in reg.components)
    ensures Passes(reg, b, skip, m) <==> !Stranded(reg, a, r, to, skip, n)
  {
    hide Quotient, Descends, Retimed, Distinct, HasTime, Timed, Stranded, CountedMerged, Counted;
    QuotientDistinct(r, b, to);
    QuotientKeys(r, b, to, v, n, m);
    MergedCounts(reg, r, b, to, v, n, m);
    StrandedExactly(reg, a, r, to, skip, n);
    if !IsScalar(reg, m.kind) { TimedIsCounted(reg, b, m); }
    if HasTime(r, n.id) { TimedCounts(reg, b, m); }
  }

  lemma TimedCounts(reg: Registry, g: seq<Node>, n: Node)
    requires HasTime(g, n.id)
    ensures Timed(g, n.id)
  {
  }

  /**
   A list that resolves without merging is refused with it exactly when merging strands a node; no
   node is stranded unless some constant is turned.
   */
  lemma RefusedExactly(reg: Registry, a: seq<Node>, r: seq<Node>, b: seq<Node>, to: Standing, v: Valuation, skip: bool)
    requires Quotient(r, b, to) && Descends(r, v) && Retimed(a, r) && Distinct(a) && Resolvable(reg, a, skip)
    ensures !Resolvable(reg, b, skip) <==> exists n :: n in a && Stranded(reg, a, r, to, skip, n)
    ensures !Resolvable(reg, b, skip) ==> Turned(a, r) != {}
  {
    hide Quotient, Descends, Retimed, Distinct, Resolvable, Passes, Stranded, HasTime;
    ResolvableMeans(reg, a, skip);
    ResolvableMeans(reg, b, skip);
    forall n | n in a
      ensures exists m :: m in b && (Passes(reg, b, skip, m) <==> !Stranded(reg, a, r, to, skip, n))
      ensures Turned(a, r) == {} ==> !Stranded(reg, a, r, to, skip, n)
    {
      var k := Counterpart(a, r, n);
      var m := Representative(r, b, to, k);
      KnownKind(reg, a, skip, n);
      PassesMerged(reg, a, r, b, to, v, skip, k, m);
      SameStranded(reg, a, r, to, skip, n, k);
      if Turned(a, r) == {} { NotStranded(reg, a, r, b, to, skip, n); }
    }
    forall m | m in b ensures exists n :: n in a && (Passes(reg, b, skip, m) <==> !Stranded(reg, a, r, to, skip, n)) {
      var k := Represented(r, b, to, m);
      RetimedBack(a, r);
      var n := Counterpart(r, a, k);
      KnownKind(reg, a, skip, n);
      PassesMerged(reg, a, r, b, to, v, skip, k, m);
      SameStranded(reg, a, r, to, skip, n, k);
    }
  }

  lemma Counterpart(a: seq<Node>, r: seq<Node>, n: Node) returns (m: Node)
    requires Retimed(a, r) && n in a
    ensures m in r && m == n.(timeframe := m.timeframe)
  {
    var i :| 0 <= i < |a| && a[i] == n;
    m := r[i];
  }

  lemma KnownKind(reg: Registry, g: seq<Node>, skip: bool, n: Node)
    requires Passes(reg, g, skip, n)
    ensures !skip ==> n.kind in reg.components
  {
  }

  lemma SameStranded(reg: Registry, a: seq<Node>, r: seq<Node>, to: Standing, skip: bool, n: Node, m: Node)
    requires n.id == m.id && n.kind == m.kind
    ensures Stranded(reg, a, r, to, skip, n) <==> Stranded(reg, a, r, to, skip, m)
  {
  }

  lemma NotStranded(reg: Registry, a: seq<Node>, r: seq<Node>, b: seq<Node>, to: Standing, skip: bool, n: Node)
    requires Quotient(r, b, to) && Retimed(a, r) && Distinct(a) && Turned(a, r) == {} && n in a
    requires Passes(reg, a, skip, n)
    ensures !Stranded(reg, a, r, to, skip, n)
  {
    hide Retimed, Distinct, Inherits, Turned, NothingLeft;
    NothingTurned(a, r);
    QuotientDistinct(r, b, to);
    forall id ensures NothingLeft(a, r, id) <==> !HasTime(a, id) { NothingLeftExactly(a, r, id); }
    if !HasTime(a, n.id) && !skip && !IsScalar(reg, n.kind) {
      var m :| Reads(a, m, n.id) && HasTime(a, m.id);
      QuotientHas(r, b, to, n);
      ReadsOften(a, r, b, to, m, n.id);
    }
  }

  lemma QuotientHas(a: seq<Node>, b: seq<Node>, to: Standing, n: Node)
    requires Quotient(a, b, to) && n in a
    ensures n.id in to
  {
    assert n.id in Ids(a);
  }

  lemma NothingTurned(a: seq<Node>, r: seq<Node>)
    requires Retimed(a, r) && Turned(a, r) == {}
    ensures r == a
  {
    forall i | 0 <= i < |a| ensures r[i] == a[i] { assert a[i].id !in Turned(a, r); }
  }

  // ----------------------------------------------------------------- what elimination turns

  /** Elimination turns just the constants that are merged with one of another timeframe. */
  lemma TurnedExactly(h: CseOptimizer.Hashing, g: seq<Node>, rd: CseOptimizer.Redirect, k: seq<Node>, n: Node)
    requires CseOptimizer.Assumptions(h, g, rd) && Distinct(k) && n in k && n in g
    ensures n.id in Turned(k, Redated(g, rd, k)) <==>
            n.id in rd && exists c :: c in g && c.id == rd[n.id] && c.timeframe != n.timeframe
    ensures n.id in Turned(k, Redated(g, rd, k)) ==> n.kind in SCALAR_KINDS
  {
    hide CseOptimizer.Redirects, Redate, CseOptimizer.SessionsTold;
    var r := Redated(g, rd, k);
    assert n.id in Turned(k, r) <==> Redate(g, rd, n).timeframe != n.timeframe by {
      var i :| 0 <= i < |k| && k[i] == n;
      assert r[i] == Redate(g, rd, n);
    }
    var c := CanonicalOf(h, g, rd, n);
    if n.id in rd {
      RedatedExactly(h, g, rd, n, c);
      forall d | d in g && d.id == rd[n.id] ensures d == c { SameNode(g, d, c); }
    }
  }
}
