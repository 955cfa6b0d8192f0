/** Graphs whose timeframes elimination changes: to a later one, to an earlier one, or to none. */
module MergedExamples {
  import opened Wrappers
  import opened Graph
  import opened Registry
  import opened TimeframeResolver
  import opened MergedTimes
  import opened MergedConstants
  import opened CompiledLists
  import CseOptimizer

  // ---------------------------------------------------------------- small graphs

  function Leaf(kind: string, id: Id, t: Option<string>): Node { Node(kind, id, map[], map[], t, None) }

  function Over(kind: string, id: Id, from: Id, t: Option<string>): Node {
    Node(kind, id, map[], map["SLOT" := [JoinId(from, "result")]], t, None)
  }

  lemma LeafReads(kind: string, id: Id, t: Option<string>)
    ensures InputIds(Leaf(kind, id, t)) == {} && InputRefs(Leaf(kind, id, t)) == {}
  {
    assert InputRefs(Leaf(kind, id, t)) == {};
  }

  lemma OverReads(kind: string, id: Id, from: Id, t: Option<string>)
    requires Word(from)
    ensures InputIds(Over(kind, id, from, t)) == {from}
    ensures forall r :: r in InputRefs(Over(kind, id, from, t)) ==> HasHash(r)
  {
    WordIsPlain(from);
    SplitJoined(from, "result");
    var n, r := Over(kind, id, from, t), JoinId(from, "result");
    assert n.inputs["SLOT"] == [r] && r in n.inputs["SLOT"];
    forall s ensures s in InputRefs(n) <==> s == r { }
    assert InputRefs(n) == {r};
  }

  /** References are complete and present, so that elimination merges the graph. */
  ghost predicate Mergeable(h: CseOptimizer.Hashing, g: seq<Node>, rd: CseOptimizer.Redirect) {
    && CseOptimizer.Assumptions(h, g, rd) && CseOptimizer.BareRefsKept(g, rd)
    && forall n :: n in g ==> InputIds(n) <= Ids(g)
  }

  /** What becomes of a node that stays. */
  lemma SurvivorOf(h: CseOptimizer.Hashing, g: seq<Node>, rd: CseOptimizer.Redirect, n: Node) returns (m: Node)
    requires Mergeable(h, g, rd) && n in g && n.id !in rd
    ensures m in CseOptimizer.Survivors(g, rd) && m.id == n.id && m.kind == n.kind && m.timeframe == n.timeframe
    ensures InputIds(m) == Images(InputIds(n), Stands(rd, g)) && Distinct(CseOptimizer.Survivors(g, rd))
    ensures Ids(CseOptimizer.Survivors(g, rd)) == Ids(g) - rd.Keys
  {
    hide CseOptimizer.Survivors, CseOptimizer.Redirects, InputIds, CseOptimizer.BareRefsKept, Redate;
    EliminationMerges(h, g, rd);
    CseOptimizer.SurvivorIds(g, rd);
    var i :| 0 <= i < |g| && g[i] == n;
    var r := Redated(g, rd, g);
    assert Redate(g, rd, n) == n by { NotRedated(g, rd, n); }
    assert r[i] == n;
    m := Representative(r, CseOptimizer.Survivors(g, rd), Stands(rd, g), n);
    assert StandsFor(n, m, Stands(rd, g));
    assert n.id in Ids(g) && Stands(rd, g)[n.id] == n.id;
  }

  lemma NotRedated(g: seq<Node>, rd: CseOptimizer.Redirect, n: Node)
    requires n.id !in rd
    ensures Redate(g, rd, n) == n
  {
  }

  lemma OwnGiven(g: seq<Node>, rank: Rank, own: Times, n: Node, t: string)
    requires Distinct(g) && Owned(g, rank, own) && n in g && n.timeframe == Some(t)
    ensures n.id in own && own[n.id] == Some(t)
  {
    assert n.id in Ids(g);
    forall u ensures Inherits(g, n.id, u) <==> u == t { OwnTime(g, n, u); }
    assert Latest(g, rank, n.id, own[n.id]) && Inherits(g, n.id, t);
  }

  lemma OwnNone(g: seq<Node>, rank: Rank, own: Times, n: Node)
    requires Distinct(g) && Owned(g, rank, own) && n in g && n.timeframe == None && InputIds(n) == {}
    ensures n.id in own && own[n.id] == None
  {
    assert n.id in Ids(g);
    forall u ensures !Inherits(g, n.id, u) { InputTimes(g, n, u); }
    assert Latest(g, rank, n.id, own[n.id]);
  }

  // ------------------------------------------------------------ where a time is handed over

  function Clock(id: Id): Node { Leaf("clock", id, None) }

  function Line(id: Id, from: Id, t: string): Node { Over("line", id, from, Some(t)) }

  /** a = clock(); b = clock(); and a line over each, one daily, one hourly. */
  ghost predicate Clocks(h: CseOptimizer.Hashing, g: seq<Node>, rd: CseOptimizer.Redirect, a: Id, b: Id, x: Id, y: Id) {
    && g == [Clock(a), Clock(b), Line(x, a, "1D"), Line(y, b, "1H")] && Distinct(g) && PlainIds(g)
    && CseOptimizer.Redirects(h, g, rd)
  }

  lemma ClocksExist(h: CseOptimizer.Hashing) returns (g: seq<Node>, rd: CseOptimizer.Redirect)
    ensures Clocks(h, g, rd, "clock_0", "clock_1", "line_0", "line_1")
  {
    g := [Clock("clock_0"), Clock("clock_1"), Line("line_0", "clock_0", "1D"), Line("line_1", "clock_1", "1H")];
    assert "clock_0"[6] != "clock_1"[6] && "line_0"[5] != "line_1"[5] && "clock_0"[0] != "line_0"[0];
    assert "clock_1"[0] != "line_0"[0] && "clock_0"[0] != "line_1"[0] && "clock_1"[0] != "line_1"[0];
    assert Word("clock_0") && Word("clock_1") && Word("line_0") && Word("line_1");
    rd := CseOptimizer.Redirected(h, g, |g|);
    CseOptimizer.RedirectedIsRedirects(h, g);
  }

  lemma ClockLinks(h: CseOptimizer.Hashing, g: seq<Node>, rd: CseOptimizer.Redirect, a: Id, b: Id, x: Id, y: Id)
    requires Clocks(h, g, rd, a, b, x, y)
    ensures InputIds(g[0]) == {} == InputIds(g[1]) && InputIds(g[2]) == {a} && InputIds(g[3]) == {b}
    ensures a != b && b != x && b != y && Ids(g) == {a, b, x, y} && Mergeable(h, g, rd)
  {
    hide CseOptimizer.Redirects, InputIds, InputRefs, Word;
    assert g[0] in g && g[1] in g && g[0].id != g[1].id && g[1].id != g[2].id && g[1].id != g[3].id;
    OverReads("line", x, a, Some("1D"));
    OverReads("line", y, b, Some("1H"));
    LeafReads("clock", a, None);
    LeafReads("clock", b, None);
    assert Ids(g) == {a, b, x, y} by { assert g[2] in g && g[3] in g; }
  }

  lemma ClockMerges(h: CseOptimizer.Hashing, g: seq<Node>, rd: CseOptimizer.Redirect, a: Id, b: Id, x: Id, y: Id)
    requires Clocks(h, g, rd, a, b, x, y)
    ensures rd == map[b := a]
  {
    hide CseOptimizer.Redirects, CseOptimizer.SemanticHash, PlainIds;
    CseOptimizer.EqualNodesHashEqually(h, g[1], g[0]);
    CseOptimizer.RedirectedIffDuplicate(h, g, rd, 0);
    CseOptimizer.RedirectedIffDuplicate(h, g, rd, 1);
    CseOptimizer.RedirectedIffDuplicate(h, g, rd, 2);
    CseOptimizer.RedirectedIffDuplicate(h, g, rd, 3);
    CseOptimizer.RedirectIsOneStep(h, g, rd);
    assert CseOptimizer.FirstAlike(h, g, 1) == 0;
    assert !CseOptimizer.SemanticEquals(h, g[2], g[0]) && !CseOptimizer.SemanticEquals(h, g[2], g[1]);
    assert g[3].timeframe != g[2].timeframe;
    forall id | id in rd ensures id == b {
      var i := NodeWithId(g, id);
      assert i == 1;
    }
  }

  lemma SameClocks(h: CseOptimizer.Hashing, g: seq<Node>, rd: CseOptimizer.Redirect, a: Id, b: Id, x: Id, y: Id)
    requires Clocks(h, g, rd, a, b, x, y) && rd == map[b := a]
    ensures Redated(g, rd, g) == g
  {
    hide CseOptimizer.Redirects, PlainIds;
    assert g[0] in g;
    FirstIsIt(g, g[0]);
    forall i | 0 <= i < 4 ensures Redate(g, rd, g[i]) == g[i] { }
    assert Redated(g, rd, g) == [g[0], g[1], g[2], g[3]];
  }

  lemma ClockWasHourly(reg: Registry, h: CseOptimizer.Hashing, g: seq<Node>, rd: CseOptimizer.Redirect, a: Id, b: Id,
                       x: Id, y: Id, rank: Rank, own: Times)
    requires Clocks(h, g, rd, a, b, x, y) && rd == map[b := a] && Owned(g, rank, own)
    requires !IsScalar(reg, "clock") && rank("1H") < rank("1D")
    ensures own.Keys == Ids(g) && Redated(g, rd, g) == g && g[1] in g && Settled(reg, g, rank, own, g[1], Some("1H"))
    ensures Gains(reg, g, Stands(rd, g), rank, own, g[1])
  {
    hide InputIds, CseOptimizer.Redirects, Inherits, Owned, PlainIds, Distinct, Mergeable, Redated;
    ClockLinks(h, g, rd, a, b, x, y);
    OwnedKeys(g, rank, own);
    assert g[0] in g && g[1] in g && g[2] in g && g[3] in g;
    OwnGiven(g, rank, own, g[2], "1D");
    OwnGiven(g, rank, own, g[3], "1H");
    OwnNone(g, rank, own, g[1]);
    forall k | Reads(g, k, b) ensures k == g[3] { }
    assert Reads(g, g[3], b);
    SameClocks(h, g, rd, a, b, x, y);
    assert Stands(rd, g)[b] == a && Stands(rd, g)[a] == a;
    assert ReadsAlike(g, Stands(rd, g), g[2], b);
  }

  /** Without elimination the second clock is hourly; the node it is merged into is daily. */
  lemma ClockIsHandedOver(reg: Registry, h: CseOptimizer.Hashing, g: seq<Node>, rd: CseOptimizer.Redirect, a: Id, b: Id,
                          x: Id, y: Id, rank: Rank, own: Times, ownS: Times)
    requires Clocks(h, g, rd, a, b, x, y) && Owned(g, rank, own) && Owned(CseOptimizer.Survivors(g, rd), rank, ownS)
    requires !IsScalar(reg, "clock") && rank("1H") < rank("1D")
    ensures rd == map[b := a] && Redated(g, rd, g) == g && Settled(reg, g, rank, own, g[1], Some("1H"))
    ensures Gains(reg, g, Stands(rd, g), rank, own, g[1])
    ensures forall c :: c in CseOptimizer.Survivors(g, rd) && c.id == a ==>
              Settled(reg, CseOptimizer.Survivors(g, rd), rank, ownS, c, Some("1D"))
  {
    hide InputIds, CseOptimizer.Redirects, Inherits, Owned, PlainIds, Distinct, Mergeable, CseOptimizer.Survivors,
         Redated, Settled, Gains;
    ClockMerges(h, g, rd, a, b, x, y);
    ClockWasHourly(reg, h, g, rd, a, b, x, y, rank, own);
    var m, l, k := ClocksMerged(h, g, rd, a, b, x, y);
    ClockIsDaily(reg, CseOptimizer.Survivors(g, rd), m, l, k, rank, ownS);
    forall c | c in CseOptimizer.Survivors(g, rd) && c.id == a ensures c == m {
      SameNode(CseOptimizer.Survivors(g, rd), c, m);
    }
  }

  /** The first clock with both lines over it. */
  lemma ClocksMerged(h: CseOptimizer.Hashing, g: seq<Node>, rd: CseOptimizer.Redirect, a: Id, b: Id, x: Id, y: Id)
    returns (m: Node, l: Node, k: Node)
    requires Clocks(h, g, rd, a, b, x, y) && rd == map[b := a]
    ensures var s := CseOptimizer.Survivors(g, rd);
            && Distinct(s) && Ids(s) == {a, x, y} && m in s && l in s && k in s
            && m.id == a && m.kind == "clock" && m.timeframe.None? && InputIds(m) == {}
            && l.id == x && l.timeframe == Some("1D") && InputIds(l) == {a}
            && k.id == y && k.timeframe == Some("1H") && InputIds(k) == {a}
  {
    hide InputIds, CseOptimizer.Redirects, PlainIds, Mergeable, CseOptimizer.Survivors, Stands, Images,
         Distinct, Ids;
    ClockLinks(h, g, rd, a, b, x, y);
    assert g[0] in g && g[2] in g && g[3] in g;
    m := SurvivorOf(h, g, rd, g[0]);
    l := SurvivorOf(h, g, rd, g[2]);
    k := SurvivorOf(h, g, rd, g[3]);
    ToFirst(g, rd, a, b);
  }

  lemma ToFirst(g: seq<Node>, rd: CseOptimizer.Redirect, a: Id, b: Id)
    requires rd == map[b := a] && a in Ids(g) && b in Ids(g) && a != b
    ensures Images({a}, Stands(rd, g)) == {a} == Images({b}, Stands(rd, g)) && Images({}, Stands(rd, g)) == {}
    ensures forall d :: d in Ids(g) && d != b ==> Images({d}, Stands(rd, g)) == {d}
  {
    hide Ids;
  }

  lemma ClockIsDaily(reg: Registry, s: seq<Node>, m: Node, l: Node, k: Node, rank: Rank, own: Times)
    requires Distinct(s) && Owned(s, rank, own) && Ids(s) == {m.id, l.id, k.id} && m in s && l in s && k in s
    requires m.kind == "clock" && m.timeframe.None? && InputIds(m) == {}
    requires l.timeframe == Some("1D") && InputIds(l) == {m.id} && k.timeframe == Some("1H")
    requires !IsScalar(reg, "clock") && rank("1H") < rank("1D")
    ensures own.Keys == Ids(s) && Settled(reg, s, rank, own, m, Some("1D"))
  {
    hide InputIds, Inherits, Owned, Distinct, Ids;
    OwnedKeys(s, rank, own);
    OwnGiven(s, rank, own, l, "1D");
    OwnGiven(s, rank, own, k, "1H");
    OwnNone(s, rank, own, m);
    forall c | Reads(s, c, m.id) ensures c.id in own && (own[c.id].Some? ==> rank(own[c.id].value) <= rank("1D")) {
      ReaderIsNode(s, c, m.id);
    }
    assert Reads(s, l, m.id);
  }

  // ------------------------------------------------------------- where a time is taken away

  /** a = bool_true(); b = bool_true(timeframe="1H"); y = not b; report()(y). */
  ghost predicate Flags(h: CseOptimizer.Hashing, g: seq<Node>, rd: CseOptimizer.Redirect, a: Id, b: Id, y: Id, z: Id,
                        t: Option<string>)
  {
    && g == [Leaf("bool_true", a, None), Leaf("bool_true", b, Some("1H")), Over("logical_not", y, b, None),
             Over("report", z, y, t)]
    && Distinct(g) && PlainIds(g) && CseOptimizer.Redirects(h, g, rd)
  }

  /** All three components are known and only the first is a constant. */
  predicate FlagTable(reg: Registry) {
    && "bool_true" in reg.components && "logical_not" in reg.components && "report" in reg.components
    && IsScalar(reg, "bool_true") && !IsScalar(reg, "logical_not") && !IsScalar(reg, "report")
  }

  lemma FlagsExist(h: CseOptimizer.Hashing, t: Option<string>) returns (g: seq<Node>, rd: CseOptimizer.Redirect)
    ensures Flags(h, g, rd, "a", "b", "y", "node_0", t)
  {
    g := [Leaf("bool_true", "a", None), Leaf("bool_true", "b", Some("1H")), Over("logical_not", "y", "b", None),
          Over("report", "node_0", "y", t)];
    assert "a"[0] != "b"[0] && "a"[0] != "y"[0] && "b"[0] != "y"[0] && |"node_0"| > 1;
    assert Word("a") && Word("b") && Word("y") && Word("node_0");
    rd := CseOptimizer.Redirected(h, g, |g|);
    CseOptimizer.RedirectedIsRedirects(h, g);
  }

  lemma FlagLinks(h: CseOptimizer.Hashing, g: seq<Node>, rd: CseOptimizer.Redirect, a: Id, b: Id, y: Id, z: Id,
                  t: Option<string>)
    requires Flags(h, g, rd, a, b, y, z, t)
    ensures InputIds(g[0]) == {} == InputIds(g[1]) && InputIds(g[2]) == {b} && InputIds(g[3]) == {y}
    ensures a != b && b != y && b != z && Ids(g) == {a, b, y, z} && Mergeable(h, g, rd)
  {
    hide CseOptimizer.Redirects, InputIds, InputRefs, Word;
    assert g[0] in g && g[1] in g && g[2] in g && g[3] in g;
    assert g[0].id != g[1].id && g[1].id != g[2].id && g[1].id != g[3].id;
    OverReads("logical_not", y, b, None);
    OverReads("report", z, y, t);
    LeafReads("bool_true", a, None);
    LeafReads("bool_true", b, Some("1H"));
    assert Ids(g) == {a, b, y, z};
  }

  lemma FlagMerges(h: CseOptimizer.Hashing, g: seq<Node>, rd: CseOptimizer.Redirect, a: Id, b: Id, y: Id, z: Id,
                   t: Option<string>)
    requires Flags(h, g, rd, a, b, y, z, t)
    ensures rd == map[b := a]
  {
    hide CseOptimizer.Redirects, CseOptimizer.SemanticHash, PlainIds;
    CseOptimizer.EqualNodesHashEqually(h, g[1], g[0]);
    CseOptimizer.RedirectedIffDuplicate(h, g, rd, 0);
    CseOptimizer.RedirectedIffDuplicate(h, g, rd, 1);
    CseOptimizer.RedirectedIffDuplicate(h, g, rd, 2);
    CseOptimizer.RedirectedIffDuplicate(h, g, rd, 3);
    CseOptimizer.RedirectIsOneStep(h, g, rd);
    assert CseOptimizer.FirstAlike(h, g, 1) == 0;
    assert g[0].kind != g[2].kind && g[2].kind != g[3].kind && g[0].kind != g[3].kind;
    forall id | id in rd ensures id == b {
      var i := NodeWithId(g, id);
      assert i == 1;
    }
  }

  /** Without elimination everything behind the second flag is hourly, but for a report with its own timeframe. */
  lemma FlagsBefore(h: CseOptimizer.Hashing, g: seq<Node>, rd: CseOptimizer.Redirect, a: Id, b: Id, y: Id, z: Id,
                    t: Option<string>)
    requires Flags(h, g, rd, a, b, y, z, t)
    ensures forall u :: Inherits(g, y, u) <==> u == "1H"
    ensures t.None? ==> forall u :: Inherits(g, z, u) <==> u == "1H"
  {
    hide CseOptimizer.Redirects, InputIds, Inherits, Distinct, PlainIds, Mergeable;
    FlagLinks(h, g, rd, a, b, y, z, t);
    assert g[1] in g && g[2] in g && g[3] in g;
    forall u ensures Inherits(g, b, u) <==> u == "1H" { OwnTime(g, g[1], u); }
    forall u ensures Inherits(g, y, u) <==> u == "1H" { InputTimes(g, g[2], u); }
    if t.None? { forall u ensures Inherits(g, z, u) <==> u == "1H" { InputTimes(g, g[3], u); } }
  }

  /** With it there is one flag without a timeframe. */
  lemma FlagsMerged(h: CseOptimizer.Hashing, g: seq<Node>, rd: CseOptimizer.Redirect, a: Id, b: Id, y: Id, z: Id,
                    t: Option<string>)
    returns (m: Node, l: Node, k: Node)
    requires Flags(h, g, rd, a, b, y, z, t) && rd == map[b := a]
    ensures var s := CseOptimizer.Survivors(g, rd);
            && Distinct(s) && Ids(s) == {a, y, z} && m in s && l in s && k in s
            && m.id == a && m.timeframe.None? && InputIds(m) == {}
            && l.id == y && l.kind == "logical_not" && l.timeframe.None? && InputIds(l) == {a}
            && k.id == z && k.kind == "report" && k.timeframe == t && InputIds(k) == {y}
  {
    hide InputIds, CseOptimizer.Redirects, PlainIds, Mergeable, CseOptimizer.Survivors, Stands, Images,
         Distinct, Ids;
    FlagLinks(h, g, rd, a, b, y, z, t);
    assert g[0] in g && g[2] in g && g[3] in g;
    m := SurvivorOf(h, g, rd, g[0]);
    l := SurvivorOf(h, g, rd, g[2]);
    k := SurvivorOf(h, g, rd, g[3]);
    ToFirst(g, rd, a, b);
  }

  lemma UndatedInheritsNothing(g: seq<Node>)
    requires forall n :: n in g ==> n.timeframe.None?
    ensures forall id :: !HasTime(g, id)
  {
  }

  /** The program resolves without elimination; with it the negation and the report have no timeframe. */
  lemma TimeIsTakenAway(reg: Registry, h: CseOptimizer.Hashing, g: seq<Node>, rd: CseOptimizer.Redirect, a: Id, b: Id,
                        y: Id, z: Id)
    requires Flags(h, g, rd, a, b, y, z, None) && FlagTable(reg)
    ensures Resolvable(reg, g, false) && !Resolvable(reg, CseOptimizer.Survivors(g, rd), false)
    ensures Turned(g, Redated(g, rd, g)) == {b}
    ensures Stranded(reg, g, Redated(g, rd, g), Stands(rd, g), false, g[2])
  {
    hide CseOptimizer.Redirects, InputIds, HasTime, PlainIds, Mergeable, CseOptimizer.Survivors, Redated, Turned,
         Stranded, Retimed, Distinct;
    FlagMerges(h, g, rd, a, b, y, z, None);
    FlagsResolve(reg, h, g, rd, a, b, y, z);
    FlagsTurned(h, g, rd, a, b, y, z, None);
    var r := Redated(g, rd, g);
    UndatedInheritsNothing(r);
    UndatedIsStranded(reg, g, r, Stands(rd, g), g[2]);
    var m, l, k := FlagsMerged(h, g, rd, a, b, y, z, None);
    var s := CseOptimizer.Survivors(g, rd);
    forall n | n in s ensures n.timeframe.None? {
      assert n.id in Ids(s);
      SameNode(s, n, if n.id == a then m else if n.id == y then l else k);
    }
    UndatedInheritsNothing(s);
  }

  lemma FlagsResolve(reg: Registry, h: CseOptimizer.Hashing, g: seq<Node>, rd: CseOptimizer.Redirect, a: Id, b: Id,
                     y: Id, z: Id)
    requires Flags(h, g, rd, a, b, y, z, None) && FlagTable(reg)
    ensures Resolvable(reg, g, false)
  {
    hide CseOptimizer.Redirects, Inherits, PlainIds, Distinct;
    FlagsBefore(h, g, rd, a, b, y, z, None);
    assert Inherits(g, y, "1H") && Inherits(g, z, "1H");
    assert HasTime(g, y) && HasTime(g, z);
  }

  lemma FlagsTurned(h: CseOptimizer.Hashing, g: seq<Node>, rd: CseOptimizer.Redirect, a: Id, b: Id, y: Id, z: Id,
                    t: Option<string>)
    requires Flags(h, g, rd, a, b, y, z, t) && rd == map[b := a]
    ensures var r := Redated(g, rd, g);
            && Retimed(g, r) && Distinct(g) && Distinct(r) && Turned(g, r) == {b}
            && (t.None? ==> forall n :: n in r ==> n.timeframe.None?)
  {
    hide CseOptimizer.Redirects, PlainIds, InputIds;
    assert g[0] in g && g[1] in g;
    FirstIsIt(g, g[0]);
    var r := Redated(g, rd, g);
    assert r == [g[0], g[1].(timeframe := None), g[2], g[3]];
    forall d ensures d in Turned(g, r) <==> d == b {
      if d == b { assert r[1].timeframe != g[1].timeframe; }
    }
  }

  lemma UndatedIsStranded(reg: Registry, a: seq<Node>, r: seq<Node>, to: Standing, n: Node)
    requires Retimed(a, r) && Distinct(a) && Distinct(r) && forall id :: !HasTime(r, id)
    requires n.kind in reg.components && !IsScalar(reg, n.kind)
    ensures Stranded(reg, a, r, to, false, n)
  {
    hide HasTime, NothingLeft, Retimed, Distinct;
    forall id ensures NothingLeft(a, r, id) { NothingLeftExactly(a, r, id); }
  }

  /** Under a report by the minute, the negation is hourly without elimination and by the minute with it. */
  lemma TimeGetsEarlier(reg: Registry, h: CseOptimizer.Hashing, g: seq<Node>, rd: CseOptimizer.Redirect, a: Id, b: Id,
                        y: Id, z: Id, rank: Rank, own: Times, ownS: Times)
    requires Flags(h, g, rd, a, b, y, z, Some("1Min")) && FlagTable(reg) && rank("1Min") < rank("1H")
    requires Owned(g, rank, own) && Owned(CseOptimizer.Survivors(g, rd), rank, ownS)
    ensures own.Keys == Ids(g) && g[2] in g && Settled(reg, g, rank, own, g[2], Some("1H"))
    ensures forall c :: c in CseOptimizer.Survivors(g, rd) && c.id == y ==>
              Settled(reg, CseOptimizer.Survivors(g, rd), rank, ownS, c, Some("1Min"))
  {
    hide CseOptimizer.Redirects, InputIds, Inherits, PlainIds, Distinct, CseOptimizer.Survivors, Settled;
    FlagMerges(h, g, rd, a, b, y, z, Some("1Min"));
    FlagsBefore(h, g, rd, a, b, y, z, Some("1Min"));
    OnlyTime(reg, g, rank, own, g[2], "1H");
    var m, l, k := FlagsMerged(h, g, rd, a, b, y, z, Some("1Min"));
    var s := CseOptimizer.Survivors(g, rd);
    FlagByTheMinute(reg, s, m, l, k, rank, ownS);
    forall c | c in s && c.id == y ensures c == l { SameNode(s, c, l); }
  }

  lemma OnlyTime(reg: Registry, g: seq<Node>, rank: Rank, own: Times, n: Node, t: string)
    requires Owned(g, rank, own) && n in g && forall u :: Inherits(g, n.id, u) <==> u == t
    ensures own.Keys == Ids(g) && Settled(reg, g, rank, own, n, Some(t))
  {
    hide Inherits;
    assert n.id in Ids(g) && Latest(g, rank, n.id, own[n.id]) && Inherits(g, n.id, t);
    assert HasTime(g, n.id);
  }

  lemma FlagByTheMinute(reg: Registry, s: seq<Node>, m: Node, l: Node, k: Node, rank: Rank, own: Times)
    requires Distinct(s) && Owned(s, rank, own) && Ids(s) == {m.id, l.id, k.id} && m in s && l in s && k in s
    requires m.timeframe.None? && InputIds(m) == {} && l.timeframe.None? && InputIds(l) == {m.id}
    requires k.timeframe == Some("1Min") && InputIds(k) == {l.id} && !IsScalar(reg, l.kind)
    ensures own.Keys == Ids(s) && Settled(reg, s, rank, own, l, Some("1Min"))
  {
    hide InputIds, Inherits, Distinct, Ids;
    OwnedKeys(s, rank, own);
    OwnGiven(s, rank, own, k, "1Min");
    forall u ensures !Inherits(s, m.id, u) { InputTimes(s, m, u); }
    forall u ensures !Inherits(s, l.id, u) { InputTimes(s, l, u); }
    assert l.id in own && Latest(s, rank, l.id, own[l.id]);
    forall c | Reads(s, c, l.id) ensures c == k {
      ReaderIsNode(s, c, l.id);
      SameNode(s, c, if c.id == m.id then m else if c.id == l.id then l else k);
    }
    assert Reads(s, k, l.id);
  }
}
