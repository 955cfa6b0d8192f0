/** Terms that differ only in the periods of their lags, and the calls that can tell them apart. */
module PeriodShapes {
  import opened Wrappers
  import opened Graph
  import opened Registry
  import opened NodeIds
  import opened Denotation
  import opened Slots
  import opened ProgramMeaning

  // ------------------------------------------------------- denotations of one shape

  /** Same handle, type and kind; only periods inside may differ. */
  ghost predicate Alike(a: Den, b: Den) {
    a.handle == b.handle && a.tracked == b.tracked && KindOf(a.node) == KindOf(b.node)
  }

  ghost predicate AllAlike(xs: seq<Den>, ys: seq<Den>) {
    |xs| == |ys| && forall i :: 0 <= i < |xs| ==> Alike(xs[i], ys[i])
  }

  ghost predicate EachAlike(xs: map<string, Den>, ys: map<string, Den>) {
    xs.Keys == ys.Keys && forall k :: k in xs ==> Alike(xs[k], ys[k])
  }

  lemma ValuesDiffer(a: Den, b: Den)
    requires Alike(a, b)
    ensures ValueOf(a) == ValueOf(b) <==> a == b
  {
  }

  lemma CoerceAlike(reg: Registry, a: Den, b: Den, target: DataType)
    requires Alike(a, b)
    ensures Coerce(reg, a, target).Some? <==> Coerce(reg, b, target).Some?
    ensures Coerce(reg, a, target).Some? ==>
              var x, y := Coerce(reg, a, target).value, Coerce(reg, b, target).value;
              Alike(x, y) && (ValueOf(x) == ValueOf(y) <==> a == b)
  {
    hide CastKind, Compatible, HandleType;
    ValuesDiffer(a, b);
    var source := TypeOf(reg, a);
    if !Compatible(source, target) && CastKind(source, target).Some? {
      var x, y := Coerce(reg, a, target).value, Coerce(reg, b, target).value;
      assert x.node.inputs["SLOT"].values[0] == ValueOf(a) && y.node.inputs["SLOT"].values[0] == ValueOf(b);
    }
  }

  lemma TwoWired(left: string, x: Value, right: string, y: Value, x': Value, y': Value)
    ensures Wire(Wire(map[], left, x), right, y) == Wire(Wire(map[], left, x'), right, y') <==> x == x' && y == y'
  {
    var a, b := Wire(Wire(map[], left, x), right, y), Wire(Wire(map[], left, x'), right, y');
    assert a[left].values[0] == x && b[left].values[0] == x';
    assert a[right].values[|a[right].values| - 1] == y && b[right].values[|b[right].values| - 1] == y';
  }

  /** An operation on alike operands: both or neither succeed, alike, and equal only on equal operands. */
  ghost predicate Parallel(x: Option<Den>, y: Option<Den>, same: bool) {
    (x.Some? <==> y.Some?) && (x.Some? ==> Alike(x.value, y.value) && (x == y <==> same))
  }

  lemma BinaryAlike(reg: Registry, kind: string, a: Den, b: Den, a': Den, b': Den, tracked: Option<DataType>)
    requires Alike(a, a') && Alike(b, b')
    ensures Parallel(Binary(reg, kind, a, b, tracked), Binary(reg, kind, a', b', tracked), a == a' && b == b')
  {
    hide Coerce, Alike, ValueOf, Wire, InputType;
    if kind in reg.components && |reg.components[kind].inputs| == 2 {
      var c := reg.components[kind];
      var left, right := InputNames(c)[0], InputNames(c)[1];
      CoerceAlike(reg, a, a', InputType(c.inputs, left));
      CoerceAlike(reg, b, b', InputType(c.inputs, right));
      if Coerce(reg, a, InputType(c.inputs, left)).Some? && Coerce(reg, b, InputType(c.inputs, right)).Some? {
        BuiltAlike(reg, kind, a, b, a', b', tracked);
      }
    }
  }

  lemma BuiltAlike(reg: Registry, kind: string, a: Den, b: Den, a': Den, b': Den, tracked: Option<DataType>)
    requires Alike(a, a') && Alike(b, b')
    requires Binary(reg, kind, a, b, tracked).Some? && Binary(reg, kind, a', b', tracked).Some?
    ensures Parallel(Binary(reg, kind, a, b, tracked), Binary(reg, kind, a', b', tracked), a == a' && b == b')
  {
    hide Coerce, ValueOf, InputType, Wire;
    var c := reg.components[kind];
    var left, right := InputNames(c)[0], InputNames(c)[1];
    CoerceAlike(reg, a, a', InputType(c.inputs, left));
    CoerceAlike(reg, b, b', InputType(c.inputs, right));
    TwoWired(left, ValueOf(Coerce(reg, a, InputType(c.inputs, left)).value),
             right, ValueOf(Coerce(reg, b, InputType(c.inputs, right)).value),
             ValueOf(Coerce(reg, a', InputType(c.inputs, left)).value),
             ValueOf(Coerce(reg, b', InputType(c.inputs, right)).value));
  }

  lemma SelectAlike(reg: Registry, c: Den, t: Den, f: Den, c': Den, t': Den, f': Den)
    requires Alike(c, c') && Alike(t, t') && Alike(f, f')
    ensures Parallel(Select(reg, c, t, f), Select(reg, c', t', f'), c == c' && t == t' && f == f')
  {
    hide SelectKind, HandleType;
    ValuesDiffer(c, c');
    ValuesDiffer(t, t');
    ValuesDiffer(f, f');
    if Select(reg, c, t, f).Some? {
      var x, y := Select(reg, c, t, f).value.node.inputs, Select(reg, c', t', f').value.node.inputs;
      assert x["condition"].values[0] == ValueOf(c) && y["condition"].values[0] == ValueOf(c');
      assert x["true"].values[0] == ValueOf(t) && y["true"].values[0] == ValueOf(t');
      assert x["false"].values[0] == ValueOf(f) && y["false"].values[0] == ValueOf(f');
    }
  }

  lemma NegateAlike(d: Den, d': Den)
    requires Alike(d, d')
    ensures Parallel(Some(Negate(d)), Some(Negate(d')), d == d')
  {
    ValuesDiffer(d, d');
    assert Negate(d).node.inputs["SLOT1"].values[0] == ValueOf(d) &&
           Negate(d').node.inputs["SLOT1"].values[0] == ValueOf(d');
  }

  lemma NotAlike(reg: Registry, d: Den, d': Den)
    requires Alike(d, d')
    ensures Parallel(LogicalNot(reg, d), LogicalNot(reg, d'), d == d')
  {
    ValuesDiffer(d, d');
    if LogicalNot(reg, d).Some? {
      assert LogicalNot(reg, d).value.node.inputs["SLOT"].values[0] == ValueOf(d);
      assert LogicalNot(reg, d').value.node.inputs["SLOT"].values[0] == ValueOf(d');
    }
  }

  lemma LagAlike(reg: Registry, d: Den, p: int, d': Den, p': int)
    requires Alike(d, d')
    ensures Parallel(Lag(reg, d, p), Lag(reg, d', p'), d == d' && p == p')
  {
    hide LagKind, HandleType;
    ValuesDiffer(d, d');
    if Lag(reg, d, p).Some? {
      var x, y := Lag(reg, d, p).value.node, Lag(reg, d', p').value.node;
      assert x.inputs["SLOT"].values[0] == ValueOf(d) && y.inputs["SLOT"].values[0] == ValueOf(d');
      assert x.options["period"] == Raw(Number(p as real)) && y.options["period"] == Raw(Number(p' as real));
    }
  }

  lemma {:induction false} NestDiffers(kind: string, xs: seq<Value>, ys: seq<Value>)
    requires |xs| == |ys| >= 2
    ensures Nest(kind, xs) == Nest(kind, ys) <==> xs == ys
  {
    var x, y := Nest(kind, xs), Nest(kind, ys);
    assert x.inputs["SLOT0"].values[0] == xs[0] && y.inputs["SLOT0"].values[0] == ys[0];
    var a, b := x.inputs["SLOT1"].values[0], y.inputs["SLOT1"].values[0];
    if |xs| == 2 {
      assert xs == [xs[0], xs[1]] && ys == [ys[0], ys[1]];
    } else {
      NestDiffers(kind, xs[1..], ys[1..]);
      assert xs == [xs[0]] + xs[1..] && ys == [ys[0]] + ys[1..];
      assert a == Output(Nest(kind, xs[1..]), "#result") && b == Output(Nest(kind, ys[1..]), "#result");
    }
  }

  lemma SnocDiffers(a: seq<Value>, x: Value, b: seq<Value>, y: Value)
    requires |a| == |b|
    ensures a + [x] == b + [y] <==> a == b && x == y
  {
    if a + [x] == b + [y] {
      assert a == (a + [x])[..|a|] && b == (b + [y])[..|b|];
      assert x == (a + [x])[|a|] && y == (b + [y])[|b|];
    }
  }

  lemma {:induction false} CoerceAllCount(reg: Registry, xs: seq<Den>, target: DataType)
    ensures CoerceAll(reg, xs, target).Some? ==> |CoerceAll(reg, xs, target).value| == |xs|
  {
    hide Coerce;
    if xs != [] { CoerceAllCount(reg, xs[..|xs| - 1], target); }
  }

  lemma ValuesSnoc(ds: seq<Den>, d: Den)
    ensures Values(ds + [d]) == Values(ds) + [ValueOf(d)] && |Values(ds)| == |ds|
  {
  }

  lemma ValuesDifferLast(a: seq<Den>, x: Den, b: seq<Den>, y: Den)
    requires |a| == |b|
    ensures Values(a + [x]) == Values(b + [y]) <==> Values(a) == Values(b) && ValueOf(x) == ValueOf(y)
  {
    hide ValueOf;
    ValuesSnoc(a, x);
    ValuesSnoc(b, y);
    SnocDiffers(Values(a), ValueOf(x), Values(b), ValueOf(y));
  }

  lemma {:induction false} CoerceAllAlike(reg: Registry, xs: seq<Den>, ys: seq<Den>, target: DataType)
    requires AllAlike(xs, ys)
    ensures CoerceAll(reg, xs, target).Some? <==> CoerceAll(reg, ys, target).Some?
    ensures CoerceAll(reg, xs, target).Some? ==>
              var a, b := CoerceAll(reg, xs, target).value, CoerceAll(reg, ys, target).value;
              |a| == |b| == |xs| && (Values(a) == Values(b) <==> xs == ys)
  {
    hide Coerce, ValueOf, Values, Alike;
    CoerceAllCount(reg, xs, target);
    CoerceAllCount(reg, ys, target);
    if xs != [] {
      var n := |xs| - 1;
      CoerceAllAlike(reg, xs[..n], ys[..n], target);
      CoerceAlike(reg, xs[n], ys[n], target);
      assert xs == xs[..n] + [xs[n]] && ys == ys[..n] + [ys[n]];
      if CoerceAll(reg, xs, target).Some? {
        CoerceAllCount(reg, xs[..n], target);
        CoerceAllCount(reg, ys[..n], target);
        ValuesDifferLast(CoerceAll(reg, xs[..n], target).value, Coerce(reg, xs[n], target).value,
                         CoerceAll(reg, ys[..n], target).value, Coerce(reg, ys[n], target).value);
      }
    }
  }

  // ---------------------------------------------------------------------- wiring

  ghost predicate SameShape(a: map<string, Args>, b: map<string, Args>) {
    a.Keys == b.Keys && forall k :: k in a ==> |a[k].values| == |b[k].values|
  }

  function ListOf(m: map<string, Args>, k: string): seq<Value> { if k in m then m[k].values else [] }

  lemma WireDiffers(a: map<string, Args>, x: Value, b: map<string, Args>, y: Value, name: string)
    requires SameShape(a, b)
    ensures SameShape(Wire(a, name, x), Wire(b, name, y))
    ensures Wire(a, name, x) == Wire(b, name, y) <==> a == b && x == y
  {
    var p, q := Wire(a, name, x), Wire(b, name, y);
    SnocDiffers(ListOf(a, name), x, ListOf(b, name), y);
    assert p[name].values == ListOf(a, name) + [x] && q[name].values == ListOf(b, name) + [y];
    if p == q {
      forall k | k in a ensures a[k] == b[k] {
        if k == name {
          assert a[k] == Args(ListOf(a, k)) && b[k] == Args(ListOf(b, k));
        } else {
          assert p[k] == a[k] && q[k] == b[k];
        }
      }
    }
  }

  lemma WireEachDiffers(a: map<string, Args>, xs: map<string, Value>, b: map<string, Args>, ys: map<string, Value>)
    requires SameShape(a, b) && xs.Keys == ys.Keys
    ensures SameShape(WireEach(a, xs), WireEach(b, ys))
    ensures WireEach(a, xs) == WireEach(b, ys) <==> a == b && xs == ys
  {
    var p, q := WireEach(a, xs), WireEach(b, ys);
    forall k | k in xs ensures p[k] == q[k] <==> ListOf(a, k) == ListOf(b, k) && xs[k] == ys[k] {
      SnocDiffers(ListOf(a, k), xs[k], ListOf(b, k), ys[k]);
      assert p[k].values == ListOf(a, k) + [xs[k]] && q[k].values == ListOf(b, k) + [ys[k]];
    }
    if p == q {
      forall k | k in a ensures a[k] == b[k] {
        assert p[k] == q[k];
        assert a[k] == Args(ListOf(a, k)) && b[k] == Args(ListOf(b, k));
      }
      assert forall k :: k in xs ==> xs[k] == ys[k];
    }
  }

  /** The keyword arguments all fit, and equal values mean equal arguments. */
  lemma KeywordValuesAlike(reg: Registry, c: Component, xs: map<string, Den>, ys: map<string, Den>)
    requires EachAlike(xs, ys)
    ensures forall k :: k in xs ==> (KeywordFits(reg, c, xs, k) <==> KeywordFits(reg, c, ys, k))
    ensures (forall k :: k in xs ==> KeywordFits(reg, c, xs, k)) ==>
              (KeywordValues(reg, c, xs, xs.Keys) == KeywordValues(reg, c, ys, ys.Keys) <==> xs == ys)
  {
    hide Coerce, Alike, InputType, InputNames;
    forall k | k in xs
      ensures KeywordFits(reg, c, xs, k) <==> KeywordFits(reg, c, ys, k)
      ensures KeywordFits(reg, c, xs, k) ==>
                (KeywordValue(reg, c, xs, k) == KeywordValue(reg, c, ys, k) <==> xs[k] == ys[k])
    {
      CoerceAlike(reg, xs[k], ys[k], InputType(c.inputs, k));
    }
    if forall k :: k in xs ==> KeywordFits(reg, c, xs, k) {
      hide KeywordFits, KeywordValue;
      var vs, ws := KeywordValues(reg, c, xs, xs.Keys), KeywordValues(reg, c, ys, ys.Keys);
      assert forall k :: k in xs ==> vs[k] == KeywordValue(reg, c, xs, k) && ws[k] == KeywordValue(reg, c, ys, k);
      assert vs == ws ==> xs == ys by {
        if vs == ws { forall k | k in xs ensures xs[k] == ys[k] { assert vs[k] == ws[k]; } }
      }
    }
  }

  lemma KeywordsAlike(reg: Registry, c: Component, a: map<string, Args>, xs: map<string, Den>, b: map<string, Args>,
                      ys: map<string, Den>)
    requires SameShape(a, b) && EachAlike(xs, ys)
    ensures WireKeywords(reg, c, a, xs).Some? <==> WireKeywords(reg, c, b, ys).Some?
    ensures WireKeywords(reg, c, a, xs).Some? ==>
              var p, q := WireKeywords(reg, c, a, xs).value, WireKeywords(reg, c, b, ys).value;
              SameShape(p, q) && (p == q <==> a == b && xs == ys)
  {
    hide KeywordFits, KeywordValues, WireEach, Alike, SameShape;
    KeywordValuesAlike(reg, c, xs, ys);
    if WireKeywords(reg, c, a, xs).Some? {
      KeysOfValues(reg, c, xs);
      KeysOfValues(reg, c, ys);
      WireEachDiffers(a, KeywordValues(reg, c, xs, xs.Keys), b, KeywordValues(reg, c, ys, ys.Keys));
    }
  }

  lemma KeysOfValues(reg: Registry, c: Component, xs: map<string, Den>)
    requires forall k :: k in xs ==> KeywordFits(reg, c, xs, k)
    ensures KeywordValues(reg, c, xs, xs.Keys).Keys == xs.Keys
  {
  }

  lemma {:induction false} PositionalAlike(reg: Registry, c: Component, a: map<string, Args>, xs: seq<Den>,
                                           b: map<string, Args>, ys: seq<Den>)
    requires c.inputs != [] && SameShape(a, b) && AllAlike(xs, ys)
    ensures WirePositional(reg, c, a, xs).Some? <==> WirePositional(reg, c, b, ys).Some?
    ensures WirePositional(reg, c, a, xs).Some? ==>
              var p, q := WirePositional(reg, c, a, xs).value, WirePositional(reg, c, b, ys).value;
              SameShape(p, q) && (p == q <==> a == b && xs == ys)
  {
    hide Coerce, Wire, Alike, InputType, SlotAt, SameShape;
    if xs != [] {
      var n := |xs| - 1;
      PositionalAlike(reg, c, a, xs[..n], b, ys[..n]);
      var name := SlotAt(InputNames(c), n);
      CoerceAlike(reg, xs[n], ys[n], InputType(c.inputs, name));
      assert xs == xs[..n] + [xs[n]] && ys == ys[..n] + [ys[n]];
      if WirePositional(reg, c, a, xs[..n]).Some? && Coerce(reg, xs[n], InputType(c.inputs, name)).Some? {
        WireDiffers(WirePositional(reg, c, a, xs[..n]).value,
                    ValueOf(Coerce(reg, xs[n], InputType(c.inputs, name)).value),
                    WirePositional(reg, c, b, ys[..n]).value,
                    ValueOf(Coerce(reg, ys[n], InputType(c.inputs, name)).value), name);
      }
    }
  }

  ghost predicate FeedAlike(f: FeedDen, g: FeedDen) { AllAlike(f.args, g.args) && EachAlike(f.kwargs, g.kwargs) }

  /** The same feed as far as the component looks at it. */
  ghost predicate FedSame(c: Component, f: FeedDen, g: FeedDen) {
    f.kwargs == g.kwargs && (c.inputs != [] ==> f.args == g.args)
  }

  lemma WireFeedAlike(reg: Registry, c: Component, a: map<string, Args>, f: FeedDen, b: map<string, Args>, g: FeedDen)
    requires SameShape(a, b) && FeedAlike(f, g)
    ensures WireFeed(reg, c, a, f).Some? <==> WireFeed(reg, c, b, g).Some?
    ensures WireFeed(reg, c, a, f).Some? ==>
              var p, q := WireFeed(reg, c, a, f).value, WireFeed(reg, c, b, g).value;
              SameShape(p, q) && (p == q <==> a == b && FedSame(c, f, g))
  {
    hide WireKeywords, WirePositional, SameShape, Alike;
    KeywordsAlike(reg, c, a, f.kwargs, b, g.kwargs);
    if WireKeywords(reg, c, a, f.kwargs).Some? && c.inputs != [] {
      PositionalAlike(reg, c, WireKeywords(reg, c, a, f.kwargs).value, f.args, WireKeywords(reg, c, b, g.kwargs).value,
                      g.args);
    }
  }

  ghost predicate FeedsAlike(fs: seq<FeedDen>, gs: seq<FeedDen>) {
    |fs| == |gs| && forall i :: 0 <= i < |fs| ==> FeedAlike(fs[i], gs[i])
  }

  ghost predicate FedAllSame(c: Component, fs: seq<FeedDen>, gs: seq<FeedDen>) {
    |fs| == |gs| && forall i :: 0 <= i < |fs| ==> FedSame(c, fs[i], gs[i])
  }

  lemma FedSnoc(c: Component, fs: seq<FeedDen>, gs: seq<FeedDen>)
    requires fs != [] && |fs| == |gs|
    ensures var n := |fs| - 1; FedAllSame(c, fs, gs) <==> FedAllSame(c, fs[..n], gs[..n]) && FedSame(c, fs[n], gs[n])
    ensures var n := |fs| - 1; FeedsAlike(fs, gs) ==> FeedsAlike(fs[..n], gs[..n]) && FeedAlike(fs[n], gs[n])
  {
    hide FedSame, FeedAlike;
  }

  lemma {:induction false} WireFeedsAlike(reg: Registry, c: Component, have: map<string, Args>, fs: seq<FeedDen>,
                                          gs: seq<FeedDen>)
    requires FeedsAlike(fs, gs)
    ensures WireFeeds(reg, c, have, fs).Some? <==> WireFeeds(reg, c, have, gs).Some?
    ensures WireFeeds(reg, c, have, fs).Some? ==>
              var p, q := WireFeeds(reg, c, have, fs).value, WireFeeds(reg, c, have, gs).value;
              SameShape(p, q) && (p == q <==> FedAllSame(c, fs, gs))
  {
    hide WireFeed, FedAllSame, FeedAlike, FedSame;
    if fs == [] {
      NothingFed(c, fs, gs);
    } else {
      var n := |fs| - 1;
      FedSnoc(c, fs, gs);
      WireFeedsAlike(reg, c, have, fs[..n], gs[..n]);
      if WireFeeds(reg, c, have, fs[..n]).Some? {
        WireFeedAlike(reg, c, WireFeeds(reg, c, have, fs[..n]).value, fs[n], WireFeeds(reg, c, have, gs[..n]).value,
                      gs[n]);
      }
    }
  }

  lemma NothingFed(c: Component, fs: seq<FeedDen>, gs: seq<FeedDen>)
    requires fs == [] == gs
    ensures FedAllSame(c, fs, gs)
  {
  }

  ghost predicate ParsedAlike(p: Parsed, q: Parsed) {
    p.kind == q.kind && p.params == q.params && FeedsAlike(p.feeds, q.feeds)
  }

  lemma InvokeAlike(reg: Registry, p: Parsed, q: Parsed)
    requires p.kind in reg.components && ParsedAlike(p, q)
    ensures Parallel(Invoke(reg, p), Invoke(reg, q), FedAllSame(reg.components[p.kind], p.feeds, q.feeds))
  {
    hide WireFeeds, FedAllSame, FeedsAlike, OptionsMeaning, SameShape;
    WireFeedsAlike(reg, reg.components[p.kind], map[], p.feeds, q.feeds);
  }

  // --------------------------------------------------------------------- instances

  ghost predicate CellAlike(v: Value, w: Value) { v == w || (v.Output? && w.Output?) }

  ghost predicate CellsAlike(vs: seq<Value>, ws: seq<Value>) {
    |vs| == |ws| && forall i :: 0 <= i < |vs| ==> CellAlike(vs[i], ws[i])
  }

  /** Equal but for the nodes that slots have been resolved to. */
  ghost predicate MeaningAlike(m: Meaning, n: Meaning) {
    match m
    case Raw(_) => m == n
    case TextMeaning(v) => n.TextMeaning? && CellAlike(v, n.value)
    case SchemaMeaning(strict, s, cs) => n.SchemaMeaning? && n.strict == strict && CellAlike(s, n.selected) &&
                                         CellsAlike(cs, n.cells)
  }

  ghost predicate MeaningsAlike(ms: map<string, Meaning>, ns: map<string, Meaning>) {
    ms.Keys == ns.Keys && forall key :: key in ms ==> MeaningAlike(ms[key], ns[key])
  }

  ghost predicate Outputs(vs: seq<Value>) { forall i :: 0 <= i < |vs| ==> vs[i].Output? }

  lemma CellResolvedAlike(reg: Registry, v: Value, w: Value, args: seq<Value>, brgs: seq<Value>)
    requires CellAlike(v, w) && |args| == |brgs| && Outputs(args) && Outputs(brgs)
    ensures SlotOfValue(reg, v) == SlotOfValue(reg, w)
    ensures var a, b := ResolveCell(SlotOfValue(reg, v), v, args), ResolveCell(SlotOfValue(reg, w), w, brgs);
            (a.Some? <==> b.Some?) && (a.Some? ==> CellAlike(a.value, b.value))
  {
  }

  lemma {:induction false} CellsResolvedAlike(reg: Registry, vs: seq<Value>, ws: seq<Value>, args: seq<Value>,
                                              brgs: seq<Value>)
    requires CellsAlike(vs, ws) && |args| == |brgs| && Outputs(args) && Outputs(brgs)
    ensures var a, b := ResolveCells(SlotsOfValues(reg, vs), vs, args), ResolveCells(SlotsOfValues(reg, ws), ws, brgs);
            (a.Some? <==> b.Some?) && (a.Some? ==> CellsAlike(a.value, b.value))
  {
    hide CellAlike, SlotOfValue, ResolveCell;
    if vs != [] {
      var n := |vs| - 1;
      CellsResolvedAlike(reg, vs[..n], ws[..n], args, brgs);
      CellResolvedAlike(reg, vs[n], ws[n], args, brgs);
      assert SlotsOfValues(reg, vs)[..n] == SlotsOfValues(reg, vs[..n]);
      assert SlotsOfValues(reg, ws)[..n] == SlotsOfValues(reg, ws[..n]);
    }
  }

  lemma MeaningResolvedAlike(reg: Registry, m: Meaning, n: Meaning, args: seq<Value>, brgs: seq<Value>)
    requires MeaningAlike(m, n) && |args| == |brgs| && Outputs(args) && Outputs(brgs)
    ensures var a, b := ResolveMeaning(reg, m, args), ResolveMeaning(reg, n, brgs);
            (a.Some? <==> b.Some?) && (a.Some? ==> MeaningAlike(a.value, b.value))
  {
    hide CellAlike, CellsAlike, SlotOfValue, ResolveCells, Outputs, ResolveCell;
    match m
    case Raw(_) =>
    case TextMeaning(v) => CellResolvedAlike(reg, v, n.value, args, brgs);
    case SchemaMeaning(_, s, cs) =>
      CellResolvedAlike(reg, s, n.selected, args, brgs);
      CellsResolvedAlike(reg, cs, n.cells, args, brgs);
      SameCount(cs, n.cells);
  }

  lemma SameCount(vs: seq<Value>, ws: seq<Value>)
    requires CellsAlike(vs, ws)
    ensures |vs| == |ws|
  {
  }

  lemma ResolvedAlike(reg: Registry, ms: map<string, Meaning>, ns: map<string, Meaning>, args: seq<Value>,
                      brgs: seq<Value>)
    requires MeaningsAlike(ms, ns) && |args| == |brgs| && Outputs(args) && Outputs(brgs)
    ensures var a, b := ResolveMeanings(reg, ms, args), ResolveMeanings(reg, ns, brgs);
            (a.Some? <==> b.Some?) && (a.Some? ==> MeaningsAlike(a.value, b.value))
  {
    hide MeaningAlike, ResolveMeaning, Outputs;
    forall key | key in ms
      ensures ResolveMeaning(reg, ms[key], args).Some? <==> ResolveMeaning(reg, ns[key], brgs).Some?
      ensures ResolveMeaning(reg, ms[key], args).Some? ==>
                MeaningAlike(ResolveMeaning(reg, ms[key], args).value, ResolveMeaning(reg, ns[key], brgs).value)
    {
      MeaningResolvedAlike(reg, ms[key], ns[key], args, brgs);
    }
  }

  /** No slot is left to resolve. */
  ghost predicate Slotless(reg: Registry, m: Meaning) {
    match m
    case Raw(_) => true
    case TextMeaning(v) => !SlotOfValue(reg, v).At?
    case SchemaMeaning(_, s, cs) =>
      !SlotOfValue(reg, s).At? && forall i :: 0 <= i < |cs| ==> !SlotOfValue(reg, cs[i]).At?
  }

  lemma {:induction false} SlotlessCells(reg: Registry, cs: seq<Value>, args: seq<Value>)
    requires forall i :: 0 <= i < |cs| ==> !SlotOfValue(reg, cs[i]).At?
    ensures ResolveCells(SlotsOfValues(reg, cs), cs, args) == Some(cs)
  {
    hide SlotOfValue;
    if cs != [] {
      var n := |cs| - 1;
      assert SlotsOfValues(reg, cs)[..n] == SlotsOfValues(reg, cs[..n]);
      SlotlessCells(reg, cs[..n], args);
      assert cs[..n] + [cs[n]] == cs;
    }
  }

  lemma SlotlessStays(reg: Registry, ms: map<string, Meaning>, args: seq<Value>)
    requires forall key :: key in ms ==> Slotless(reg, ms[key])
    ensures ResolveMeanings(reg, ms, args).Some? ==> ResolveMeanings(reg, ms, args).value == ms
  {
    hide SlotOfValue;
    forall key | key in ms
      ensures ResolveMeaning(reg, ms[key], args).Some? ==> ResolveMeaning(reg, ms[key], args).value == ms[key]
    {
      var m := ms[key];
      if m.SchemaMeaning? { SlotlessCells(reg, m.cells, args); }
    }
  }

  lemma OutputsOf(ds: seq<Den>)
    ensures Outputs(Values(ds)) && |Values(ds)| == |ds|
  {
  }

  lemma {:induction false} FeedAllAlike(reg: Registry, c: Component, draft: Draft, fs: seq<FeedDen>, gs: seq<FeedDen>)
    requires FeedsAlike(fs, gs)
    ensures FeedAll(reg, c, draft, fs).Some? <==> FeedAll(reg, c, draft, gs).Some?
    ensures FeedAll(reg, c, draft, fs).Some? ==>
              var a, b := FeedAll(reg, c, draft, fs).value, FeedAll(reg, c, draft, gs).value;
              && MeaningsAlike(a.options, b.options) && SameShape(a.inputs, b.inputs)
              && (a.inputs == b.inputs <==> FedAllSame(c, fs, gs))
  {
    hide WireFeed, ResolveMeanings, MeaningsAlike, SameShape, FedAllSame, FedSame, FeedsAlike, AllAlike, EachAlike;
    if fs == [] {
      SameStart(c, draft, fs, gs);
    } else {
      var n := |fs| - 1;
      FeedsCount(fs, gs);
      FedSnoc(c, fs, gs);
      FeedAllAlike(reg, c, draft, fs[..n], gs[..n]);
      if FeedAll(reg, c, draft, fs[..n]).Some? {
        var a, b := FeedAll(reg, c, draft, fs[..n]).value, FeedAll(reg, c, draft, gs[..n]).value;
        WireFeedAlike(reg, c, a.inputs, fs[n], b.inputs, gs[n]);
        OutputsOf(fs[n].args);
        OutputsOf(gs[n].args);
        ArgsCount(fs[n], gs[n]);
        ResolvedAlike(reg, a.options, b.options, Values(fs[n].args), Values(gs[n].args));
      }
    }
  }

  lemma FeedsCount(fs: seq<FeedDen>, gs: seq<FeedDen>)
    requires FeedsAlike(fs, gs)
    ensures |fs| == |gs|
  {
  }

  lemma ArgsCount(f: FeedDen, g: FeedDen)
    requires FeedAlike(f, g)
    ensures |f.args| == |g.args|
  {
  }

  lemma SameStart(c: Component, draft: Draft, fs: seq<FeedDen>, gs: seq<FeedDen>)
    requires fs == [] && FeedsAlike(fs, gs)
    ensures gs == [] && MeaningsAlike(draft.options, draft.options) && SameShape(draft.inputs, draft.inputs)
    ensures FedAllSame(c, fs, gs)
  {
    forall key | key in draft.options ensures MeaningAlike(draft.options[key], draft.options[key]) { }
  }

  lemma {:induction false} SlotlessFeeds(reg: Registry, c: Component, draft: Draft, fs: seq<FeedDen>)
    requires forall key :: key in draft.options ==> Slotless(reg, draft.options[key])
    ensures FeedAll(reg, c, draft, fs).Some? ==> FeedAll(reg, c, draft, fs).value.options == draft.options
  {
    hide WireFeed, ResolveMeanings, Slotless;
    if fs != [] {
      SlotlessFeeds(reg, c, draft, fs[..|fs| - 1]);
      SlotlessStays(reg, draft.options, Values(fs[|fs| - 1].args));
    }
  }

  lemma FedAllIsEqual(c: Component, fs: seq<FeedDen>, gs: seq<FeedDen>)
    requires c.inputs != [] && FedAllSame(c, fs, gs)
    ensures fs == gs
  {
    forall i | 0 <= i < |fs| ensures fs[i] == gs[i] { assert FedSame(c, fs[i], gs[i]); }
  }

  lemma UnboundField(f: string)
    ensures FieldValue(f, map[]) == External(f)
  {
  }

  lemma FieldSlotless(reg: Registry, f: string)
    requires !SlotText(f)
    ensures FieldValue(f, map[]) == External(f) && !SlotOfValue(reg, External(f)).At?
  {
    UnboundField(f);
  }

  lemma OptionSlotless(reg: Registry, kind: string, key: string, o: OptionValue)
    requires NoSlots(o)
    ensures Slotless(reg, OptionMeaning(kind, key, o, map[]))
  {
    hide FieldValue, SlotText, SlotOf;
    match o
    case Text(t) =>
      assert FieldTexts(o)[0] == t;
      FieldSlotless(reg, t);
    case Schema(_, s, cs) =>
      assert FieldTexts(o)[0] == s && forall i :: 0 <= i < |cs| ==> cs[i] == FieldTexts(o)[i + 1];
      FieldSlotless(reg, s);
      forall i | 0 <= i < |cs| ensures !SlotOfValue(reg, FieldValues(cs, map[])[i]).At? {
        FieldSlotless(reg, cs[i]);
      }
    case _ =>
  }

  lemma ConfiguredSlotless(reg: Registry, kind: string, options: map<string, OptionValue>)
    requires forall key :: key in options ==> NoSlots(options[key])
    ensures forall key :: key in options ==> Slotless(reg, OptionMeaning(kind, key, options[key], map[]))
  {
    hide NoSlots, Slotless, OptionMeaning;
    forall key | key in options ensures Slotless(reg, OptionMeaning(kind, key, options[key], map[])) {
      OptionSlotless(reg, kind, key, options[key]);
    }
  }

  /** Equal instances are made of equal feeds, as far as the component looks at them. */
  lemma InstantiateAlike(reg: Registry, p: Parsed, q: Parsed)
    requires PlainRegistry(reg) && p.kind in reg.components && PlainWords(reg, p.kind, p.params) && ParsedAlike(p, q)
    ensures Instantiate(reg, p).Some? <==> Instantiate(reg, q).Some?
    ensures Instantiate(reg, p).Some? ==>
              (Instantiate(reg, p) == Instantiate(reg, q) <==> FedAllSame(reg.components[p.kind], p.feeds, q.feeds))
  {
    hide FeedAll, FedAllSame, FeedsAlike, MeaningsAlike, SameShape, NoSlots;
    var cfg := reg.configure(p.kind, p.params);
    if cfg.Some? {
      var c, start := reg.components[p.kind], Draft(OptionsMeaning(p.kind, cfg.value.options, map[]), map[]);
      FeedAllAlike(reg, c, start, p.feeds, q.feeds);
      if FedAllSame(c, p.feeds, q.feeds) {
        if c.inputs != [] {
          FedAllIsEqual(c, p.feeds, q.feeds);
        } else {
          assert PlainConfig(reg, c, p.kind, p.params, cfg.value.options);
          ConfiguredSlotless(reg, p.kind, cfg.value.options);
          SlotlessFeeds(reg, c, start, p.feeds);
          SlotlessFeeds(reg, c, start, q.feeds);
        }
      }
    }
  }
}
