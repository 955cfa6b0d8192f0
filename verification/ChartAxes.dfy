/** Y-axes of the chart panes: which axis a series uses, what it is linked to, where panes lie. */
module ChartAxes {
  import opened Wrappers
  import Graph

  datatype Axis = Axis(index: nat, top: nat, height: nat)

  /** What the manager reads of a transform.  Connections come in whatever order the map yields. */
  datatype Transform = Transform(
    id: string,
    timeframe: string,
    drawn: bool,
    ownAxis: bool,
    name: string,
    connections: seq<seq<string>>,
    outputs: seq<string>,
    sessionRange: Option<(int, int)>)

  /** One timeframe's part of the manager's tables. */
  datatype Board = Board(axes: seq<Axis>, axisOf: map<string, nat>, order: seq<string>, named: map<string, nat>)

  const PRICE_KEYS := {"o", "h", "l", "c"}
  const VOLUME_KEY := "v"

  // ---------------------------------------------------------------------- pane layout

  /** static_cast<uint8_t> of a non-negative number. */
  function ToUint8(x: real): nat
    requires x >= 0.0
  {
    x.Floor % 256
  }

  function PaneHeight(n: nat): real { 100.0 / ((n + 1) as real) }

  /** Where the i-th share ends. */
  function Edge(n: nat, i: nat): real { i as real * PaneHeight(n) }

  function TopOf(n: nat, i: nat): nat { if i == 0 then 0 else ToUint8(Edge(n, i + 1)) }

  function HeightOf(n: nat, i: nat): nat { if i == 0 then ToUint8(Edge(n, 2)) else ToUint8(PaneHeight(n)) }

  /** Price gets two shares, every other pane one; up to two panes keep what they have. */
  function Layout(axes: seq<Axis>): seq<Axis> {
    if |axes| <= 2 then axes
    else seq(|axes|, i requires 0 <= i < |axes| => Axis(axes[i].index, TopOf(|axes|, i), HeightOf(|axes|, i)))
  }

  lemma FloorSum(a: real, p: real)
    requires a >= 0.0 && p >= 0.0
    ensures a.Floor + p.Floor <= (a + p).Floor <= a.Floor + p.Floor + 1
  {
  }

  lemma Shares(n: nat, i: nat)
    requires i <= n
    ensures 0.0 <= Edge(n, i) <= Edge(n, i + 1) <= 100.0
    ensures Edge(n, i + 1) == Edge(n, i) + PaneHeight(n)
    ensures Edge(n, n + 1) == 100.0 && 0.0 < PaneHeight(n) <= 100.0
  {
    var p := PaneHeight(n);
    assert (n + 1) as real * p == 100.0;
    assert (i + 1) as real == i as real + 1.0;
    assert (i as real + 1.0) * p == i as real * p + p;
    assert (i + 1) as real * p <= (n + 1) as real * p;
  }

  lemma NoTruncation(x: real)
    requires 0.0 <= x <= 100.0
    ensures ToUint8(x) == x.Floor <= 100
  {
  }

  /** Neighbouring panes never overlap and leave at most one point between them. */
  lemma PanesInOrder(n: nat, i: nat)
    requires n >= 3 && i + 1 < n
    ensures TopOf(n, i) + HeightOf(n, i) <= TopOf(n, i + 1) <= TopOf(n, i) + HeightOf(n, i) + 1
  {
    hide PaneHeight, ToUint8, Edge;
    Shares(n, 1);
    Shares(n, i + 1);
    NoTruncation(Edge(n, i + 1));
    NoTruncation(Edge(n, i + 2));
    NoTruncation(PaneHeight(n));
    FloorSum(Edge(n, i + 1), PaneHeight(n));
  }

  /** The first pane starts at the top; the last one ends at the bottom, or one point above it. */
  lemma PanesFit(n: nat)
    requires n >= 3
    ensures TopOf(n, 0) == 0 && 99 <= TopOf(n, n - 1) + HeightOf(n, n - 1) <= 100
  {
    hide PaneHeight, ToUint8, Edge;
    Shares(n, n);
    NoTruncation(Edge(n, n));
    NoTruncation(PaneHeight(n));
    FloorSum(Edge(n, n), PaneHeight(n));
  }

  /** The price pane is twice as high as any other, but for a point lost to truncation. */
  lemma PriceIsDouble(n: nat, i: nat)
    requires n >= 3 && 0 < i < n
    ensures 2 * HeightOf(n, i) <= HeightOf(n, 0) <= 2 * HeightOf(n, i) + 1
  {
    hide PaneHeight, ToUint8, Edge;
    Shares(n, 0);
    Shares(n, 1);
    NoEdge(n);
    NoTruncation(Edge(n, 2));
    NoTruncation(PaneHeight(n));
    FloorSum(PaneHeight(n), PaneHeight(n));
  }

  /** A real quotient rounded down is the quotient of whole numbers. */
  lemma QuotientFloor(a: nat, m: nat)
    requires m > 0
    ensures (a as real * (100.0 / (m as real))).Floor == 100 * a / m
  {
    var x, q := a as real * (100.0 / (m as real)), 100 * a / m;
    var y := m as real;
    assert x * y == 100.0 * (a as real) by { assert 100.0 / y * y == 100.0; }
    assert q * m <= 100 * a < (q + 1) * m;
    assert (q * m) as real == q as real * y && ((q + 1) * m) as real == (q as real + 1.0) * y;
    assert (100 * a) as real == 100.0 * (a as real);
    RealQuotient(x, y, q as real);
  }

  lemma RealQuotient(x: real, y: real, q: real)
    requires y > 0.0 && q * y <= x * y < (q + 1.0) * y
    ensures q <= x < q + 1.0
  {
    assert (x - q) * y == x * y - q * y && (x - (q + 1.0)) * y == x * y - (q + 1.0) * y;
    ProductSign(x - q, y);
    ProductSign(x - (q + 1.0), y);
  }

  /** k of the n + 1 shares of a hundred points, rounded down. */
  function Points(k: nat, n: nat): nat { 100 * k / (n + 1) }

  /** Panes in whole points: of n + 1 shares the price has the first two and every other pane one. */
  lemma PanesExactly(n: nat, i: nat)
    requires n >= 3 && i < n
    ensures TopOf(n, i) == if i == 0 then 0 else Points(i + 1, n)
    ensures HeightOf(n, i) == Points(if i == 0 then 2 else 1, n)
  {
    hide ToUint8;
    Shares(n, 1);
    Shares(n, i);
    NoTruncation(Edge(n, i + 1));
    NoTruncation(Edge(n, 2));
    NoTruncation(PaneHeight(n));
    QuotientFloor(i + 1, n + 1);
    QuotientFloor(2, n + 1);
    QuotientFloor(1, n + 1);
  }

  lemma NoEdge(n: nat)
    ensures Edge(n, 0) == 0.0
  {
  }

  lemma ProductSign(a: real, x: real)
    requires x > 0.0
    ensures a * x >= 0.0 <==> a >= 0.0
  {
  }

  /** A pane has room exactly while there are fewer than a hundred of them. */
  lemma PanesVisible(n: nat, i: nat)
    requires n >= 3 && 0 < i < n
    ensures HeightOf(n, i) > 0 <==> n < 100
  {
    hide PaneHeight;
    var p, x := PaneHeight(n), (n + 1) as real;
    Shares(n, 1);
    NoTruncation(p);
    assert (p - 1.0) * x == x * p - x;
    ProductSign(p - 1.0, x);
    assert p >= 1.0 <==> x <= 100.0;
  }

  // --------------------------------------------------------------------- specification

  const NO_BOARD := Board([], map[], [], map[])

  function Registered(b: Board, id: string, axis: nat): Board {
    b.(axisOf := b.axisOf[id := axis], order := b.order + [id])
  }

  /** std::uint8_t index of the next axis. */
  function NextIndex(b: Board): nat { |b.axes| % 256 }

  function WithAxis(b: Board): Board { b.(axes := Layout(b.axes + [Axis(NextIndex(b), 0, 0)])) }

  function AxisFor(b: Board, name: string): nat { if name in b.named then b.named[name] else NextIndex(b) }

  function WithNamedAxis(b: Board, name: string): Board {
    if name in b.named then b else WithAxis(b).(named := b.named[name := NextIndex(b)])
  }

  /** The first connection of a list that is another transform's output. */
  function FirstChained(handles: seq<string>, seriesOf: map<string, nat>): string {
    if handles == [] then ""
    else if handles[0] in seriesOf then "_CHAINED_" + handles[0]
    else FirstChained(handles[1..], seriesOf)
  }

  /** One marker per input that is chained. */
  function ChainSuffix(connections: seq<seq<string>>, seriesOf: map<string, nat>): string {
    if connections == [] then ""
    else ChainSuffix(connections[..|connections| - 1], seriesOf) +
         FirstChained(connections[|connections| - 1], seriesOf)
  }

  function Flatten(connections: seq<seq<string>>): seq<string> {
    if connections == [] then [] else Flatten(connections[..|connections| - 1]) + connections[|connections| - 1]
  }

  /** The first connection whose series is known on this board. */
  function Parent(handles: seq<string>, seriesOf: map<string, nat>, known: nat): (r: Option<nat>)
    ensures r.Some? ==> r.value < known
  {
    if handles == [] then None
    else if handles[0] in seriesOf && seriesOf[handles[0]] < known then Some(seriesOf[handles[0]])
    else Parent(handles[1..], seriesOf, known)
  }

  /** The column part of "node#column". */
  function ColumnOf(handle: string): string {
    if Graph.HasHash(handle) then Graph.PortOf(handle)[1..] else handle
  }

  predicate ReadsPrice(t: Transform) { exists h :: h in Flatten(t.connections) && ColumnOf(h) in PRICE_KEYS }

  predicate ReadsVolume(t: Transform) { exists h :: h in Flatten(t.connections) && ColumnOf(h) == VOLUME_KEY }

  function SeriesIn(order: seq<string>, i: nat): Option<string> { if i < |order| then Some(order[i]) else None }

  /** Inherited axis, then price, then volume, then price by default. */
  function Inherited(b: Board, t: Transform, seriesOf: map<string, nat>): (nat, Option<string>) {
    match Parent(Flatten(t.connections), seriesOf, |b.order|)
    case Some(i) =>
      (if i < |b.order| && b.order[i] in b.axisOf then b.axisOf[b.order[i]] else 0, SeriesIn(b.order, i))
    case None =>
      if !ReadsPrice(t) && ReadsVolume(t) then (1, SeriesIn(b.order, 1)) else (0, SeriesIn(b.order, 0))
  }

  function NameOf(t: Transform, seriesOf: map<string, nat>): string { t.name + ChainSuffix(t.connections, seriesOf) }

  function AssignedBoard(b: Board, t: Transform, seriesOf: map<string, nat>): Board {
    if t.ownAxis then WithNamedAxis(b, NameOf(t, seriesOf)) else b
  }

  function Assigned(b: Board, t: Transform, seriesOf: map<string, nat>): (nat, Option<string>) {
    if t.ownAxis then (AxisFor(b, NameOf(t, seriesOf)), None) else Inherited(b, t, seriesOf)
  }

  // ---------------------------------------------------------------------- run invariant

  datatype Series = Series(id: string, yAxis: nat, linkedTo: Option<string>)

  /** A link names an earlier series on the same axis. */
  ghost predicate Linked(series: seq<Series>) {
    forall i :: 0 <= i < |series| && series[i].linkedTo.Some? ==>
      exists j :: 0 <= j < i && series[j].id == series[i].linkedTo.value && series[j].yAxis == series[i].yAxis
  }

  /** Descriptive names and the axes from 2 up correspond one to one. */
  ghost predicate NamesBiject(b: Board) {
    && (forall n :: n in b.named ==> 2 <= b.named[n] < |b.axes|)
    && (forall m, n :: m in b.named && n in b.named && b.named[m] == b.named[n] ==> m == n)
    && (forall a :: 2 <= a < |b.axes| ==> HasName(b, a))
  }

  ghost predicate HasName(b: Board, a: nat) { exists n :: n in b.named && b.named[n] == a }

  /** The board's series are the pane's, position by position, each on its recorded axis. */
  ghost predicate SeriesMatch(b: Board, series: seq<Series>) {
    && |b.order| == |series| && (forall i :: 0 <= i < |series| ==> b.order[i] == series[i].id)
    && (forall i :: 0 <= i < |series| ==>
          series[i].id in b.axisOf && b.axisOf[series[i].id] == series[i].yAxis < |b.axes|)
    && (forall i, j :: 0 <= i < j < |series| ==> series[i].id != series[j].id)
    && |series| >= 2 && series[0].yAxis == 0 && series[1].yAxis == 1
  }

  ghost predicate BoardOk(b: Board, series: seq<Series>) {
    && |b.axes| >= 2 && (forall i :: 0 <= i < |b.axes| ==> b.axes[i].index == i)
    && SeriesMatch(b, series) && Linked(series) && NamesBiject(b)
  }

  lemma WithNamedAxisOk(b: Board, series: seq<Series>, name: string)
    requires BoardOk(b, series) && (name in b.named || |b.axes| < 256)
    ensures BoardOk(WithNamedAxis(b, name), series)
    ensures 2 <= AxisFor(b, name) < |WithNamedAxis(b, name).axes| == |b.axes| + (if name in b.named then 0 else 1)
  {
    if name !in b.named {
      var b' := WithNamedAxis(b, name);
      assert |b'.axes| == |b.axes| + 1;
      forall a | 2 <= a < |b'.axes| ensures HasName(b', a) {
        if a < |b.axes| {
          assert HasName(b, a);
          var n :| n in b.named && b.named[n] == a;
          assert n in b'.named && b'.named[n] == a;
        } else {
          assert name in b'.named && b'.named[name] == a;
        }
      }
    }
  }

  /** Inheritance in terms of the series drawn so far. */
  function InheritedFrom(series: seq<Series>, t: Transform, seriesOf: map<string, nat>): (nat, Option<string>)
    requires |series| >= 2
  {
    match Parent(Flatten(t.connections), seriesOf, |series|)
    case Some(i) => (series[i].yAxis, Some(series[i].id))
    case None =>
      if !ReadsPrice(t) && ReadsVolume(t) then (1, Some(series[1].id)) else (0, Some(series[0].id))
  }

  lemma InheritedIsFrom(b: Board, series: seq<Series>, t: Transform, seriesOf: map<string, nat>)
    requires BoardOk(b, series)
    ensures Inherited(b, t, seriesOf) == InheritedFrom(series, t, seriesOf)
  {
    hide ReadsPrice, ReadsVolume, Linked, NamesBiject;
    var p := Parent(Flatten(t.connections), seriesOf, |b.order|);
    if p.Some? { assert series[p.value].id == b.order[p.value]; }
    assert series[0].id == b.order[0] && series[1].id == b.order[1];
  }

  /** The axis found exists, and the link goes to an earlier series on it. */
  lemma InheritedOk(b: Board, series: seq<Series>, t: Transform, seriesOf: map<string, nat>)
    requires BoardOk(b, series)
    ensures var (axis, link) := Inherited(b, t, seriesOf);
            axis < |b.axes| && link.Some?
            && exists j :: 0 <= j < |series| && series[j].id == link.value && series[j].yAxis == axis
  {
    match Parent(Flatten(t.connections), seriesOf, |b.order|)
    case Some(i) => assert series[i].id == b.order[i];
    case None => assert series[0].id == b.order[0] && series[1].id == b.order[1];
  }

  lemma RegisteredOk(b: Board, series: seq<Series>, s: Series)
    requires BoardOk(b, series) && s.yAxis < |b.axes| && forall i :: 0 <= i < |series| ==> series[i].id != s.id
    requires s.linkedTo.Some? ==>
               exists j :: 0 <= j < |series| && series[j].id == s.linkedTo.value && series[j].yAxis == s.yAxis
    ensures BoardOk(Registered(b, s.id, s.yAxis), series + [s])
  {
    var all := series + [s];
    forall a | 2 <= a < |b.axes| ensures HasName(Registered(b, s.id, s.yAxis), a) { assert HasName(b, a); }
    forall i | 0 <= i < |all| && all[i].linkedTo.Some?
      ensures exists j :: 0 <= j < i && all[j].id == all[i].linkedTo.value && all[j].yAxis == all[i].yAxis
    {
      var j :| 0 <= j < |series| && (i < |series| ==> j < i) && series[j].id == all[i].linkedTo.value &&
               series[j].yAxis == all[i].yAxis;
      assert all[j] == series[j];
    }
  }

  /** One transform: the invariant is kept, with a new series at the end. */
  lemma AssignOk(b: Board, series: seq<Series>, t: Transform, seriesOf: map<string, nat>)
    requires BoardOk(b, series) && (t.ownAxis ==> NameOf(t, seriesOf) in b.named || |b.axes| < 256)
    requires forall i :: 0 <= i < |series| ==> series[i].id != t.id
    ensures var (axis, link) := Assigned(b, t, seriesOf);
            var b' := AssignedBoard(b, t, seriesOf);
            BoardOk(Registered(b', t.id, axis), series + [Series(t.id, axis, link)])
            && |b'.axes| == |b.axes| + (if t.ownAxis && NameOf(t, seriesOf) !in b.named then 1 else 0)
  {
    hide BoardOk, Inherited, NameOf, WithNamedAxis, AxisFor;
    var (axis, link) := Assigned(b, t, seriesOf);
    var b' := AssignedBoard(b, t, seriesOf);
    if t.ownAxis {
      WithNamedAxisOk(b, series, NameOf(t, seriesOf));
    } else {
      InheritedOk(b, series, t, seriesOf);
    }
    RegisteredOk(b', series, Series(t.id, axis, link));
  }

  /** A new axis is numbered by its position exactly below 256 axes; the 257th is number 0 again. */
  lemma IndexExact(b: Board, name: string)
    requires name !in b.named && |b.axes| <= 256
    ensures AxisFor(b, name) == |b.axes| <==> |b.axes| < 256
  {
  }

  /** Once there are indicator panes, every axis is where the layout puts it. */
  ghost predicate LaidOut(b: Board) {
    && |b.axes| >= 2
    && (|b.axes| == 2 ==> b.axes == BASE_AXES)
    && (|b.axes| > 2 ==>
          forall i :: 0 <= i < |b.axes| ==>
            b.axes[i].top == TopOf(|b.axes|, i) && b.axes[i].height == HeightOf(|b.axes|, i))
  }

  lemma AssignKeepsLayout(b: Board, t: Transform, seriesOf: map<string, nat>)
    requires LaidOut(b)
    ensures LaidOut(AssignedBoard(b, t, seriesOf))
  {
    hide TopOf, HeightOf, NameOf;
  }

  // ------------------------------------------------------------------------ the manager

  const BASE_AXES := [Axis(0, 0, 85), Axis(1, 85, 15)]

  /** AssignAxis starts a missing timeframe differently; the provider never gets there. */
  const LATE_BASE_AXES := [Axis(0, 0, 70), Axis(1, 70, 30)]

  function Get<T>(m: map<string, T>, key: string, none: T): T { if key in m then m[key] else none }

  lemma {:induction false} FlattenAppend(a: seq<seq<string>>, b: seq<seq<string>>)
    ensures Flatten(a + b) == Flatten(a) + Flatten(b)
  {
    if b == [] {
      assert a + b == a;
    } else {
      assert (a + b)[..|a + b| - 1] == a + b[..|b| - 1];
      FlattenAppend(a, b[..|b| - 1]);
    }
  }

  lemma FlattenOne(list: seq<string>)
    ensures Flatten([list]) == list
  {
    assert [list][..0] == [];
  }

  lemma {:induction false} ParentAppend(a: seq<string>, b: seq<string>, seriesOf: map<string, nat>, known: nat)
    ensures Parent(a + b, seriesOf, known)
            == if Parent(a, seriesOf, known).Some? then Parent(a, seriesOf, known) else Parent(b, seriesOf, known)
  {
    if a == [] {
      assert a + b == b;
    } else {
      assert (a + b)[1..] == a[1..] + b;
      ParentAppend(a[1..], b, seriesOf, known);
    }
  }

  /** No connection before handle k of list i leads to a known series, and that one does. */
  lemma ParentFound(connections: seq<seq<string>>, i: nat, k: nat, seriesOf: map<string, nat>, known: nat)
    requires i < |connections| && k < |connections[i]|
    requires Parent(Flatten(connections[..i]) + connections[i][..k], seriesOf, known).None?
    requires connections[i][k] in seriesOf && seriesOf[connections[i][k]] < known
    ensures Parent(Flatten(connections), seriesOf, known) == Some(seriesOf[connections[i][k]])
  {
    hide Flatten;
    var list, tail := connections[i], connections[i + 1..];
    var before := Flatten(connections[..i]) + list[..k];
    assert connections == connections[..i] + ([list] + tail);
    FlattenAppend(connections[..i], [list] + tail);
    FlattenAppend([list], tail);
    FlattenOne(list);
    var rest := list[k..] + Flatten(tail);
    assert Flatten(connections) == before + rest;
    ParentAppend(before, rest, seriesOf, known);
    assert rest[0] == list[k];
  }

  lemma NothingScanned(connections: seq<seq<string>>, seriesOf: map<string, nat>, known: nat)
    ensures Parent(Flatten(connections[..0]), seriesOf, known).None?
  {
  }

  lemma OneScanned(connections: seq<seq<string>>, i: nat, k: nat, seriesOf: map<string, nat>, known: nat)
    requires i < |connections| && k < |connections[i]|
    requires Parent(Flatten(connections[..i]) + connections[i][..k], seriesOf, known).None?
    requires !(connections[i][k] in seriesOf && seriesOf[connections[i][k]] < known)
    ensures Parent(Flatten(connections[..i]) + connections[i][..k + 1], seriesOf, known).None?
  {
    var before, h := Flatten(connections[..i]) + connections[i][..k], connections[i][k];
    assert Flatten(connections[..i]) + connections[i][..k + 1] == before + [h];
    ParentAppend(before, [h], seriesOf, known);
  }

  lemma RowScanned(connections: seq<seq<string>>, i: nat, seriesOf: map<string, nat>, known: nat)
    requires i < |connections|
    requires Parent(Flatten(connections[..i]) + connections[i][..|connections[i]|], seriesOf, known).None?
    ensures Parent(Flatten(connections[..i + 1]), seriesOf, known).None?
  {
    assert connections[i][..|connections[i]|] == connections[i];
    assert connections[..i + 1][..i] == connections[..i];
  }

  /** One pass over the axes, with the running top of the next pane. */
  method Relaid(axes: seq<Axis>) returns (list: seq<Axis>)
    ensures list == Layout(axes)
  {
    hide ToUint8, PaneHeight, Edge;
    list := axes;
    var n := |axes|;
    if n <= 2 { return; }
    Shares(n, 0);
    Shares(n, 1);
    NoEdge(n);
    var paneHeight := PaneHeight(n);
    list := list[0 := list[0].(top := 0, height := ToUint8(paneHeight + paneHeight))];
    var currentTop := paneHeight + paneHeight;
    for i := 1 to n
      invariant |list| == n && currentTop == Edge(n, i + 1) && currentTop >= 0.0
      invariant forall k :: 0 <= k < i ==> list[k] == Axis(axes[k].index, TopOf(n, k), HeightOf(n, k))
      invariant forall k :: i <= k < n ==> list[k] == axes[k]
    {
      Shares(n, i + 1);
      list := list[i := list[i].(top := ToUint8(currentTop), height := ToUint8(paneHeight))];
      currentTop := currentTop + paneHeight;
    }
  }

  class AxisManager {
    var axes: map<string, seq<Axis>>
    var seriesAxisMap: map<string, map<string, nat>>
    var seriesOrder: map<string, seq<string>>
    var indicatorTypeToAxis: map<string, map<string, nat>>

    /** This timeframe's part of the tables. */
    ghost function On(timeframe: string): Board
      reads this
    {
      Board(Get(axes, timeframe, []), Get(seriesAxisMap, timeframe, map[]), Get(seriesOrder, timeframe, []),
            Get(indicatorTypeToAxis, timeframe, map[]))
    }

    constructor ()
      ensures axes == map[] && forall tf :: On(tf) == NO_BOARD
    {
      axes, seriesAxisMap, seriesOrder, indicatorTypeToAxis := map[], map[], map[], map[];
    }

    method InitializeBaseAxes(timeframe: string)
      modifies this`axes
      ensures axes == if timeframe in old(axes) then old(axes) else old(axes)[timeframe := BASE_AXES]
    {
      if timeframe !in axes { axes := axes[timeframe := BASE_AXES]; }
    }

    method RegisterSeries(timeframe: string, seriesId: string, axisIndex: nat)
      modifies this`seriesAxisMap, this`seriesOrder
      ensures On(timeframe) == Registered(old(On(timeframe)), seriesId, axisIndex)
      ensures forall tf :: tf != timeframe ==> On(tf) == old(On(tf))
    {
      seriesAxisMap := seriesAxisMap[timeframe := Get(seriesAxisMap, timeframe, map[])[seriesId := axisIndex]];
      seriesOrder := seriesOrder[timeframe := Get(seriesOrder, timeframe, []) + [seriesId]];
    }

    method RecalculateAxisHeights(timeframe: string)
      requires timeframe in axes
      modifies this`axes
      ensures axes == old(axes)[timeframe := Layout(old(axes[timeframe]))]
    {
      var list := Relaid(axes[timeframe]);
      axes := axes[timeframe := list];
    }

    method CreateIndicatorAxis(timeframe: string) returns (newIndex: nat)
      requires timeframe in axes
      modifies this`axes
      ensures newIndex == NextIndex(old(On(timeframe)))
      ensures axes == old(axes)[timeframe := WithAxis(old(On(timeframe))).axes]
    {
      newIndex := |axes[timeframe]| % 256;
      axes := axes[timeframe := axes[timeframe] + [Axis(newIndex, 0, 0)]];
      RecalculateAxisHeights(timeframe);
    }

    method FindOrCreateIndicatorAxis(timeframe: string, name: string) returns (axis: nat)
      requires timeframe in axes
      modifies this`axes, this`indicatorTypeToAxis
      ensures axis == AxisFor(old(On(timeframe)), name)
      ensures On(timeframe) == WithNamedAxis(old(On(timeframe)), name)
      ensures axes.Keys == old(axes.Keys) && forall tf :: tf != timeframe ==> On(tf) == old(On(tf))
    {
      var known := Get(indicatorTypeToAxis, timeframe, map[]);
      if name in known { return known[name]; }
      axis := CreateIndicatorAxis(timeframe);
      indicatorTypeToAxis := indicatorTypeToAxis[timeframe := known[name := axis]];
    }

    method DetermineAxisFromInputs(t: Transform, timeframe: string, seriesOf: map<string, nat>)
      returns (axis: nat, linkedTo: Option<string>)
      ensures (axis, linkedTo) == Inherited(On(timeframe), t, seriesOf)
    {
      hide ReadsPrice, ReadsVolume, Flatten, Parent;
      var order, axisOf := Get(seriesOrder, timeframe, []), Get(seriesAxisMap, timeframe, map[]);
      NothingScanned(t.connections, seriesOf, |order|);
      for i := 0 to |t.connections|
        invariant Parent(Flatten(t.connections[..i]), seriesOf, |order|).None?
      {
        var handles := t.connections[i];
        assert Flatten(t.connections[..i]) + handles[..0] == Flatten(t.connections[..i]);
        for k := 0 to |handles|
          invariant Parent(Flatten(t.connections[..i]) + handles[..k], seriesOf, |order|).None?
        {
          if handles[k] in seriesOf && seriesOf[handles[k]] < |order| {
            ParentFound(t.connections, i, k, seriesOf, |order|);
            var parent := order[seriesOf[handles[k]]];
            return Get(axisOf, parent, 0), Some(parent);
          }
          OneScanned(t.connections, i, k, seriesOf, |order|);
        }
        RowScanned(t.connections, i, seriesOf, |order|);
      }
      assert t.connections[..|t.connections|] == t.connections;
      if ReadsPrice(t) { return 0, SeriesIn(order, 0); }
      if ReadsVolume(t) { return 1, SeriesIn(order, 1); }
      return 0, SeriesIn(order, 0);
    }

    /** The axis of a transform and the series it is linked to. */
    method AssignAxis(t: Transform, timeframe: string, seriesOf: map<string, nat>)
      returns (axis: nat, linkedTo: Option<string>)
      modifies this`axes, this`indicatorTypeToAxis
      ensures var b := if timeframe in old(axes) then old(On(timeframe))
              else old(On(timeframe)).(axes := LATE_BASE_AXES);
              (axis, linkedTo) == Assigned(b, t, seriesOf) && On(timeframe) == AssignedBoard(b, t, seriesOf)
      ensures axes.Keys == old(axes.Keys) + {timeframe} && forall tf :: tf != timeframe ==> On(tf) == old(On(tf))
      ensures timeframe !in old(axes) && !t.ownAxis ==> axes[timeframe] == [Axis(0, 0, 70), Axis(1, 70, 30)]
    {
      hide Inherited, WithNamedAxis, AxisFor, ChainSuffix;
      if timeframe !in axes { axes := axes[timeframe := LATE_BASE_AXES]; }
      if t.ownAxis {
        axis := FindOrCreateIndicatorAxis(timeframe, t.name + ChainSuffix(t.connections, seriesOf));
        linkedTo := None;
      } else {
        axis, linkedTo := DetermineAxisFromInputs(t, timeframe, seriesOf);
      }
    }
  }

  // ------------------------------------------------------- the axis, connection by connection

  /** The handle is the column alone, or an id, '#' and the column. */
  ghost predicate NamesColumn(handle: string, column: string) {
    ('#' !in handle && handle == column) || exists id: string :: '#' !in id && handle == id + "#" + column
  }

  ghost predicate Takes(t: Transform, column: string) {
    exists i, k :: 0 <= i < |t.connections| && 0 <= k < |t.connections[i]| && NamesColumn(t.connections[i][k], column)
  }

  /** The series has been drawn on this board already. */
  predicate Drawn(handle: string, seriesOf: map<string, nat>, known: nat) {
    handle in seriesOf && seriesOf[handle] < known
  }

  ghost predicate NoneDrawn(t: Transform, seriesOf: map<string, nat>, known: nat) {
    forall i, k :: 0 <= i < |t.connections| && 0 <= k < |t.connections[i]| ==>
      !Drawn(t.connections[i][k], seriesOf, known)
  }

  /** Handle k of list i has been drawn, and no handle before it has. */
  ghost predicate FirstDrawn(t: Transform, i: nat, k: nat, seriesOf: map<string, nat>, known: nat) {
    && i < |t.connections| && k < |t.connections[i]| && Drawn(t.connections[i][k], seriesOf, known)
    && (forall m, n :: 0 <= m < i && 0 <= n < |t.connections[m]| ==> !Drawn(t.connections[m][n], seriesOf, known))
    && (forall n :: 0 <= n < k ==> !Drawn(t.connections[i][n], seriesOf, known))
  }

  lemma ColumnIs(handle: string, column: string)
    ensures ColumnOf(handle) == column <==> NamesColumn(handle, column)
  {
    if ColumnOf(handle) == column {
      if Graph.HasHash(handle) {
        var id := Graph.NodeOf(handle);
        assert handle == id + "#" + column;
      } else {
        assert handle[..|handle|] == handle;
      }
    }
    forall id: string | '#' !in id && handle == id + "#" + column ensures ColumnOf(handle) == column {
      assert handle == Graph.JoinId(id, column);
      Graph.SplitJoined(id, column);
    }
  }

  lemma {:induction false} FlattenMembers(connections: seq<seq<string>>, h: string)
    ensures h in Flatten(connections) <==>
            exists i, k :: 0 <= i < |connections| && 0 <= k < |connections[i]| && connections[i][k] == h
  {
    if connections != [] {
      var n := |connections| - 1;
      FlattenMembers(connections[..n], h);
      if h in Flatten(connections[..n]) {
        var i, k :| 0 <= i < n && 0 <= k < |connections[..n][i]| && connections[..n][i][k] == h;
        assert connections[i][k] == h;
      }
    }
  }

  lemma {:induction false} NoParent(handles: seq<string>, seriesOf: map<string, nat>, known: nat)
    requires forall h :: h in handles ==> !Drawn(h, seriesOf, known)
    ensures Parent(handles, seriesOf, known).None?
  {
    if handles != [] {
      assert handles[0] in handles;
      NoParent(handles[1..], seriesOf, known);
    }
  }

  lemma ReadsAre(t: Transform)
    ensures ReadsPrice(t) <==> Takes(t, "o") || Takes(t, "h") || Takes(t, "l") || Takes(t, "c")
    ensures ReadsVolume(t) <==> Takes(t, "v")
  {
    hide ColumnOf, NamesColumn, Flatten;
    forall h ensures h in Flatten(t.connections) <==>
                     exists i, k :: 0 <= i < |t.connections| && 0 <= k < |t.connections[i]| && t.connections[i][k] == h
    {
      FlattenMembers(t.connections, h);
    }
    forall h, column ensures ColumnOf(h) == column <==> NamesColumn(h, column) { ColumnIs(h, column); }
    forall column ensures (exists h :: h in Flatten(t.connections) && NamesColumn(h, column)) <==> Takes(t, column) {
      forall i, k | 0 <= i < |t.connections| && 0 <= k < |t.connections[i]|
        ensures t.connections[i][k] in Flatten(t.connections)
      {
      }
    }
  }

  /**
   A transform without an axis of its own goes to the first series it reads that is drawn
   already.  When it reads none, it goes to the volume bars if it takes the volume and no price,
   and to the candles otherwise.
   */
  lemma AxisExactly(b: Board, t: Transform, seriesOf: map<string, nat>)
    requires !t.ownAxis && |b.order| >= 2
    ensures forall i: nat, k: nat :: FirstDrawn(t, i, k, seriesOf, |b.order|) ==>
              var (axis, link) := Assigned(b, t, seriesOf);
              var parent := b.order[seriesOf[t.connections[i][k]]];
              link == Some(parent) && (parent in b.axisOf ==> axis == b.axisOf[parent])
    ensures NoneDrawn(t, seriesOf, |b.order|) ==>
              Assigned(b, t, seriesOf) ==
              if Takes(t, "v") && !Takes(t, "o") && !Takes(t, "h") && !Takes(t, "l") && !Takes(t, "c")
              then (1, Some(b.order[1])) else (0, Some(b.order[0]))
  {
    hide ReadsPrice, ReadsVolume, Takes, Parent, Flatten;
    ReadsAre(t);
    forall i: nat, k: nat | FirstDrawn(t, i, k, seriesOf, |b.order|)
      ensures Parent(Flatten(t.connections), seriesOf, |b.order|) == Some(seriesOf[t.connections[i][k]])
    {
      FirstIsParent(t, i, k, seriesOf, |b.order|);
    }
    if NoneDrawn(t, seriesOf, |b.order|) { NoneIsParent(t, seriesOf, |b.order|); }
  }

  lemma FirstIsParent(t: Transform, i: nat, k: nat, seriesOf: map<string, nat>, known: nat)
    requires FirstDrawn(t, i, k, seriesOf, known)
    ensures Parent(Flatten(t.connections), seriesOf, known) == Some(seriesOf[t.connections[i][k]])
  {
    hide Parent, Flatten;
    var before := Flatten(t.connections[..i]) + t.connections[i][..k];
    forall h | h in before ensures !Drawn(h, seriesOf, known) { FlattenMembers(t.connections[..i], h); }
    NoParent(before, seriesOf, known);
    ParentFound(t.connections, i, k, seriesOf, known);
  }

  lemma NoneIsParent(t: Transform, seriesOf: map<string, nat>, known: nat)
    requires NoneDrawn(t, seriesOf, known)
    ensures Parent(Flatten(t.connections), seriesOf, known).None?
  {
    hide Parent, Flatten;
    forall h | h in Flatten(t.connections) ensures !Drawn(h, seriesOf, known) { FlattenMembers(t.connections, h); }
    NoParent(Flatten(t.connections), seriesOf, known);
  }

  predicate Chained(handle: string, seriesOf: map<string, nat>) { handle in seriesOf }

  /** No input of the first n is another transform's output, except input `at`. */
  ghost predicate ChainedOnlyAt(t: Transform, n: nat, at: int, seriesOf: map<string, nat>)
    requires n <= |t.connections|
  {
    forall i, k :: 0 <= i < n && i != at && 0 <= k < |t.connections[i]| ==> !Chained(t.connections[i][k], seriesOf)
  }

  lemma {:induction false} NothingChained(handles: seq<string>, seriesOf: map<string, nat>)
    requires forall k :: 0 <= k < |handles| ==> !Chained(handles[k], seriesOf)
    ensures FirstChained(handles, seriesOf) == ""
  {
    if handles != [] { NothingChained(handles[1..], seriesOf); }
  }

  lemma {:induction false} ChainedAt(handles: seq<string>, k: nat, seriesOf: map<string, nat>)
    requires k < |handles| && Chained(handles[k], seriesOf)
    requires forall j :: 0 <= j < k ==> !Chained(handles[j], seriesOf)
    ensures FirstChained(handles, seriesOf) == "_CHAINED_" + handles[k]
  {
    if k > 0 { ChainedAt(handles[1..], k - 1, seriesOf); }
  }

  lemma {:induction false} UnchainedSuffix(t: Transform, n: nat, seriesOf: map<string, nat>)
    requires n <= |t.connections| && ChainedOnlyAt(t, n, -1, seriesOf)
    ensures ChainSuffix(t.connections[..n], seriesOf) == ""
  {
    if n > 0 {
      UnchainedSuffix(t, n - 1, seriesOf);
      assert t.connections[..n][..n - 1] == t.connections[..n - 1];
      NothingChained(t.connections[n - 1], seriesOf);
    }
  }

  lemma {:induction false} ChainedSuffix(t: Transform, n: nat, i: nat, k: nat, seriesOf: map<string, nat>)
    requires i < n <= |t.connections| && ChainedOnlyAt(t, n, i, seriesOf)
    requires k < |t.connections[i]| && Chained(t.connections[i][k], seriesOf)
    requires forall j :: 0 <= j < k ==> !Chained(t.connections[i][j], seriesOf)
    ensures ChainSuffix(t.connections[..n], seriesOf) == "_CHAINED_" + t.connections[i][k]
  {
    assert t.connections[..n][..n - 1] == t.connections[..n - 1];
    if i == n - 1 {
      UnchainedSuffix(t, n - 1, seriesOf);
      ChainedAt(t.connections[i], k, seriesOf);
    } else {
      ChainedSuffix(t, n - 1, i, k, seriesOf);
      NothingChained(t.connections[n - 1], seriesOf);
    }
  }

  /** The name of an own axis: the transform's, and what it is chained to when one input is chained. */
  lemma NameExactly(t: Transform, seriesOf: map<string, nat>)
    ensures ChainedOnlyAt(t, |t.connections|, -1, seriesOf) ==> NameOf(t, seriesOf) == t.name
    ensures forall i: nat, k: nat ::
              i < |t.connections| && k < |t.connections[i]| && Chained(t.connections[i][k], seriesOf)
              && (forall j :: 0 <= j < k ==> !Chained(t.connections[i][j], seriesOf))
              && ChainedOnlyAt(t, |t.connections|, i, seriesOf) ==>
                NameOf(t, seriesOf) == t.name + "_CHAINED_" + t.connections[i][k]
  {
    var n := |t.connections|;
    assert t.connections[..n] == t.connections;
    if ChainedOnlyAt(t, n, -1, seriesOf) { UnchainedSuffix(t, n, seriesOf); }
    forall i: nat, k: nat |
      i < n && k < |t.connections[i]| && Chained(t.connections[i][k], seriesOf)
      && (forall j :: 0 <= j < k ==> !Chained(t.connections[i][j], seriesOf)) && ChainedOnlyAt(t, n, i, seriesOf)
      ensures NameOf(t, seriesOf) == t.name + "_CHAINED_" + t.connections[i][k]
    {
      ChainedSuffix(t, n, i, k, seriesOf);
    }
  }
}
