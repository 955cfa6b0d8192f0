/** The chart provider: base panes first, then one pass over the transforms. */
module ChartPanes {
  import opened Wrappers
  import opened ChartAxes

  datatype YAxis = YAxis(top: nat, height: nat)

  datatype Pane = Pane(yAxis: seq<YAxis>, series: seq<Series>, sessionRanges: seq<(int, int)>)

  function CandlestickId(tf: string): string { tf + "_candlestick" }

  function VolumeId(tf: string): string { tf + "_volume" }

  lemma BaseIdsDiffer(tf: string)
    ensures CandlestickId(tf) != VolumeId(tf)
  {
    assert CandlestickId(tf)[|tf| + 1] == 'c' && VolumeId(tf)[|tf| + 1] == 'v';
  }

  function Positions(axes: seq<Axis>): seq<YAxis> {
    seq(|axes|, i requires 0 <= i < |axes| => YAxis(axes[i].top, axes[i].height))
  }

  // ---------------------------------------------------------------- what the input asks

  predicate DrawnOn(t: Transform, tf: string) { t.drawn && t.timeframe == tf }

  /** The transforms that get a series in this pane, in order. */
  function DrawnIds(ts: seq<Transform>, tf: string): seq<string> {
    if ts == [] then []
    else DrawnIds(ts[..|ts| - 1], tf) + (if DrawnOn(ts[|ts| - 1], tf) then [ts[|ts| - 1].id] else [])
  }

  /** Session ranges of the pane's transforms, drawn or not, each once. */
  function Ranges(ts: seq<Transform>, tf: string): seq<(int, int)> {
    if ts == [] then []
    else
      var before, t := Ranges(ts[..|ts| - 1], tf), ts[|ts| - 1];
      if t.timeframe == tf && t.sessionRange.Some? && t.sessionRange.value !in before
      then before + [t.sessionRange.value] else before
  }

  lemma {:induction false} DrawnIdsAreTransforms(ts: seq<Transform>, tf: string, id: string)
    requires id in DrawnIds(ts, tf)
    ensures exists i :: 0 <= i < |ts| && ts[i].id == id && ts[i].timeframe == tf
  {
    var n := |ts| - 1;
    if id in DrawnIds(ts[..n], tf) {
      DrawnIdsAreTransforms(ts[..n], tf, id);
      var i :| 0 <= i < n && ts[..n][i].id == id && ts[..n][i].timeframe == tf;
      assert ts[i].id == id;
    }
  }

  // ------------------------------------------------------------- handles and their series

  /** Every output handle now leads to the series just added. */
  function WithOutputs(seriesOf: map<string, nat>, outputs: seq<string>, count: nat): map<string, nat> {
    if outputs == [] then seriesOf
    else WithOutputs(seriesOf, outputs[..|outputs| - 1], count)
              [outputs[|outputs| - 1] := if count > 0 then count - 1 else 0]
  }

  /** Where the series of the next transform on this timeframe goes. */
  function Position(ts: seq<Transform>, tf: string): (n: nat)
    ensures n >= 2
  {
    2 + |DrawnIds(ts, tf)|
  }

  /** A transform that gets a series: it is drawn, and its timeframe has a pane. */
  predicate Shown(timeframes: set<string>, t: Transform) { t.drawn && t.timeframe in timeframes }

  /** The table of output handles after these transforms: one table for all timeframes. */
  function Handles(timeframes: set<string>, ts: seq<Transform>): map<string, nat> {
    if ts == [] then map[]
    else
      var before, t := Handles(timeframes, ts[..|ts| - 1]), ts[|ts| - 1];
      if Shown(timeframes, t) then WithOutputs(before, t.outputs, Position(ts, t.timeframe)) else before
  }

  /** Descriptive names of the pane's transforms with an axis of their own. */
  function NamesUsed(timeframes: set<string>, ts: seq<Transform>, tf: string): set<string> {
    if ts == [] then {}
    else
      var before, t := ts[..|ts| - 1], ts[|ts| - 1];
      NamesUsed(timeframes, before, tf)
      + (if DrawnOn(t, tf) && t.ownAxis then {NameOf(t, Handles(timeframes, before))} else {})
  }

  /** Series ids are distinct per pane, and no pane has more than 254 descriptive names: 256 axes. */
  ghost predicate Fits(timeframes: set<string>, ts: seq<Transform>) {
    && (forall tf :: tf in timeframes ==> |NamesUsed(timeframes, ts, tf)| <= 254)
    && (forall i :: 0 <= i < |ts| ==>
          ts[i].id != CandlestickId(ts[i].timeframe) && ts[i].id != VolumeId(ts[i].timeframe))
    && (forall i, j :: 0 <= i < j < |ts| && ts[i].timeframe == ts[j].timeframe ==> ts[i].id != ts[j].id)
  }

  lemma {:induction false} NamesOnlyGrow(timeframes: set<string>, ts: seq<Transform>, tf: string, i: nat)
    requires i <= |ts|
    ensures |NamesUsed(timeframes, ts[..i], tf)| <= |NamesUsed(timeframes, ts, tf)|
  {
    if i < |ts| {
      var before := ts[..|ts| - 1];
      NamesOnlyGrow(timeframes, before, tf, i);
      assert before[..i] == ts[..i];
      var rest := NamesUsed(timeframes, ts, tf) - NamesUsed(timeframes, before, tf);
      assert NamesUsed(timeframes, ts, tf) == NamesUsed(timeframes, before, tf) + rest;
    } else {
      assert ts[..i] == ts;
    }
  }

  lemma NamesSnoc(timeframes: set<string>, ts: seq<Transform>, t: Transform, tf: string)
    ensures NamesUsed(timeframes, ts + [t], tf)
            == NamesUsed(timeframes, ts, tf)
               + (if DrawnOn(t, tf) && t.ownAxis then {NameOf(t, Handles(timeframes, ts))} else {})
  {
    SnocPrefix(ts, t);
  }

  // ------------------------------------------------------------------------ invariant

  /** Series at this position is the transform's, on the axis of its name or of its parent. */
  ghost predicate Placed(b: Board, series: seq<Series>, at: nat, t: Transform, seriesOf: map<string, nat>) {
    && 2 <= at < |series| && series[at].id == t.id
    && if t.ownAxis then
         NameOf(t, seriesOf) in b.named && series[at].yAxis == b.named[NameOf(t, seriesOf)] &&
         series[at].linkedTo == None
       else
         (series[at].yAxis, series[at].linkedTo) == InheritedFrom(series[..at], t, seriesOf)
  }

  /** Every drawn transform of the pane is where it belongs, and axes are named for nothing else. */
  ghost predicate Traced(timeframes: set<string>, b: Board, series: seq<Series>, ts: seq<Transform>, tf: string) {
    && b.named.Keys == NamesUsed(timeframes, ts, tf)
    && forall i :: 0 <= i < |ts| && DrawnOn(ts[i], tf) ==>
         Placed(b, series, Position(ts[..i], tf), ts[i], Handles(timeframes, ts[..i]))
  }

  function IdsOf(series: seq<Series>): seq<string> { seq(|series|, i requires 0 <= i < |series| => series[i].id) }

  /**
   A finished pane: its series are candlestick, volume and the drawn transforms in order, each on
   the axis of its descriptive name or, linked to it, of its parent; descriptive names and
   indicator axes correspond one to one; the axes lie where the layout puts them.
   */
  ghost predicate PaneOk(timeframes: set<string>, b: Board, pane: Pane, ts: seq<Transform>, tf: string) {
    && BoardOk(b, pane.series) && LaidOut(b) && pane.yAxis == Positions(b.axes)
    && Traced(timeframes, b, pane.series, ts, tf)
    && IdsOf(pane.series) == [CandlestickId(tf), VolumeId(tf)] + DrawnIds(ts, tf)
    && |b.axes| == 2 + |NamesUsed(timeframes, ts, tf)|
    && pane.sessionRanges == Ranges(ts, tf)
  }

  lemma BasePaneOk(timeframes: set<string>, b: Board, tf: string, series: seq<Series>)
    requires series == [Series(CandlestickId(tf), 0, None), Series(VolumeId(tf), 1, None)]
    requires b.axes == BASE_AXES && b.named == map[]
    requires b.axisOf == map[CandlestickId(tf) := 0, VolumeId(tf) := 1] && b.order == [CandlestickId(tf), VolumeId(tf)]
    ensures PaneOk(timeframes, b, Pane(Positions(BASE_AXES), series, []), [], tf)
  {
    BaseIdsDiffer(tf);
    assert |BASE_AXES| == 2;
  }

  lemma SnocPrefix(ts: seq<Transform>, t: Transform)
    ensures (ts + [t])[..|ts|] == ts && (ts + [t])[|ts|] == t
    ensures forall i :: 0 <= i < |ts| ==> (ts + [t])[..i] == ts[..i] && (ts + [t])[i] == ts[i]
  {
  }

  lemma TracedWaits(timeframes: set<string>, b: Board, series: seq<Series>, ts: seq<Transform>, t: Transform,
                    tf: string)
    requires Traced(timeframes, b, series, ts, tf) && !DrawnOn(t, tf)
    ensures Traced(timeframes, b, series, ts + [t], tf)
  {
    hide Placed, Handles;
    SnocPrefix(ts, t);
  }

  /** Another pane, or a transform without a series: nothing changes but the ranges. */
  lemma PaneWaits(timeframes: set<string>, b: Board, pane: Pane, ts: seq<Transform>, t: Transform, tf: string)
    requires PaneOk(timeframes, b, pane, ts, tf) && !DrawnOn(t, tf)
    ensures PaneOk(timeframes, b, pane.(sessionRanges := Ranges(ts + [t], tf)), ts + [t], tf)
  {
    hide BoardOk, LaidOut, Ranges, Traced;
    assert (ts + [t])[..|ts|] == ts;
    NamesSnoc(timeframes, ts, t, tf);
    TracedWaits(timeframes, b, pane.series, ts, t, tf);
  }

  /** Series are only added and names only gained: what was placed stays so. */
  lemma PlacedStays(b: Board, b': Board, series: seq<Series>, s: Series, at: nat, t: Transform,
                    seriesOf: map<string, nat>)
    requires Placed(b, series, at, t, seriesOf)
    requires forall n :: n in b.named ==> n in b'.named && b'.named[n] == b.named[n]
    ensures Placed(b', series + [s], at, t, seriesOf)
  {
    hide NameOf, InheritedFrom;
    assert (series + [s])[..at] == series[..at];
  }

  lemma PlacedNow(b: Board, series: seq<Series>, t: Transform, seriesOf: map<string, nat>)
    requires BoardOk(b, series)
    ensures var (axis, link) := Assigned(b, t, seriesOf);
            Placed(Registered(AssignedBoard(b, t, seriesOf), t.id, axis), series + [Series(t.id, axis, link)], |series|,
                   t, seriesOf)
  {
    hide NameOf, Inherited, InheritedFrom, Linked, NamesBiject;
    var (axis, link) := Assigned(b, t, seriesOf);
    assert (series + [Series(t.id, axis, link)])[..|series|] == series;
    InheritedIsFrom(b, series, t, seriesOf);
  }

  lemma TracedGrows(timeframes: set<string>, b: Board, series: seq<Series>, ts: seq<Transform>, t: Transform)
    requires BoardOk(b, series) && Traced(timeframes, b, series, ts, t.timeframe) && t.drawn
    requires |series| == Position(ts, t.timeframe)
    ensures var seriesOf := Handles(timeframes, ts);
            var (axis, link) := Assigned(b, t, seriesOf);
            Traced(timeframes, Registered(AssignedBoard(b, t, seriesOf), t.id, axis),
                   series + [Series(t.id, axis, link)],
                   ts + [t], t.timeframe)
  {
    hide BoardOk, Placed, Handles, NameOf, Assigned, Position;
    var seriesOf := Handles(timeframes, ts);
    var (axis, link) := Assigned(b, t, seriesOf);
    var b', s := Registered(AssignedBoard(b, t, seriesOf), t.id, axis), Series(t.id, axis, link);
    SnocPrefix(ts, t);
    PlacedNow(b, series, t, seriesOf);
    forall i | 0 <= i < |ts| && DrawnOn(ts[i], t.timeframe)
      ensures Placed(b', series + [s], Position(ts[..i], t.timeframe), ts[i], Handles(timeframes, ts[..i]))
    {
      PlacedStays(b, b', series, s, Position(ts[..i], t.timeframe), ts[i], Handles(timeframes, ts[..i]));
    }
  }

  lemma SeriesCount(timeframes: set<string>, b: Board, pane: Pane, ts: seq<Transform>, tf: string)
    requires PaneOk(timeframes, b, pane, ts, tf)
    ensures |pane.series| == Position(ts, tf)
  {
    hide BoardOk, LaidOut, Traced, Ranges;
    assert |IdsOf(pane.series)| == |pane.series|;
  }

  lemma PaneGrows(timeframes: set<string>, b: Board, pane: Pane, ts: seq<Transform>, t: Transform)
    requires PaneOk(timeframes, b, pane, ts, t.timeframe) && t.drawn
    requires |NamesUsed(timeframes, ts + [t], t.timeframe)| <= 254
    requires t.id != CandlestickId(t.timeframe) && t.id != VolumeId(t.timeframe)
    requires forall i :: 0 <= i < |ts| && ts[i].timeframe == t.timeframe ==> ts[i].id != t.id
    ensures var seriesOf := Handles(timeframes, ts);
            var (axis, link) := Assigned(b, t, seriesOf);
            var b' := Registered(AssignedBoard(b, t, seriesOf), t.id, axis);
            PaneOk(timeframes, b',
                   Pane(Positions(b'.axes), pane.series + [Series(t.id, axis, link)], Ranges(ts + [t], t.timeframe)),
                   ts + [t], t.timeframe)
  {
    hide BoardOk, LaidOut, Ranges, Assigned, AssignedBoard, IdsOf, DrawnIds, NamesUsed, NameOf, CandlestickId, VolumeId,
         Traced, Handles;
    var seriesOf := Handles(timeframes, ts);
    DrawnSnoc(ts, t, pane.series, Series(t.id, Assigned(b, t, seriesOf).0, Assigned(b, t, seriesOf).1));
    FreshSeries(pane.series, ts, t);
    SeriesCount(timeframes, b, pane, ts, t.timeframe);
    NamesSnoc(timeframes, ts, t, t.timeframe);
    OneMore(b.named.Keys, NameOf(t, seriesOf));
    assert b.named.Keys == NamesUsed(timeframes, ts, t.timeframe) by { NamesAre(timeframes, b, pane, ts, t.timeframe); }
    AssignOk(b, pane.series, t, seriesOf);
    TracedGrows(timeframes, b, pane.series, ts, t);
    AssignKeepsLayout(b, t, seriesOf);
    RegisterKeepsLayout(AssignedBoard(b, t, seriesOf), t.id, Assigned(b, t, seriesOf).0);
  }

  lemma OneMore(names: set<string>, name: string)
    ensures |names + {name}| == |names| + (if name in names then 0 else 1)
  {
    if name in names { assert names + {name} == names; }
  }

  lemma NamesAre(timeframes: set<string>, b: Board, pane: Pane, ts: seq<Transform>, tf: string)
    requires PaneOk(timeframes, b, pane, ts, tf)
    ensures b.named.Keys == NamesUsed(timeframes, ts, tf)
  {
  }

  lemma DrawnSnoc(ts: seq<Transform>, t: Transform, series: seq<Series>, s: Series)
    requires t.drawn && s.id == t.id
    ensures DrawnIds(ts + [t], t.timeframe) == DrawnIds(ts, t.timeframe) + [t.id]
    ensures IdsOf(series + [s]) == IdsOf(series) + [t.id]
  {
    assert (ts + [t])[..|ts|] == ts;
  }

  lemma RegisterKeepsLayout(b: Board, id: string, axis: nat)
    requires LaidOut(b)
    ensures LaidOut(Registered(b, id, axis))
  {
    hide TopOf, HeightOf;
  }

  /** Every series of the pane is a base series or one of the transforms so far. */
  lemma SeriesOrigin(series: seq<Series>, ts: seq<Transform>, tf: string, k: nat)
    requires IdsOf(series) == [CandlestickId(tf), VolumeId(tf)] + DrawnIds(ts, tf) && k < |series|
    ensures series[k].id == CandlestickId(tf) || series[k].id == VolumeId(tf)
            || exists i :: 0 <= i < |ts| && ts[i].id == series[k].id && ts[i].timeframe == tf
  {
    assert IdsOf(series)[k] == series[k].id;
    if k >= 2 { DrawnIdsAreTransforms(ts, tf, DrawnIds(ts, tf)[k - 2]); }
  }

  lemma FreshSeries(series: seq<Series>, ts: seq<Transform>, t: Transform)
    requires IdsOf(series) == [CandlestickId(t.timeframe), VolumeId(t.timeframe)] + DrawnIds(ts, t.timeframe)
    requires t.id != CandlestickId(t.timeframe) && t.id != VolumeId(t.timeframe)
    requires forall i :: 0 <= i < |ts| && ts[i].timeframe == t.timeframe ==> ts[i].id != t.id
    ensures forall k :: 0 <= k < |series| ==> series[k].id != t.id
  {
    hide IdsOf, DrawnIds, CandlestickId, VolumeId;
    forall k | 0 <= k < |series| ensures series[k].id != t.id {
      SeriesOrigin(series, ts, t.timeframe, k);
    }
  }

  // ---------------------------------------------------------------------- the provider

  ghost predicate AllPanesOk(timeframes: set<string>, m: AxisManager, panes: map<string, Pane>, ts: seq<Transform>)
    reads m
  {
    forall tf :: tf in panes ==> tf in m.axes && PaneOk(timeframes, m.On(tf), panes[tf], ts, tf)
  }

  /** Candlestick and volume for one timeframe. */
  method BasePane(manager: AxisManager, ghost timeframes: set<string>, tf: string) returns (pane: Pane)
    requires tf !in manager.axes && manager.On(tf) == NO_BOARD
    modifies manager
    ensures manager.axes.Keys == old(manager.axes.Keys) + {tf} && PaneOk(timeframes, manager.On(tf), pane, [], tf)
    ensures forall other :: other != tf ==> manager.On(other) == old(manager.On(other))
  {
    var candles, volume := Series(CandlestickId(tf), 0, None), Series(VolumeId(tf), 1, None);
    manager.RegisterSeries(tf, candles.id, candles.yAxis);
    manager.RegisterSeries(tf, volume.id, volume.yAxis);
    manager.InitializeBaseAxes(tf);
    BasePaneOk(timeframes, manager.On(tf), tf, [candles, volume]);
    pane := Pane(Positions(manager.axes[tf]), [candles, volume], []);
  }

  /** The base pane of every timeframe, in any order. */
  method BasePanes(manager: AxisManager, timeframes: set<string>) returns (panes: map<string, Pane>)
    requires manager.axes == map[] && forall tf :: manager.On(tf) == NO_BOARD
    modifies manager
    ensures panes.Keys == timeframes && AllPanesOk(timeframes, manager, panes, [])
  {
    hide PaneOk;
    panes := map[];
    var rest := timeframes;
    while rest != {}
      invariant rest <= timeframes && panes.Keys == timeframes - rest == manager.axes.Keys
      invariant AllPanesOk(timeframes, manager, panes, [])
      invariant forall tf :: tf !in panes ==> manager.On(tf) == NO_BOARD
    {
      var tf :| tf in rest;
      rest := rest - {tf};
      var pane := BasePane(manager, timeframes, tf);
      panes := panes[tf := pane];
    }
  }

  /** What the next transform needs of the ones before it. */
  ghost predicate Admits(timeframes: set<string>, ts: seq<Transform>, t: Transform) {
    && |NamesUsed(timeframes, ts + [t], t.timeframe)| <= 254
    && t.id != CandlestickId(t.timeframe) && t.id != VolumeId(t.timeframe)
    && forall i :: 0 <= i < |ts| && ts[i].timeframe == t.timeframe ==> ts[i].id != t.id
  }

  /** One drawn transform: axis, series, output handles, then the pane's axes again. */
  method AddSeries(manager: AxisManager, pane: Pane, t: Transform, seriesOf: map<string, nat>,
                   ghost timeframes: set<string>,
                   ghost ts: seq<Transform>)
    returns (out: Pane)
    requires t.timeframe in manager.axes && PaneOk(timeframes, manager.On(t.timeframe), pane, ts, t.timeframe)
    requires t.drawn
    requires seriesOf == Handles(timeframes, ts) && Admits(timeframes, ts, t)
    modifies manager
    ensures manager.axes.Keys == old(manager.axes.Keys)
    ensures PaneOk(timeframes, manager.On(t.timeframe), out.(sessionRanges := Ranges(ts + [t], t.timeframe)), ts + [t],
                   t.timeframe)
    ensures out.sessionRanges == pane.sessionRanges && |out.series| == Position(ts + [t], t.timeframe)
    ensures forall tf :: tf != t.timeframe ==> manager.On(tf) == old(manager.On(tf))
  {
    hide PaneOk, Assigned, AssignedBoard, Ranges, NamesUsed, Handles, Position;
    PaneGrows(timeframes, manager.On(t.timeframe), pane, ts, t);
    var axis, link := manager.AssignAxis(t, t.timeframe, seriesOf);
    manager.RegisterSeries(t.timeframe, t.id, axis);
    out := Pane(Positions(manager.axes[t.timeframe]), pane.series + [Series(t.id, axis, link)], pane.sessionRanges);
    SeriesCount(timeframes, manager.On(t.timeframe), out.(sessionRanges := Ranges(ts + [t], t.timeframe)), ts + [t],
                t.timeframe);
  }

  lemma RangesSnoc(ts: seq<Transform>, t: Transform, tf: string)
    ensures Ranges(ts + [t], tf)
            == if t.timeframe == tf && t.sessionRange.Some? && t.sessionRange.value !in Ranges(ts, tf)
               then Ranges(ts, tf) + [t.sessionRange.value] else Ranges(ts, tf)
  {
    assert (ts + [t])[..|ts|] == ts;
  }

  lemma SameRanges(timeframes: set<string>, b: Board, pane: Pane, ts: seq<Transform>, tf: string)
    requires PaneOk(timeframes, b, pane, ts, tf)
    ensures pane.sessionRanges == Ranges(ts, tf)
  {
  }

  class ChartMetadataProvider {
    var chartMetaData: map<string, Pane>
    ghost var boards: map<string, Board>

    constructor (timeframes: set<string>, transforms: seq<Transform>)
      requires Fits(timeframes, transforms)
      ensures chartMetaData.Keys == timeframes == boards.Keys
      ensures forall tf :: tf in timeframes ==> PaneOk(timeframes, boards[tf], chartMetaData[tf], transforms, tf)
    {
      hide PaneOk, Fits;
      var manager := new AxisManager();
      var panes := BasePanes(manager, timeframes);
      panes := AddTransforms(manager, panes, transforms);
      chartMetaData := panes;
      boards := map tf | tf in panes :: manager.On(tf);
    }
  }

  lemma FitsAdmits(timeframes: set<string>, transforms: seq<Transform>, i: nat)
    requires Fits(timeframes, transforms) && i < |transforms| && transforms[i].timeframe in timeframes
    ensures Admits(timeframes, transforms[..i], transforms[i])
  {
    var t := transforms[i];
    assert transforms[..i + 1] == transforms[..i] + [t];
    NamesOnlyGrow(timeframes, transforms, t.timeframe, i + 1);
  }

  /** One transform whose pane exists: session range, then axis and series when it is drawn. */
  method AddTransform(manager: AxisManager, base: map<string, Pane>, seriesOf0: map<string, nat>, t: Transform,
                      ghost timeframes: set<string>, ghost ts: seq<Transform>)
    returns (panes: map<string, Pane>, seriesOf: map<string, nat>)
    requires base.Keys == timeframes && AllPanesOk(timeframes, manager, base, ts) && t.timeframe in base
    requires Admits(timeframes, ts, t)
    requires seriesOf0 == Handles(timeframes, ts)
    modifies manager
    ensures panes.Keys == base.Keys && AllPanesOk(timeframes, manager, panes, ts + [t])
    ensures seriesOf == Handles(timeframes, ts + [t])
  {
    hide PaneOk, NamesUsed, Ranges, CandlestickId, VolumeId, Handles, Position, WithOutputs;
    panes, seriesOf := base, seriesOf0;
    OtherPanesWait(timeframes, manager, panes, ts, t);
    HandlesSnoc(timeframes, ts, t);
    var pane := panes[t.timeframe];
    SameRanges(timeframes, manager.On(t.timeframe), pane, ts, t.timeframe);
    RangesSnoc(ts, t, t.timeframe);
    var ranges := pane.sessionRanges;
    if t.sessionRange.Some? && t.sessionRange.value !in ranges { ranges := ranges + [t.sessionRange.value]; }
    if !t.drawn {
      PaneWaits(timeframes, manager.On(t.timeframe), pane, ts, t, t.timeframe);
      panes := panes[t.timeframe := pane.(sessionRanges := ranges)];
    } else {
      var grown := AddSeries(manager, pane, t, seriesOf, timeframes, ts);
      panes := panes[t.timeframe := grown.(sessionRanges := ranges)];
      seriesOf := WithOutputs(seriesOf, t.outputs, |grown.series|);
    }
  }

  lemma HandlesSnoc(timeframes: set<string>, ts: seq<Transform>, t: Transform)
    ensures Handles(timeframes, ts + [t])
            == if Shown(timeframes, t) then
                 WithOutputs(Handles(timeframes, ts), t.outputs, Position(ts + [t], t.timeframe))
               else Handles(timeframes, ts)
  {
    SnocPrefix(ts, t);
  }

  /** The pass over the transforms; handles of all timeframes share one table. */
  method AddTransforms(manager: AxisManager, base: map<string, Pane>, transforms: seq<Transform>)
    returns (panes: map<string, Pane>)
    requires AllPanesOk(base.Keys, manager, base, []) && Fits(base.Keys, transforms)
    modifies manager
    ensures panes.Keys == base.Keys && AllPanesOk(base.Keys, manager, panes, transforms)
  {
    hide PaneOk, Fits, Admits, Handles, WithOutputs;
    panes := base;
    ghost var timeframes := base.Keys;
    var seriesOf: map<string, nat> := map[];
    NoHandles(timeframes, transforms);
    for i := 0 to |transforms|
      invariant panes.Keys == timeframes && AllPanesOk(timeframes, manager, panes, transforms[..i])
      invariant seriesOf == Handles(timeframes, transforms[..i])
    {
      assert transforms[..i + 1] == transforms[..i] + [transforms[i]];
      if transforms[i].timeframe in panes {
        FitsAdmits(timeframes, transforms, i);
        panes, seriesOf := AddTransform(manager, panes, seriesOf, transforms[i], timeframes, transforms[..i]);
      } else {
        HandlesSnoc(timeframes, transforms[..i], transforms[i]);
        OtherPanesWait(timeframes, manager, panes, transforms[..i], transforms[i]);
      }
    }
    assert transforms[..|transforms|] == transforms;
  }

  lemma NoHandles(timeframes: set<string>, ts: seq<Transform>)
    ensures Handles(timeframes, ts[..0]) == map[]
  {
  }

  lemma OtherPanesWait(timeframes: set<string>, m: AxisManager, panes: map<string, Pane>, ts: seq<Transform>,
                       t: Transform)
    requires AllPanesOk(timeframes, m, panes, ts)
    ensures forall tf :: tf in panes && tf != t.timeframe ==> PaneOk(timeframes, m.On(tf), panes[tf], ts + [t], tf)
  {
    hide PaneOk, Ranges;
    forall tf | tf in panes && tf != t.timeframe ensures PaneOk(timeframes, m.On(tf), panes[tf], ts + [t], tf) {
      PaneWaits(timeframes, m.On(tf), panes[tf], ts, t, tf);
      RangesSnoc(ts, t, tf);
      SameRanges(timeframes, m.On(tf), panes[tf], ts, tf);
    }
  }

  lemma PaneAxes(timeframes: set<string>, b: Board, pane: Pane, ts: seq<Transform>, tf: string)
    requires PaneOk(timeframes, b, pane, ts, tf)
    ensures LaidOut(b) && pane.yAxis == Positions(b.axes) && |b.axes| == 2 + |NamesUsed(timeframes, ts, tf)|
  {
    hide BoardOk, LaidOut, Traced, IdsOf, DrawnIds, Ranges, NamesUsed, Positions, CandlestickId, VolumeId;
  }

  lemma LaidOutAt(b: Board, i: nat)
    requires LaidOut(b) && 2 < |b.axes| && i < |b.axes|
    ensures Positions(b.axes)[i] == YAxis(TopOf(|b.axes|, i), HeightOf(|b.axes|, i))
  {
    hide TopOf, HeightOf;
  }

  /** Without indicator panes price lies over volume. */
  lemma BasePanesLie(timeframes: set<string>, b: Board, pane: Pane, ts: seq<Transform>, tf: string)
    requires PaneOk(timeframes, b, pane, ts, tf) && NamesUsed(timeframes, ts, tf) == {}
    ensures pane.yAxis == [YAxis(0, 85), YAxis(85, 15)]
  {
    hide PaneOk;
    PaneAxes(timeframes, b, pane, ts, tf);
  }

  /** With indicator panes there are two shares for the price and one for each other pane, in whole points. */
  lemma PaneLies(timeframes: set<string>, b: Board, pane: Pane, ts: seq<Transform>, tf: string, i: nat)
    requires PaneOk(timeframes, b, pane, ts, tf) && NamesUsed(timeframes, ts, tf) != {}
    requires i < 2 + |NamesUsed(timeframes, ts, tf)|
    ensures var n := 2 + |NamesUsed(timeframes, ts, tf)|;
            && |pane.yAxis| == n
            && pane.yAxis[i] == if i == 0 then YAxis(0, Points(2, n)) else YAxis(Points(i + 1, n), Points(1, n))
  {
    hide PaneOk, LaidOut, TopOf, HeightOf, NamesUsed, Points;
    PaneAxes(timeframes, b, pane, ts, tf);
    LaidOutAt(b, i);
    PanesExactly(|b.axes|, i);
  }

  // ---------------------------------------------------------- whose series a link names

  /** The last transform with a series that has this output. */
  ghost predicate Producer(timeframes: set<string>, ts: seq<Transform>, handle: string, j: nat) {
    && j < |ts| && Shown(timeframes, ts[j]) && handle in ts[j].outputs
    && forall k :: j < k < |ts| && Shown(timeframes, ts[k]) ==> handle !in ts[k].outputs
  }

  lemma {:induction false} WithOutputsAt(seriesOf: map<string, nat>, outputs: seq<string>, count: nat, handle: string)
    requires count > 0
    ensures var after := WithOutputs(seriesOf, outputs, count);
            && (handle in after <==> handle in seriesOf || handle in outputs)
            && (handle in outputs ==> after[handle] == count - 1)
            && (handle !in outputs && handle in seriesOf ==> after[handle] == seriesOf[handle])
  {
    if outputs != [] {
      assert outputs == outputs[..|outputs| - 1] + [outputs[|outputs| - 1]];
      WithOutputsAt(seriesOf, outputs[..|outputs| - 1], count, handle);
    }
  }

  lemma PositionSnoc(ts: seq<Transform>, t: Transform, tf: string)
    ensures Position(ts + [t], tf) == Position(ts, tf) + (if DrawnOn(t, tf) then 1 else 0)
  {
    SnocPrefix(ts, t);
  }

  /** The table leads from a handle to the position of its producer's series, in the producer's pane. */
  lemma {:induction false} HandleLeads(timeframes: set<string>, ts: seq<Transform>, handle: string, j: nat)
    requires Producer(timeframes, ts, handle, j)
    ensures handle in Handles(timeframes, ts) && Handles(timeframes, ts)[handle] == Position(ts[..j], ts[j].timeframe)
  {
    hide Position, WithOutputs;
    var init, t := ts[..|ts| - 1], ts[|ts| - 1];
    assert ts == init + [t];
    HandlesSnoc(timeframes, init, t);
    PositionSnoc(init, t, t.timeframe);
    WithOutputsAt(Handles(timeframes, init), t.outputs, Position(ts, t.timeframe), handle);
    if j < |init| {
      assert init[..j] == ts[..j];
      HandleLeads(timeframes, init, handle, j);
    } else {
      assert ts[..j] == init;
    }
  }

  lemma {:induction false} FindProducer(timeframes: set<string>, ts: seq<Transform>, handle: string) returns (j: nat)
    requires handle in Handles(timeframes, ts)
    ensures Producer(timeframes, ts, handle, j)
  {
    hide Position, WithOutputs;
    var init, t := ts[..|ts| - 1], ts[|ts| - 1];
    assert ts == init + [t];
    HandlesSnoc(timeframes, init, t);
    PositionSnoc(init, t, t.timeframe);
    if Shown(timeframes, t) && handle in t.outputs {
      j := |init|;
    } else {
      if Shown(timeframes, t) {
        WithOutputsAt(Handles(timeframes, init), t.outputs, Position(ts, t.timeframe), handle);
      }
      j := FindProducer(timeframes, init, handle);
    }
  }

  /** A known handle carries the position of its producer's series, in the producer's own pane. */
  lemma HandleHasProducer(timeframes: set<string>, ts: seq<Transform>, handle: string)
    returns (j: nat)
    requires handle in Handles(timeframes, ts)
    ensures Producer(timeframes, ts, handle, j)
    ensures Handles(timeframes, ts)[handle] == Position(ts[..j], ts[j].timeframe)
  {
    hide Position, WithOutputs, Producer, Handles;
    j := FindProducer(timeframes, ts, handle);
    HandleLeads(timeframes, ts, handle, j);
  }

  /** The first connection that some series produces. */
  function FirstKnown(handles: seq<string>, seriesOf: map<string, nat>): Option<string> {
    if handles == [] then None
    else if handles[0] in seriesOf then Some(handles[0])
    else FirstKnown(handles[1..], seriesOf)
  }

  lemma {:induction false} ParentIsFirst(handles: seq<string>, seriesOf: map<string, nat>, known: nat, handle: string)
    requires FirstKnown(handles, seriesOf) == Some(handle) && handle in seriesOf && seriesOf[handle] < known
    ensures Parent(handles, seriesOf, known) == Some(seriesOf[handle])
  {
    if handles[0] !in seriesOf { ParentIsFirst(handles[1..], seriesOf, known, handle); }
  }

  lemma {:induction false} PositionGrows(ts: seq<Transform>, j: nat, i: nat, tf: string)
    requires j < i <= |ts| && DrawnOn(ts[j], tf)
    ensures Position(ts[..j], tf) < Position(ts[..i], tf)
  {
    hide Position;
    assert ts[..i] == ts[..i - 1] + [ts[i - 1]];
    PositionSnoc(ts[..i - 1], ts[i - 1], tf);
    if j < i - 1 { PositionGrows(ts, j, i - 1, tf); }
  }

  /** Ids are distinct over all panes, as node ids of one compiled list are. */
  ghost predicate OneIdEach(timeframes: set<string>, ts: seq<Transform>) {
    && (forall i, j :: 0 <= i < j < |ts| ==> ts[i].id != ts[j].id)
    && (forall i, tf :: 0 <= i < |ts| && tf in timeframes ==> ts[i].id != CandlestickId(tf) && ts[i].id != VolumeId(tf))
  }

  lemma PlacedAt(timeframes: set<string>, b: Board, pane: Pane, ts: seq<Transform>, tf: string, i: nat)
    requires PaneOk(timeframes, b, pane, ts, tf) && i < |ts| && DrawnOn(ts[i], tf)
    ensures Placed(b, pane.series, Position(ts[..i], tf), ts[i], Handles(timeframes, ts[..i]))
  {
  }

  /** A transform of another pane has no series here. */
  lemma NoSeriesHere(timeframes: set<string>, b: Board, pane: Pane, ts: seq<Transform>, tf: string, j: nat, k: nat)
    requires PaneOk(timeframes, b, pane, ts, tf) && tf in timeframes && OneIdEach(timeframes, ts)
    requires j < |ts| && ts[j].timeframe != tf && k < |pane.series|
    ensures pane.series[k].id != ts[j].id
  {
    hide BoardOk, LaidOut, Traced, Ranges, IdsOf, DrawnIds, CandlestickId, VolumeId;
    SeriesOrigin(pane.series, ts, tf, k);
  }

  /**
   A series that inherits its axis is linked to the series of the transform that produced its
   first connected handle exactly when that transform is of the same timeframe.
   */
  lemma LinkIsProducer(timeframes: set<string>, b: Board, pane: Pane, ts: seq<Transform>, i: nat, handle: string,
                       j: nat)
    requires i < |ts| && Shown(timeframes, ts[i]) && !ts[i].ownAxis && OneIdEach(timeframes, ts)
    requires PaneOk(timeframes, b, pane, ts, ts[i].timeframe)
    requires FirstKnown(Flatten(ts[i].connections), Handles(timeframes, ts[..i])) == Some(handle)
    requires Producer(timeframes, ts[..i], handle, j)
    ensures var at := Position(ts[..i], ts[i].timeframe);
            at < |pane.series| && (pane.series[at].linkedTo == Some(ts[j].id) <==> ts[j].timeframe == ts[i].timeframe)
  {
    hide PaneOk, Position, Flatten, Producer;
    var tf, at := ts[i].timeframe, Position(ts[..i], ts[i].timeframe);
    PlacedAt(timeframes, b, pane, ts, tf, i);
    ProducerBefore(timeframes, ts, handle, j, i);
    if ts[j].timeframe == tf {
      HandleLeads(timeframes, ts[..i], handle, j);
      assert ts[..i][..j] == ts[..j];
      PositionGrows(ts, j, i, tf);
      ParentIsFirst(Flatten(ts[i].connections), Handles(timeframes, ts[..i]), at, handle);
      PlacedAt(timeframes, b, pane, ts, tf, j);
    } else {
      forall k | 0 <= k < at ensures pane.series[k].id != ts[j].id {
        NoSeriesHere(timeframes, b, pane, ts, tf, j, k);
      }
    }
  }

  lemma ProducerBefore(timeframes: set<string>, ts: seq<Transform>, handle: string, j: nat, i: nat)
    requires i <= |ts| && Producer(timeframes, ts[..i], handle, j)
    ensures j < i && Shown(timeframes, ts[j]) && ts[..i][j] == ts[j]
  {
  }

  // ------------------------------------------------------------- a link across timeframes

  function Oscillator(id: string, tf: string): Transform {
    Transform(id, tf, true, true, id, [], [id + "#result"], None)
  }

  /** An hourly and a daily oscillator, and a daily overlay of the hourly one. */
  const MIXED := [Oscillator("a", "1H"), Oscillator("b", "1D"),
                  Transform("c", "1D", true, false, "c", [["a#result"]], [], None)]

  lemma MixedPositions()
    ensures Position(MIXED[..0], "1H") == 2 && Position(MIXED[..1], "1D") == 2 && Position(MIXED[..2], "1D") == 3
    ensures Producer({"1H", "1D"}, MIXED[..2], "a#result", 0)
  {
    assert MIXED[..1] == MIXED[..0] + [MIXED[0]] && MIXED[..2] == MIXED[..1] + [MIXED[1]];
    assert MIXED[..0] == [];
    PositionSnoc(MIXED[..0], MIXED[0], "1D");
    PositionSnoc(MIXED[..1], MIXED[1], "1D");
    assert "a" + "#result" == "a#result";
    assert "b" + "#result" != "a#result" by { assert ("b" + "#result")[0] == 'b'; }
  }

  /** The overlay reads the hourly series "a" but is linked to the daily series "b". */
  lemma StrayLink(b: Board, pane: Pane)
    requires PaneOk({"1H", "1D"}, b, pane, MIXED, "1D")
    ensures |pane.series| > 3 && pane.series[3].id == "c" && pane.series[3].linkedTo == Some("b")
    ensures Producer({"1H", "1D"}, MIXED[..2], "a#result", 0) && MIXED[0].timeframe == "1H"
  {
    hide PaneOk, Position, Producer;
    MixedPositions();
    PlacedAt({"1H", "1D"}, b, pane, MIXED, "1D", 1);
    PlacedAt({"1H", "1D"}, b, pane, MIXED, "1D", 2);
    HandleLeads({"1H", "1D"}, MIXED[..2], "a#result", 0);
    assert MIXED[..2][..0] == MIXED[..0] && MIXED[..2][0] == MIXED[0];
    FlattenOne(["a#result"]);
    ParentIsFirst(["a#result"], Handles({"1H", "1D"}, MIXED[..2]), 3, "a#result");
  }

  lemma OneLetterIsNoBase(id: string, tf: string)
    requires |id| == 1
    ensures id != CandlestickId(tf) && id != VolumeId(tf)
  {
  }

  lemma MixedFits()
    ensures Fits({"1H", "1D"}, MIXED)
  {
    hide CandlestickId, VolumeId, NamesUsed;
    forall i | 0 <= i < 3 ensures |MIXED[i].id| == 1 { }
    forall t | t in MIXED ensures t.id != CandlestickId(t.timeframe) && t.id != VolumeId(t.timeframe) {
      OneLetterIsNoBase(t.id, t.timeframe);
    }
    forall tf ensures |NamesUsed({"1H", "1D"}, MIXED, tf)| <= 3 { FewNames({"1H", "1D"}, MIXED, tf); }
  }

  lemma {:induction false} FewNames(timeframes: set<string>, ts: seq<Transform>, tf: string)
    ensures |NamesUsed(timeframes, ts, tf)| <= |ts|
  {
    if ts != [] {
      var before, t := ts[..|ts| - 1], ts[|ts| - 1];
      FewNames(timeframes, before, tf);
      OneMore(NamesUsed(timeframes, before, tf), NameOf(t, Handles(timeframes, before)));
    }
  }

  /** The provider draws that chart. */
  method DrawMixed() returns (pane: Pane)
    ensures |pane.series| == 4 && pane.series[2].id == "b" && pane.series[3].id == "c"
    ensures pane.series[3].linkedTo == Some("b")
  {
    hide PaneOk, Fits, Handles, Producer;
    MixedFits();
    var provider := new ChartMetadataProvider({"1H", "1D"}, MIXED);
    pane := provider.chartMetaData["1D"];
    ghost var b := provider.boards["1D"];
    StrayLink(b, pane);
    MixedPositions();
    SeriesCount({"1H", "1D"}, b, pane, MIXED, "1D");
    assert MIXED == MIXED[..2] + [MIXED[2]];
    PositionSnoc(MIXED[..2], MIXED[2], "1D");
    PlacedAt({"1H", "1D"}, b, pane, MIXED, "1D", 1);
  }
}
