/**
 Futures continuation: one pass over the timeline picks a front and a back contract per row,
 rolling forward when the front contract has expired or the roll strategy says so.
 */
module FuturesContinuation {
  import opened Wrappers

  datatype Bar = Bar(t: int, open: real, high: real, low: real, close: real, volume: real, openInterest: real)

  /** One contract's bars, by time.  Contracts are ordered by expiration. */
  datatype Contract = Contract(symbol: string, bars: seq<Bar>)

  /** A constructed row: stamped with the timeline's time, whatever the bar's own time. */
  datatype Row = Row(t: int, symbol: string, bar: Bar)

  /** The roll strategy: front bar, back bar and calendar date. */
  type RollMethod = (Bar, Bar, int) -> bool

  const NANOS_PER_DAY := 86_400_000_000_000

  function Date(t: int): int { t / NANOS_PER_DAY }

  predicate InOrder(bars: seq<Bar>) { forall i, j :: 0 <= i < j < |bars| ==> bars[i].t <= bars[j].t }

  /** A group has a row for every contract of the frame, so no group is empty. */
  predicate Grouped(groups: seq<Contract>) {
    groups != [] && forall g :: g in groups ==> g.bars != [] && InOrder(g.bars)
  }

  function FirstTime(g: Contract): int
    requires g.bars != []
  {
    g.bars[0].t
  }

  function LastTime(g: Contract): int
    requires g.bars != []
  {
    g.bars[|g.bars| - 1].t
  }

  /** searchsorted, left side: how many leading bars are earlier than ts. */
  function LowerBound(bars: seq<Bar>, ts: int): (k: nat)
    ensures k <= |bars| && (k < |bars| ==> bars[k].t >= ts)
    ensures forall i :: 0 <= i < k ==> bars[i].t < ts
  {
    if bars == [] || bars[0].t >= ts then 0 else 1 + LowerBound(bars[1..], ts)
  }

  function GetData(g: Contract, ts: int): Option<Bar> {
    var k := LowerBound(g.bars, ts);
    if k < |g.bars| then Some(g.bars[k]) else None
  }

  /** The bar found is the earliest one at or after the time asked for. */
  lemma GetDataIsLeast(g: Contract, ts: int)
    requires InOrder(g.bars)
    ensures GetData(g, ts).None? <==> forall b :: b in g.bars ==> b.t < ts
    ensures GetData(g, ts).Some? ==>
              var b := GetData(g, ts).value;
              b in g.bars && b.t >= ts && forall c :: c in g.bars && c.t >= ts ==> b.t <= c.t
  {
    var k := LowerBound(g.bars, ts);
    if k < |g.bars| { assert g.bars[k] in g.bars; }
  }

  // ------------------------------------------------------------------- specification

  /** The contract, its predecessor at a strategy roll, and the timeline position of a row. */
  datatype Choice = Choice(position: nat, source: nat, index: nat)

  datatype Roller = Roller(current: nat, rolls: seq<nat>, front: seq<Row>, back: seq<Row>, choices: seq<Choice>)

  /** First contract from `current` on that has not expired; the last one never expires. */
  function Unexpired(groups: seq<Contract>, current: nat, ts: int): (k: nat)
    requires Grouped(groups) && current < |groups|
    ensures current <= k < |groups|
    decreases |groups| - current
  {
    if current == |groups| - 1 || ts <= LastTime(groups[current]) then current
    else Unexpired(groups, current + 1, ts)
  }

  predicate NewDay(timeline: seq<int>, i: nat)
    requires i < |timeline|
  {
    i == 0 || Date(timeline[i]) != Date(timeline[i - 1])
  }

  /** `rolloverPoints` gains the row about to be written, once. */
  function Marked(rolls: seq<nat>, row: nat): seq<nat> {
    if rolls == [] || rolls[|rolls| - 1] != row then rolls + [row] else rolls
  }

  /** Back data: the next contract once it trades, otherwise a copy of the front data. */
  function BackData(groups: seq<Contract>, source: nat, index: nat, ts: int): Option<Bar>
    requires Grouped(groups) && source < |groups| && index < |groups|
  {
    if index < |groups| - 1 && ts >= FirstTime(groups[index + 1]) then GetData(groups[index + 1], ts)
    else GetData(groups[source], ts)
  }

  function BackSymbol(groups: seq<Contract>, index: nat): string
    requires index < |groups|
  {
    if index == |groups| - 1 then groups[index].symbol else groups[index + 1].symbol
  }

  /** Forced rolls, at most once a day, before any data is read. */
  function Forced(groups: seq<Contract>, timeline: seq<int>, i: nat, s: Roller): Roller
    requires Grouped(groups) && i < |timeline| && s.current < |groups|
  {
    var active := if NewDay(timeline, i) then Unexpired(groups, s.current, timeline[i]) else s.current;
    if active == s.current then s else s.(current := active, rolls := Marked(s.rolls, |s.front|))
  }

  /** One row, when front and back both have data; `source` still supplies the front data. */
  function Emitted(groups: seq<Contract>, timeline: seq<int>, i: nat, source: nat, s: Roller): Roller
    requires Grouped(groups) && i < |timeline| && source < |groups| && s.current < |groups|
  {
    var ts := timeline[i];
    var f, b := GetData(groups[source], ts), BackData(groups, source, s.current, ts);
    if f.None? || b.None? then s
    else s.(front := s.front + [Row(ts, groups[s.current].symbol, f.value)],
            back := s.back + [Row(ts, BackSymbol(groups, s.current), b.value)],
            choices := s.choices + [Choice(i, source, s.current)])
  }

  predicate StrategyRolls(groups: seq<Contract>, rollNow: RollMethod, timeline: seq<int>, i: nat, source: nat)
    requires Grouped(groups) && i < |timeline| && source < |groups|
  {
    var ts := timeline[i];
    && NewDay(timeline, i) && source < |groups| - 1
    && GetData(groups[source], ts).Some? && BackData(groups, source, source, ts).Some?
    && rollNow(GetData(groups[source], ts).value, BackData(groups, source, source, ts).value, Date(ts))
  }

  function Step(groups: seq<Contract>, rollNow: RollMethod, timeline: seq<int>, i: nat, s: Roller): (s': Roller)
    requires Grouped(groups) && i < |timeline| && s.current < |groups|
    ensures s'.current < |groups|
  {
    var ts := timeline[i];
    var s1 := Forced(groups, timeline, i, s);
    var source := s1.current;
    if NewDay(timeline, i) && ts < FirstTime(groups[source]) then s1
    else if GetData(groups[source], ts).None? || BackData(groups, source, source, ts).None? then s1
    else if StrategyRolls(groups, rollNow, timeline, i, source) then
      Emitted(groups, timeline, i, source, s1.(current := source + 1, rolls := Marked(s1.rolls, |s1.front|)))
    else Emitted(groups, timeline, i, source, s1)
  }

  /** The roller after the first i times of the timeline. */
  function After(groups: seq<Contract>, rollNow: RollMethod, timeline: seq<int>, i: nat): (s: Roller)
    requires Grouped(groups) && i <= |timeline|
    ensures s.current < |groups|
  {
    if i == 0 then Roller(0, [], [], [], [])
    else Step(groups, rollNow, timeline, i - 1, After(groups, rollNow, timeline, i - 1))
  }

  // --------------------------------------------------------------------- the method

  /** One contract is passed through; otherwise the legs and the roll points are returned. */
  datatype Outcome = Unchanged | Constructed(front: seq<Row>, back: seq<Row>, rolls: seq<nat>)

  /** From contract `from` to `to`: all in between ended before ts, and `to` is the last or has not. */
  predicate Passed(groups: seq<Contract>, ts: int, from: nat, to: nat)
    requires Grouped(groups)
  {
    && from <= to < |groups|
    && (forall k :: from <= k < to ==> groups[k].bars[|groups[k].bars| - 1].t < ts)
    && (to == |groups| - 1 || groups[to].bars[|groups[to].bars| - 1].t >= ts)
  }

  lemma {:induction false} UnexpiredPasses(groups: seq<Contract>, current: nat, ts: int)
    requires Grouped(groups) && current < |groups|
    ensures Passed(groups, ts, current, Unexpired(groups, current, ts))
    decreases |groups| - current
  {
    if current < |groups| - 1 && ts > LastTime(groups[current]) { UnexpiredPasses(groups, current + 1, ts); }
  }

  /** The loop over contracts that expired before this day. */
  method RollExpired(groups: seq<Contract>, ts: int, rowIndex: nat, current0: nat, rolls0: seq<nat>)
    returns (current: nat, rolls: seq<nat>)
    requires Grouped(groups) && current0 < |groups|
    ensures current == Unexpired(groups, current0, ts) && Passed(groups, ts, current0, current)
    ensures rolls == if current == current0 then rolls0 else Marked(rolls0, rowIndex)
  {
    current, rolls := current0, rolls0;
    UnexpiredPasses(groups, current0, ts);
    while current != |groups| - 1 && ts > LastTime(groups[current])
      invariant current0 <= current < |groups|
      invariant Unexpired(groups, current0, ts) == Unexpired(groups, current, ts)
      invariant rolls == if current == current0 then rolls0 else Marked(rolls0, rowIndex)
      decreases |groups| - current
    {
      rolls := Marked(rolls, rowIndex);
      current := current + 1;
    }
  }

  lemma AfterNext(groups: seq<Contract>, rollNow: RollMethod, timeline: seq<int>, i: nat)
    requires Grouped(groups) && i < |timeline|
    ensures After(groups, rollNow, timeline, i + 1) ==
              Step(groups, rollNow, timeline, i, After(groups, rollNow, timeline, i))
  {
  }

  method BuildBars(groups: seq<Contract>, rollNow: RollMethod, timeline: seq<int>) returns (r: Outcome)
    requires Grouped(groups)
    ensures r.Unchanged? <==> |groups| == 1
    ensures r.Constructed? ==>
              var s := After(groups, rollNow, timeline, |timeline|);
              r.front == s.front && r.back == s.back && r.rolls == s.rolls
  {
    hide After, GetData, Marked, FirstTime, Grouped;
    if |groups| == 1 { return Unchanged; }
    var front: seq<Row>, back: seq<Row>, rolls: seq<nat> := [], [], [];
    var current: nat := 0;
    var lastDecisionDay: Option<int> := None;
    ghost var choices: seq<Choice> := [];
    SomeGroup(groups, rollNow, timeline);
    for i := 0 to |timeline|
      invariant current < |groups|
      invariant lastDecisionDay == if i == 0 then None else Some(Date(timeline[i - 1]))
      invariant After(groups, rollNow, timeline, i) == Roller(current, rolls, front, back, choices)
    {
      AfterNext(groups, rollNow, timeline, i);
      var ts := timeline[i];
      var newDay := lastDecisionDay.None? || Date(ts) != lastDecisionDay.value;
      lastDecisionDay := Some(Date(ts));
      if newDay { current, rolls := RollExpired(groups, ts, |front|, current, rolls); }
      var active := current;
      if newDay && ts < FirstTime(groups[active]) { continue; }
      var frontData, backData := GetData(groups[active], ts), BackData(groups, active, current, ts);
      if backData.None? || frontData.None? { continue; }
      if newDay && current != |groups| - 1 && rollNow(frontData.value, backData.value, Date(ts)) {
        rolls := Marked(rolls, |front|);
        current := current + 1;
        frontData, backData := GetData(groups[active], ts), BackData(groups, active, current, ts);
      }
      if backData.None? || frontData.None? { continue; }
      front := front + [Row(ts, groups[current].symbol, frontData.value)];
      back := back + [Row(ts, BackSymbol(groups, current), backData.value)];
      choices := choices + [Choice(i, active, current)];
    }
    r := Constructed(front, back, rolls);
  }

  lemma SomeGroup(groups: seq<Contract>, rollNow: RollMethod, timeline: seq<int>)
    requires Grouped(groups)
    ensures |groups| > 0 && forall g :: g in groups ==> g.bars != []
    ensures After(groups, rollNow, timeline, 0) == Roller(0, [], [], [], [])
  {
  }

  // ------------------------------------------------------------- roll points are exact

  /** The front contract before row k: contract 0 at the start. */
  function Before(s: Roller, k: nat): nat
    requires k <= |s.choices|
  {
    if k == 0 then 0 else s.choices[k - 1].index
  }

  ghost predicate Legs(s: Roller) { |s.choices| == |s.front| == |s.back| }

  ghost predicate Monotone(s: Roller) {
    && (forall k :: 0 <= k < |s.choices| ==> Before(s, k) <= s.choices[k].index)
    && Before(s, |s.choices|) <= s.current
  }

  ghost predicate Increasing(xs: seq<nat>) { forall i, j :: 0 <= i < j < |xs| ==> xs[i] < xs[j] }

  /** The front contract changes at row k; at the row not yet written when a roll is pending. */
  ghost predicate Changes(s: Roller, k: nat)
    requires k <= |s.choices|
  {
    if k < |s.choices| then s.choices[k].index != Before(s, k) else s.current != Before(s, k)
  }

  /** Roll points are exactly the changes of the front contract, in increasing order. */
  ghost predicate RollsExact(s: Roller) {
    && Legs(s) && Monotone(s) && Increasing(s.rolls)
    && (forall k :: k in s.rolls ==> k <= |s.choices|)
    && (forall k :: 0 <= k <= |s.choices| ==> (k in s.rolls <==> Changes(s, k)))
  }

  lemma MarkedMembers(rolls: seq<nat>, row: nat)
    requires Increasing(rolls) && forall k :: k in rolls ==> k <= row
    ensures Increasing(Marked(rolls, row))
    ensures forall k :: k in Marked(rolls, row) <==> k in rolls || k == row
  {
    forall i | 0 <= i < |rolls| ensures rolls[i] <= row { assert rolls[i] in rolls; }
    if rolls != [] && rolls[|rolls| - 1] != row {
      forall i | 0 <= i < |rolls| ensures rolls[i] < row {
        if i < |rolls| - 1 { assert rolls[i] < rolls[|rolls| - 1]; }
      }
    }
  }

  /** Rolling forward marks the next row. */
  lemma RollKeepsExact(s: Roller, c: nat)
    requires RollsExact(s) && c > s.current
    ensures RollsExact(s.(current := c, rolls := Marked(s.rolls, |s.front|)))
  {
    var s' := s.(current := c, rolls := Marked(s.rolls, |s.front|));
    MarkedMembers(s.rolls, |s.front|);
    assert forall k :: 0 <= k <= |s.choices| ==> Before(s', k) == Before(s, k);
  }

  lemma EmitKeepsExact(groups: seq<Contract>, timeline: seq<int>, i: nat, source: nat, s: Roller)
    requires Grouped(groups) && i < |timeline| && source < |groups| && s.current < |groups| && RollsExact(s)
    ensures RollsExact(Emitted(groups, timeline, i, source, s))
  {
    hide GetData, BackData, BackSymbol;
    var s' := Emitted(groups, timeline, i, source, s);
    assert forall k :: 0 <= k <= |s.choices| ==> Before(s', k) == Before(s, k);
    if s' != s {
      var n := |s.choices|;
      assert Changes(s', n) <==> Changes(s, n);
      assert !Changes(s', n + 1);
      assert n + 1 !in s.rolls;
    }
  }

  lemma StepKeepsExact(groups: seq<Contract>, rollNow: RollMethod, timeline: seq<int>, i: nat, s: Roller)
    requires Grouped(groups) && i < |timeline| && s.current < |groups| && RollsExact(s)
    ensures RollsExact(Step(groups, rollNow, timeline, i, s))
  {
    hide RollsExact, GetData, BackData, Marked, Emitted;
    var s1 := Forced(groups, timeline, i, s);
    if s1.current != s.current { RollKeepsExact(s, s1.current); }
    EmitKeepsExact(groups, timeline, i, s1.current, s1);
    if StrategyRolls(groups, rollNow, timeline, i, s1.current) {
      RollKeepsExact(s1, s1.current + 1);
      EmitKeepsExact(groups, timeline, i, s1.current,
                     s1.(current := s1.current + 1, rolls := Marked(s1.rolls, |s1.front|)));
    }
  }

  lemma NothingExact()
    ensures RollsExact(Roller(0, [], [], [], []))
  {
  }

  lemma {:induction false} RolloverPointsExact(groups: seq<Contract>, rollNow: RollMethod, timeline: seq<int>, i: nat)
    requires Grouped(groups) && i <= |timeline|
    ensures RollsExact(After(groups, rollNow, timeline, i))
  {
    hide RollsExact, Step, After;
    if i == 0 {
      AfterStart(groups, rollNow, timeline);
      NothingExact();
    } else {
      RolloverPointsExact(groups, rollNow, timeline, i - 1);
      AfterNext(groups, rollNow, timeline, i - 1);
      StepKeepsExact(groups, rollNow, timeline, i - 1, After(groups, rollNow, timeline, i - 1));
    }
  }

  // -------------------------------------------------------------------- what rows hold

  /** Where row k comes from: times, labels and bars of both legs, and whether it is a strategy roll. */
  ghost predicate RowFrom(groups: seq<Contract>, rollNow: RollMethod, timeline: seq<int>, c: Choice, f: Row, b: Row)
    requires Grouped(groups)
  {
    && c.position < |timeline| && c.source <= c.index < |groups|
    && var ts := timeline[c.position];
    && f.t == ts && b.t == ts
    && f.symbol == groups[c.index].symbol && GetData(groups[c.source], ts) == Some(f.bar)
    && b.symbol == BackSymbol(groups, c.index) && BackData(groups, c.source, c.index, ts) == Some(b.bar)
    && (NewDay(timeline, c.position) ==> ts >= FirstTime(groups[c.source]))
    && c.index == (if StrategyRolls(groups, rollNow, timeline, c.position, c.source) then c.source + 1 else c.source)
  }

  ghost predicate RowsFrom(groups: seq<Contract>, rollNow: RollMethod, timeline: seq<int>, i: nat, s: Roller)
    requires Grouped(groups)
  {
    && Legs(s)
    && (forall k :: 0 <= k < |s.choices| ==>
          s.choices[k].position < i && RowFrom(groups, rollNow, timeline, s.choices[k], s.front[k], s.back[k]))
    && (forall j, k :: 0 <= j < k < |s.choices| ==> s.choices[j].position < s.choices[k].position)
  }

  lemma EmitKeepsRows(groups: seq<Contract>, rollNow: RollMethod, timeline: seq<int>, i: nat, source: nat, s: Roller)
    requires Grouped(groups) && i < |timeline| && source < |groups| && s.current < |groups|
    requires RowsFrom(groups, rollNow, timeline, i, s)
    requires NewDay(timeline, i) ==> timeline[i] >= FirstTime(groups[source])
    requires s.current == (if StrategyRolls(groups, rollNow, timeline, i, source) then source + 1 else source)
    ensures RowsFrom(groups, rollNow, timeline, i + 1, Emitted(groups, timeline, i, source, s))
  {
    hide StrategyRolls, GetData, BackData, BackSymbol;
  }

  lemma RowsWait(groups: seq<Contract>, rollNow: RollMethod, timeline: seq<int>, i: nat, s: Roller, s': Roller)
    requires Grouped(groups) && RowsFrom(groups, rollNow, timeline, i, s)
    requires s'.front == s.front && s'.back == s.back && s'.choices == s.choices
    ensures RowsFrom(groups, rollNow, timeline, i, s') && RowsFrom(groups, rollNow, timeline, i + 1, s')
  {
    hide RowFrom;
  }

  lemma StepKeepsRows(groups: seq<Contract>, rollNow: RollMethod, timeline: seq<int>, i: nat, s: Roller)
    requires Grouped(groups) && i < |timeline| && s.current < |groups| && RowsFrom(groups, rollNow, timeline, i, s)
    ensures RowsFrom(groups, rollNow, timeline, i + 1, Step(groups, rollNow, timeline, i, s))
  {
    hide RowsFrom, Marked, GetData, BackData, Emitted, StrategyRolls;
    var s1 := Forced(groups, timeline, i, s);
    RowsWait(groups, rollNow, timeline, i, s, s1);
    if !(NewDay(timeline, i) && timeline[i] < FirstTime(groups[s1.current])) {
      if StrategyRolls(groups, rollNow, timeline, i, s1.current) {
        RollsForward(groups, rollNow, timeline, i, s1.current);
        var s2 := s1.(current := s1.current + 1, rolls := Marked(s1.rolls, |s1.front|));
        RowsWait(groups, rollNow, timeline, i, s1, s2);
        EmitKeepsRows(groups, rollNow, timeline, i, s1.current, s2);
      } else {
        EmitKeepsRows(groups, rollNow, timeline, i, s1.current, s1);
      }
    }
  }

  lemma RollsForward(groups: seq<Contract>, rollNow: RollMethod, timeline: seq<int>, i: nat, source: nat)
    requires Grouped(groups) && i < |timeline| && source < |groups|
    requires StrategyRolls(groups, rollNow, timeline, i, source)
    ensures source + 1 < |groups|
  {
  }

  /** Every row ever built is what RowFrom says, in timeline order. */
  lemma {:induction false} EveryRowFrom(groups: seq<Contract>, rollNow: RollMethod, timeline: seq<int>, i: nat)
    requires Grouped(groups) && i <= |timeline|
    ensures RowsFrom(groups, rollNow, timeline, i, After(groups, rollNow, timeline, i))
  {
    hide RowsFrom, Step, After;
    if i == 0 {
      AfterStart(groups, rollNow, timeline);
      NothingFrom(groups, rollNow, timeline);
    } else {
      EveryRowFrom(groups, rollNow, timeline, i - 1);
      AfterNext(groups, rollNow, timeline, i - 1);
      StepKeepsRows(groups, rollNow, timeline, i - 1, After(groups, rollNow, timeline, i - 1));
    }
  }

  lemma NothingFrom(groups: seq<Contract>, rollNow: RollMethod, timeline: seq<int>)
    requires Grouped(groups)
    ensures RowsFrom(groups, rollNow, timeline, 0, Roller(0, [], [], [], []))
  {
  }

  lemma AfterStart(groups: seq<Contract>, rollNow: RollMethod, timeline: seq<int>)
    requires Grouped(groups)
    ensures After(groups, rollNow, timeline, 0) == Roller(0, [], [], [], [])
  {
  }

  // ---------------------------------------------------------------- one front per date

  predicate TimesAscend(timeline: seq<int>) { forall i, j :: 0 <= i < j < |timeline| ==> timeline[i] < timeline[j] }

  lemma DatesAscend(timeline: seq<int>, i: nat, j: nat)
    requires TimesAscend(timeline) && i <= j < |timeline|
    ensures Date(timeline[i]) <= Date(timeline[j])
  {
  }

  predicate SameDate(timeline: seq<int>, i: nat, a: Choice, b: Choice)
    requires i <= |timeline|
  {
    a.position < i && b.position < i && Date(timeline[a.position]) == Date(timeline[b.position])
  }

  /** Rows of the latest date use the current contract; earlier dates are settled. */
  ghost predicate OnePerDate(timeline: seq<int>, i: nat, s: Roller)
    requires i <= |timeline|
  {
    && (forall k :: 0 <= k < |s.choices| ==> s.choices[k].position < i)
    && (forall k :: 0 <= k < |s.choices| && Date(timeline[s.choices[k].position]) == Date(timeline[i - 1]) ==>
          s.choices[k].index == s.current)
    && (forall j, k :: 0 <= j < |s.choices| && 0 <= k < |s.choices| &&
                        SameDate(timeline, i, s.choices[j], s.choices[k]) ==>
          s.choices[j].index == s.choices[k].index)
  }

  /** A step writes at most one row, with its own current contract; it only rolls on a new day. */
  lemma StepShape(groups: seq<Contract>, rollNow: RollMethod, timeline: seq<int>, i: nat, s: Roller)
    requires Grouped(groups) && i < |timeline| && s.current < |groups|
    ensures var s' := Step(groups, rollNow, timeline, i, s);
            && (s'.choices == s.choices
                || exists source :: s'.choices == s.choices + [Choice(i, source, s'.current)])
            && (!NewDay(timeline, i) ==> s'.current == s.current)
  {
    hide GetData, BackData, Unexpired, Marked;
    var s1 := Forced(groups, timeline, i, s);
    var s' := Step(groups, rollNow, timeline, i, s);
    assert s'.choices != s.choices ==> s'.choices == s.choices + [Choice(i, s1.current, s'.current)];
  }

  lemma StepKeepsDates(groups: seq<Contract>, rollNow: RollMethod, timeline: seq<int>, i: nat, s: Roller)
    requires Grouped(groups) && i < |timeline| && s.current < |groups| && TimesAscend(timeline)
    requires OnePerDate(timeline, i, s)
    ensures OnePerDate(timeline, i + 1, Step(groups, rollNow, timeline, i, s))
  {
    hide Step;
    StepShape(groups, rollNow, timeline, i, s);
    if NewDay(timeline, i) {
      forall k | 0 <= k < |s.choices| ensures Date(timeline[s.choices[k].position]) < Date(timeline[i]) {
        DatesAscend(timeline, s.choices[k].position, i - 1);
        DatesAscend(timeline, i - 1, i);
      }
    }
  }

  lemma NothingPerDate(timeline: seq<int>)
    ensures OnePerDate(timeline, 0, Roller(0, [], [], [], []))
  {
  }

  /** All rows of one calendar date have the same front contract. */
  lemma {:induction false} FrontConstantPerDate(groups: seq<Contract>, rollNow: RollMethod, timeline: seq<int>, i: nat)
    requires Grouped(groups) && i <= |timeline| && TimesAscend(timeline)
    ensures OnePerDate(timeline, i, After(groups, rollNow, timeline, i))
  {
    hide OnePerDate, Step, After;
    if i == 0 {
      AfterStart(groups, rollNow, timeline);
      NothingPerDate(timeline);
    } else {
      FrontConstantPerDate(groups, rollNow, timeline, i - 1);
      AfterNext(groups, rollNow, timeline, i - 1);
      StepKeepsDates(groups, rollNow, timeline, i - 1, After(groups, rollNow, timeline, i - 1));
    }
  }

  // --------------------------------------------------------------------- no look-ahead

  predicate HasBarAt(g: Contract, ts: int) { exists b :: b in g.bars && b.t == ts }

  /** A bar at every timeline time between the contract's first and last. */
  predicate Complete(g: Contract, timeline: seq<int>)
    requires g.bars != []
  {
    forall ts :: ts in timeline && FirstTime(g) <= ts <= LastTime(g) ==> HasBarAt(g, ts)
  }

  /** The bar found carries the time asked for exactly when the contract has one there. */
  lemma ExactBar(g: Contract, ts: int)
    requires InOrder(g.bars) && GetData(g, ts).Some?
    ensures GetData(g, ts).value.t == ts <==> HasBarAt(g, ts)
  {
    GetDataIsLeast(g, ts);
  }

  lemma CompleteIsExact(g: Contract, timeline: seq<int>, ts: int)
    requires g.bars != [] && InOrder(g.bars) && Complete(g, timeline) && ts in timeline && ts >= FirstTime(g)
    requires GetData(g, ts).Some?
    ensures GetData(g, ts).value.t == ts
  {
    GetDataIsLeast(g, ts);
    var b := GetData(g, ts).value;
    var i :| 0 <= i < |g.bars| && g.bars[i] == b;
    assert b.t <= LastTime(g);
    ExactBar(g, ts);
  }

  /** The two legs are aligned, and with a bar wherever a contract trades no price is from later. */
  lemma NoLookAhead(groups: seq<Contract>, rollNow: RollMethod, timeline: seq<int>, k: nat)
    requires Grouped(groups) && TimesAscend(timeline)
    requires forall i :: 0 <= i < |timeline| ==> NewDay(timeline, i)
    requires forall g :: g in groups ==> Complete(g, timeline)
    requires k < |After(groups, rollNow, timeline, |timeline|).front|
    ensures var s := After(groups, rollNow, timeline, |timeline|);
            |s.back| == |s.front| && s.front[k].t == s.back[k].t == s.front[k].bar.t == s.back[k].bar.t
    ensures var s := After(groups, rollNow, timeline, |timeline|);
            k > 0 ==> s.front[k - 1].t < s.front[k].t
  {
    hide After, Complete, InOrder;
    EveryRowFrom(groups, rollNow, timeline, |timeline|);
    var s := After(groups, rollNow, timeline, |timeline|);
    var c := s.choices[k];
    assert RowFrom(groups, rollNow, timeline, c, s.front[k], s.back[k]);
    if k > 0 { assert RowFrom(groups, rollNow, timeline, s.choices[k - 1], s.front[k - 1], s.back[k - 1]); }
    RowIsExact(groups, rollNow, timeline, c, s.front[k], s.back[k]);
  }

  lemma RowIsExact(groups: seq<Contract>, rollNow: RollMethod, timeline: seq<int>, c: Choice, f: Row, b: Row)
    requires Grouped(groups) && RowFrom(groups, rollNow, timeline, c, f, b) && NewDay(timeline, c.position)
    requires forall g :: g in groups ==> Complete(g, timeline)
    ensures f.t == b.t == f.bar.t == b.bar.t
  {
    var ts := timeline[c.position];
    CompleteIsExact(groups[c.source], timeline, ts);
    if c.index < |groups| - 1 && ts >= FirstTime(groups[c.index + 1]) {
      CompleteIsExact(groups[c.index + 1], timeline, ts);
    }
  }

  /** The next contract, rather than a copy of the front data, fills the back row. */
  predicate BackSupplies(groups: seq<Contract>, c: Choice, ts: int)
    requires Grouped(groups) && c.index < |groups|
  {
    c.index < |groups| - 1 && ts >= FirstTime(groups[c.index + 1])
  }

  /** A row looks ahead exactly when a contract that supplies its data has no bar at its time. */
  lemma RowIsTimelyExactly(groups: seq<Contract>, rollNow: RollMethod, timeline: seq<int>, k: nat)
    requires Grouped(groups) && k < |After(groups, rollNow, timeline, |timeline|).choices|
    ensures var s := After(groups, rollNow, timeline, |timeline|);
            var c := s.choices[k];
            && |s.front| == |s.back| == |s.choices| && c.source <= c.index < |groups|
            && var ts := s.front[k].t;
            && s.back[k].t == ts
            && (s.front[k].bar.t == ts == s.back[k].bar.t <==>
                && HasBarAt(groups[c.source], ts)
                && (BackSupplies(groups, c, ts) ==> HasBarAt(groups[c.index + 1], ts)))
  {
    hide After, HasBarAt, InOrder;
    EveryRowFrom(groups, rollNow, timeline, |timeline|);
    var s := After(groups, rollNow, timeline, |timeline|);
    var c := s.choices[k];
    assert RowFrom(groups, rollNow, timeline, c, s.front[k], s.back[k]);
    var ts := timeline[c.position];
    ExactBar(groups[c.source], ts);
    if BackSupplies(groups, c, ts) { ExactBar(groups[c.index + 1], ts); }
  }

  /** In general the two legs share the row's time and no bar is from before it. */
  lemma LegsAligned(groups: seq<Contract>, rollNow: RollMethod, timeline: seq<int>, k: nat)
    requires Grouped(groups) && k < |After(groups, rollNow, timeline, |timeline|).front|
    ensures var s := After(groups, rollNow, timeline, |timeline|);
            |s.back| == |s.front| && s.front[k].t == s.back[k].t
            && s.front[k].bar.t >= s.front[k].t && s.back[k].bar.t >= s.back[k].t
  {
    hide After;
    EveryRowFrom(groups, rollNow, timeline, |timeline|);
    var s := After(groups, rollNow, timeline, |timeline|);
    var c := s.choices[k];
    assert RowFrom(groups, rollNow, timeline, c, s.front[k], s.back[k]);
    var ts := timeline[c.position];
    GetDataIsLeast(groups[c.source], ts);
    if c.index < |groups| - 1 { GetDataIsLeast(groups[c.index + 1], ts); }
  }

  /**
   The front label and the front prices belong to the same contract exactly when no strategy
   roll happened on the row; on such a row the prices are still the old contract's.
   */
  lemma StaleFrontExactly(groups: seq<Contract>, rollNow: RollMethod, timeline: seq<int>, k: nat)
    requires Grouped(groups) && k < |After(groups, rollNow, timeline, |timeline|).choices|
    ensures var s := After(groups, rollNow, timeline, |timeline|);
            var c := s.choices[k];
            && |s.front| == |s.choices| && c.position < |timeline| && c.source <= c.index < |groups|
            && s.front[k].symbol == groups[c.index].symbol
            && GetData(groups[c.source], s.front[k].t) == Some(s.front[k].bar)
            && (c.source == c.index <==> !StrategyRolls(groups, rollNow, timeline, c.position, c.source))
  {
    hide After;
    EveryRowFrom(groups, rollNow, timeline, |timeline|);
    var s := After(groups, rollNow, timeline, |timeline|);
    assert RowFrom(groups, rollNow, timeline, s.choices[k], s.front[k], s.back[k]);
  }

  function Flat(t: int, price: real): Bar { Bar(t, price, price, price, price, 0.0, 0.0) }

  const TWO_CONTRACTS := [Contract("F", [Flat(0, 10.0)]), Contract("G", [Flat(0, 20.0)])]

  /** Both contracts trade at the first time and the strategy rolls: both legs are labelled "G", priced "F". */
  lemma StaleFront(rollNow: RollMethod)
    requires forall f, b, d :: rollNow(f, b, d)
    ensures Grouped(TWO_CONTRACTS)
    ensures var s := After(TWO_CONTRACTS, rollNow, [0], 1);
            && s.choices == [Choice(0, 0, 1)] && s.rolls == [0]
            && s.front == [Row(0, "G", Flat(0, 10.0))] && s.back == [Row(0, "G", Flat(0, 10.0))]
  {
    var groups, s := TWO_CONTRACTS, Roller(0, [], [], [], []);
    assert Unexpired(groups, 0, 0) == 0 && Forced(groups, [0], 0, s) == s;
    assert LowerBound(groups[0].bars, 0) == 0 && LowerBound(groups[1].bars, 0) == 0;
    assert StrategyRolls(groups, rollNow, [0], 0, 0);
    assert After(groups, rollNow, [0], 0) == s;
    AfterNext(groups, rollNow, [0], 0);
  }

  // ------------------------------------------------------------- one time after another

  /** A time on another date than the time before it. */
  predicate Opens(timeline: seq<int>, i: nat)
    requires i < |timeline|
  {
    i == 0 || timeline[i] / 86_400_000_000_000 != timeline[i - 1] / 86_400_000_000_000
  }

  ghost predicate TradesFrom(g: Contract, ts: int) { exists b :: b in g.bars && b.t >= ts }

  /** The first bar of the contract that is not before ts. */
  ghost predicate FirstFrom(g: Contract, ts: int, b: Bar) {
    exists k :: 0 <= k < |g.bars| && g.bars[k] == b && b.t >= ts && forall j :: 0 <= j < k ==> g.bars[j].t < ts
  }

  /** There is a next contract, and it has started. */
  predicate NextStarted(groups: seq<Contract>, k: nat, ts: int)
    requires Grouped(groups) && k < |groups|
  {
    k + 1 < |groups| && groups[k + 1].bars[0].t <= ts
  }

  /** Bars of the two legs while contract k is in front and contract `source` supplies the front data. */
  ghost predicate LegBars(groups: seq<Contract>, source: nat, k: nat, ts: int, f: Bar, b: Bar)
    requires Grouped(groups) && source < |groups| && k < |groups|
  {
    FirstFrom(groups[source], ts, f) && if NextStarted(groups, k, ts) then FirstFrom(groups[k + 1], ts, b) else b == f
  }

  ghost predicate BothTrade(groups: seq<Contract>, source: nat, k: nat, ts: int)
    requires Grouped(groups) && source < |groups| && k < |groups|
  {
    TradesFrom(groups[source], ts) && (NextStarted(groups, k, ts) ==> TradesFrom(groups[k + 1], ts))
  }

  /** The contract has started, on a new day, and both legs have data. */
  ghost predicate Ready(groups: seq<Contract>, timeline: seq<int>, i: nat, active: nat)
    requires Grouped(groups) && i < |timeline| && active < |groups|
  {
    && (Opens(timeline, i) ==> groups[active].bars[0].t <= timeline[i])
    && BothTrade(groups, active, active, timeline[i])
  }

  /** The strategy leaves the contract. */
  ghost predicate Leaves(groups: seq<Contract>, rollNow: RollMethod, timeline: seq<int>, i: nat, active: nat)
    requires Grouped(groups) && i < |timeline| && active < |groups|
  {
    && Ready(groups, timeline, i, active) && Opens(timeline, i) && active < |groups| - 1
    && exists f, b :: LegBars(groups, active, active, timeline[i], f, b)
                      && rollNow(f, b, timeline[i] / 86_400_000_000_000)
  }

  /** Rows of one time: labels of the contracts in front, data of contract `active`. */
  ghost predicate RowsOf(groups: seq<Contract>, ts: int, active: nat, now: nat, front: Row, back: Row)
    requires Grouped(groups) && active < |groups| && now < |groups|
  {
    && LegBars(groups, active, now, ts, front.bar, back.bar) && front.t == back.t == ts
    && front.symbol == groups[now].symbol
    && back.symbol == groups[if now == |groups| - 1 then now else now + 1].symbol
  }

  lemma DataIs(g: Contract, ts: int)
    requires InOrder(g.bars)
    ensures GetData(g, ts).Some? <==> TradesFrom(g, ts)
    ensures forall b :: GetData(g, ts) == Some(b) <==> FirstFrom(g, ts, b)
  {
    var k := LowerBound(g.bars, ts);
    if k < |g.bars| { assert g.bars[k] in g.bars; }
    forall b | FirstFrom(g, ts, b) ensures GetData(g, ts) == Some(b) {
      var j :| 0 <= j < |g.bars| && g.bars[j] == b && b.t >= ts && forall i :: 0 <= i < j ==> g.bars[i].t < ts;
      assert j == k;
    }
  }

  lemma LegsAre(groups: seq<Contract>, source: nat, k: nat, ts: int)
    requires Grouped(groups) && source < |groups| && k < |groups|
    ensures GetData(groups[source], ts).Some? && BackData(groups, source, k, ts).Some? <==>
            BothTrade(groups, source, k, ts)
    ensures forall f, b :: LegBars(groups, source, k, ts, f, b) <==>
                           GetData(groups[source], ts) == Some(f) && BackData(groups, source, k, ts) == Some(b)
  {
    hide GetData, TradesFrom, FirstFrom, InOrder;
    DataIs(groups[source], ts);
    if k + 1 < |groups| { DataIs(groups[k + 1], ts); }
  }

  /**
   One time of the timeline.  On a new day contracts that have ended are passed over; a row is
   written exactly when the contract has started and both legs have data, before the strategy may
   leave it and after.
   */
  lemma DayByDay(groups: seq<Contract>, rollNow: RollMethod, timeline: seq<int>, i: nat) returns (active: nat)
    requires Grouped(groups) && i < |timeline|
    ensures var s := After(groups, rollNow, timeline, i);
            active < |groups| && if Opens(timeline, i) then Passed(groups, timeline[i], s.current, active)
                                 else active == s.current
    ensures var s, s' := After(groups, rollNow, timeline, i), After(groups, rollNow, timeline, i + 1);
            && s'.current == active + (if Leaves(groups, rollNow, timeline, i, active) then 1 else 0) < |groups|
            && s'.rolls == (if s'.current == s.current || (s.rolls != [] && s.rolls[|s.rolls| - 1] == |s.front|)
                            then s.rolls else s.rolls + [|s.front|])
            && if Ready(groups, timeline, i, active) && BothTrade(groups, active, s'.current, timeline[i]) then
                 && |s'.front| == |s.front| + 1 && |s'.back| == |s.back| + 1
                 && s'.front[..|s.front|] == s.front && s'.back[..|s.back|] == s.back
                 && RowsOf(groups, timeline[i], active, s'.current, s'.front[|s.front|], s'.back[|s.back|])
               else s'.front == s.front && s'.back == s.back
  {
    hide After, GetData, BackData, LegBars, TradesFrom, FirstFrom, Unexpired, Grouped;
    var s, ts := After(groups, rollNow, timeline, i), timeline[i];
    active := if NewDay(timeline, i) then Unexpired(groups, s.current, ts) else s.current;
    AfterNext(groups, rollNow, timeline, i);
    UnexpiredPasses(groups, s.current, ts);
    LegsAre(groups, active, active, ts);
    if active + 1 < |groups| { LegsAre(groups, active, active + 1, ts); }
  }

  /** After the first time of a day the front contract is the last one or has not ended. */
  lemma FrontLives(groups: seq<Contract>, rollNow: RollMethod, timeline: seq<int>, i: nat)
    requires Grouped(groups) && i < |timeline| && Opens(timeline, i)
    ensures var s, s' := After(groups, rollNow, timeline, i), After(groups, rollNow, timeline, i + 1);
            && s.current <= s'.current < |groups|
            && (s'.current == |groups| - 1 || LastTime(groups[s'.current]) >= timeline[i])
            && forall k :: s.current <= k < s'.current && LastTime(groups[k]) >= timeline[i] ==>
                 k == s'.current - 1 && Leaves(groups, rollNow, timeline, i, k)
  {
    hide After, LegBars, FirstFrom;
    var active := DayByDay(groups, rollNow, timeline, i);
  }
}
