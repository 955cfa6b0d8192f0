/** Programs whose meaning folding changes, and the rewrites behind them. */
module FoldingExamples {
  import opened Wrappers
  import opened Ast
  import opened Registry
  import opened ConstantFolder
  import opened Denotation
  import opened ProgramMeaning
  import opened FoldingMeaning
  import opened PeriodShapes
  import opened Acceptance
  import opened FoldingExactness

  // -------------------------------------------------------------- where it breaks down

  const TWO := Assign([Name("x")], Constant(DoubleC(2.0)))
  const LATE_USE := Assign([Name("y")], Subscript(Name("x"), Name("k")))
  const LATE_CONSTANT := Assign([Name("k")], Constant(IntC(1)))

  function Throw(i: int): Stmt { Assign([Name("_")], Constant(IntC(i))) }

  const THROWN_USE := Assign([Name("y")], Subscript(Name("x"), Name("_")))

  lemma OneTarget(math: Math, table: Table, x: string, c: Const)
    ensures Record(math, table, Assign([Name(x)], Constant(c))) == table[x := c]
  {
    assert [Name(x)][..0] == [];
    assert RecordTargets(table, [Name(x)], c) == table[x := c];
  }

  lemma UseRecordsNothing(math: Math, table: Table, slice: Expr)
    ensures Record(math, table, Assign([Name("y")], Subscript(Name("x"), slice))) == table
  {
  }

  lemma UseMeans(reg: Registry, mode: Mode, slice: Expr, w: World)
    requires "x" in w.scope && w.scope["x"] == Handle(Literal(DoubleC(2.0))) && "y" !in w.scope
    ensures DenoteStmt(reg, mode, Assign([Name("y")], Subscript(Name("x"), slice)), w)
            == match Period(mode, slice)
               case None => None
               case Some(p) =>
                 var d :- Lag(reg, Literal(DoubleC(2.0)), p);
                 Some(World(w.scope["y" := Handle(d)], w.sinks))
  {
    assert |"x"| != |"true"| && |"x"| != |"false"|;
    assert Denote(reg, mode, Name("x"), w.scope) == Some(Literal(DoubleC(2.0)));
    var e := Subscript(Name("x"), slice);
    assert Denote(reg, mode, e, w.scope)
        == if Period(mode, slice).None? then None else Lag(reg, Literal(DoubleC(2.0)), Period(mode, slice).value);
  }

  lemma ConstantMeans(reg: Registry, mode: Mode, x: string, c: Const, w: World)
    requires x == "_" || x !in w.scope
    ensures DenoteStmt(reg, mode, Assign([Name(x)], Constant(c)), w) ==
              Some(World(w.scope[x := Handle(Literal(c))], w.sinks))
  {
  }

  lemma ModuleSnoc(reg: Registry, mode: Mode, m: Module, st: Stmt)
    ensures DenoteModule(reg, mode, m + [st], START)
            == if DenoteModule(reg, mode, m, START).None? then None
               else DenoteStmt(reg, mode, st, DenoteModule(reg, mode, m, START).value)
  {
    assert (m + [st])[..|m|] == m;
  }

  lemma ScriptSnoc(reg: Registry, math: Math, m: Module, st: Stmt)
    ensures DenoteScript(reg, math, m + [st])
            == if DenoteScript(reg, math, m).None? then None
               else DenoteStmt(reg, Source(math, Identify(math, m, map[])), st, DenoteScript(reg, math, m).value)
    ensures forall old_ :: Identify(math, m + [st], old_) == Record(math, Identify(math, m, old_), st)
  {
    assert (m + [st])[..|m|] == m;
  }

  /** y = x[k] has the right form; whether it is accepted is up to what the table has for k. */
  lemma UseReads(reg: Registry, math: Math, t: Table)
    requires "lag_number" in reg.components
    ensures ShapeOk(reg, LATE_USE, World(map["x" := Handle(Literal(DoubleC(2.0)))], []))
    ensures Readable(math, t, LATE_USE) <==> "k" in t && t["k"].IntC? && t["k"].i != 0
  {
    hide DenoteStmt, Lag, Literal;
    UseMeans(reg, Presumed, Name("k"), World(map["x" := Handle(Literal(DoubleC(2.0)))], []));
    LagExists(reg, 1);
    assert Evaluated(ExprOf(LATE_USE)) == {Name("k")} by { assert Evaluated(Name("x")) == {}; }
    assert Name("k") in {Name("k")};
  }

  /** At the second statement the two tables differ in whether k has a period. */
  lemma UseDiffers(reg: Registry, math: Math, m: Module, ts: seq<Table>, us: seq<Table>)
    requires "lag_number" in reg.components && |m| == |ts| == |us| >= 2 && m[0] == TWO && m[1] == LATE_USE
    requires !Readable(math, ts[1], LATE_USE) && Readable(math, us[1], LATE_USE)
    ensures !AgreeAt(reg, math, m, ts, us, 1)
  {
    hide DenoteStmt, Literal, Readable, ShapeOk;
    UseReads(reg, math, ts[1]);
    assert m[..1] == [TWO] && m[..1][..0] == [] && ts[..1] == [ts[0]] && ts[..1][..0] == [];
    ConstantMeans(reg, Source(math, ts[0]), "x", DoubleC(2.0), START);
    assert DenoteWith(reg, math, [], []) == Some(START);
    assert DenoteWith(reg, math, m[..1], ts[..1]) == DenoteStmt(reg, Source(math, ts[0]), TWO, START);
    assert START.scope["x" := Handle(Literal(DoubleC(2.0)))] == map["x" := Handle(Literal(DoubleC(2.0)))];
  }

  /**
   x = 2.0; y = x[k]; k = 1: the source is rejected and its folded form accepted, because k has a
   period in the final table and none where it is used.
   */
  lemma LateConstantIsAccepted(reg: Registry, math: Math)
    requires "lag_number" in reg.components
    ensures var m := [TWO, LATE_USE, LATE_CONSTANT];
            && DenoteScript(reg, math, m) == None
            && DenoteModule(reg, Folded, FoldModule(math, m, Identify(math, m, map[])), START).Some?
            && !FoldsFaithfully(reg, math, m, map[])
  {
    hide DenoteStmt, Record, Lag, Literal, AgreeAt, Readable, Identify, DenoteScript, DenoteModule, FoldModule;
    var m, t := [TWO, LATE_USE, LATE_CONSTANT], map["x" := DoubleC(2.0)];
    var u := Identify(math, m, map[]);
    LateConstantRuns(reg, math);
    LateTables(math);
    UseReads(reg, math, t);
    UseReads(reg, math, u);
    SizesOf(math, m, u);
    assert m[..1] == [TWO] && Standing(math, m)[1] == t && Throughout(m, u)[1] == u;
    UseDiffers(reg, math, m, Standing(math, m), Throughout(m, u));
  }

  lemma LateTables(math: Math)
    ensures Identify(math, [TWO], map[]) == map["x" := DoubleC(2.0)]
    ensures Identify(math, [TWO, LATE_USE, LATE_CONSTANT], map[]) == map["x" := DoubleC(2.0), "k" := IntC(1)]
  {
    hide Record;
    LeakTables(math);
    assert [TWO, LATE_USE, LATE_CONSTANT][..2] == [TWO, LATE_USE] && [TWO][..0] == [];
    OneTarget(math, map[], "x", DoubleC(2.0));
    OneTarget(math, map["x" := DoubleC(2.0)], "k", IntC(1));
  }

  lemma LateConstantRuns(reg: Registry, math: Math)
    requires "lag_number" in reg.components
    ensures var m := [TWO, LATE_USE, LATE_CONSTANT];
            && DenoteScript(reg, math, m) == None
            && DenoteModule(reg, Folded, FoldModule(math, m, Identify(math, m, map[])), START).Some?
  {
    hide DenoteStmt, Record, Lag, Literal, DenoteModule, DenoteScript;
    var m := [TWO, LATE_USE, LATE_CONSTANT];
    assert m == ([] + [TWO] + [LATE_USE]) + [LATE_CONSTANT];
    ScriptSnoc(reg, math, [], TWO);
    ScriptSnoc(reg, math, [] + [TWO], LATE_USE);
    ScriptSnoc(reg, math, [] + [TWO] + [LATE_USE], LATE_CONSTANT);
    OneTarget(math, map[], "x", DoubleC(2.0));
    UseRecordsNothing(math, map["x" := DoubleC(2.0)], Name("k"));
    OneTarget(math, map["x" := DoubleC(2.0)], "k", IntC(1));
    EmptyRuns(reg, math, Folded);
    ConstantMeans(reg, Source(math, map[]), "x", DoubleC(2.0), START);
    var w := World(map["x" := Handle(Literal(DoubleC(2.0)))], []);
    UseMeans(reg, Source(math, map["x" := DoubleC(2.0)]), Name("k"), w);
    FoldedLagRun(reg, math, m, Identify(math, m, map[]), 1);
  }

  lemma EmptyRuns(reg: Registry, math: Math, mode: Mode)
    ensures DenoteScript(reg, math, []) == Some(START) == DenoteModule(reg, mode, [], START)
    ensures Identify(math, [], map[]) == map[]
  {
  }

  lemma LagExists(reg: Registry, p: int)
    requires "lag_number" in reg.components
    ensures Lag(reg, Literal(DoubleC(2.0)), p).Some?
  {
  }

  lemma FoldedUse(math: Math, table: Table, x: string, p: int)
    requires x in table && table[x] == IntC(p)
    ensures FoldStmt(math, Assign([Name("y")], Subscript(Name("x"), Name(x))), table)
            == Assign([Name("y")], Subscript(Name("x"), Constant(IntC(p))))
  {
    assert IsConstantExpression(Name(x), table) && EvaluateConstant(math, Name(x), table) == Some(IntC(p));
    assert FoldSlice(math, Name(x), table) == Constant(IntC(p));
    assert TransformExpression(math, Name("x"), table) == Name("x");
  }

  /** The folded form of x = 2.0; y = x[k]; k = 1. */
  lemma FoldedLagRun(reg: Registry, math: Math, m: Module, table: Table, p: int)
    requires m == [TWO, LATE_USE, LATE_CONSTANT] && "lag_number" in reg.components && p != 0
    requires "k" in table && table["k"] == IntC(p)
    ensures DenoteModule(reg, Folded, FoldModule(math, m, table), START).Some?
  {
    hide DenoteStmt, Lag, Literal, DenoteModule, FoldStmt;
    var use := Assign([Name("y")], Subscript(Name("x"), Constant(IntC(p))));
    FoldedUse(math, table, "k", p);
    FoldedConstant(math, table, "x", DoubleC(2.0));
    FoldedConstant(math, table, "k", IntC(1));
    assert FoldModule(math, m, table) == ([] + [TWO] + [use]) + [LATE_CONSTANT];
    EmptyRuns(reg, math, Folded);
    ModuleSnoc(reg, Folded, [], TWO);
    ModuleSnoc(reg, Folded, [] + [TWO], use);
    ModuleSnoc(reg, Folded, [] + [TWO] + [use], LATE_CONSTANT);
    ConstantMeans(reg, Folded, "x", DoubleC(2.0), START);
    var w := World(map["x" := Handle(Literal(DoubleC(2.0)))], []);
    UseMeans(reg, Folded, Constant(IntC(p)), w);
    LagExists(reg, p);
    var w' := World(w.scope["y" := Handle(Lag(reg, Literal(DoubleC(2.0)), p).value)], []);
    ConstantMeans(reg, Folded, "k", IntC(1), w');
  }

  lemma FoldedConstant(math: Math, table: Table, x: string, c: Const)
    ensures FoldStmt(math, Assign([Name(x)], Constant(c)), table) == Assign([Name(x)], Constant(c))
  {
  }

  /** _ = 1; x = 2.0; y = x[_]; _ = 2: both are accepted, and y lags by 1 or by 2. */
  lemma ThrowawayChanges(reg: Registry, math: Math)
    requires "lag_number" in reg.components
    ensures var m := [Throw(1), TWO, THROWN_USE, Throw(2)];
            var folded := DenoteModule(reg, Folded, FoldModule(math, m, Identify(math, m, map[])), START);
            var script := DenoteScript(reg, math, m);
            folded.Some? && script.Some? && "y" in folded.value.scope && "y" in script.value.scope
            && folded.value.scope["y"] != script.value.scope["y"]
  {
    hide DenoteStmt, Record, Lag, Literal, DenoteModule, DenoteScript, Identify, FoldStmt;
    var m := [Throw(1), TWO, THROWN_USE, Throw(2)];
    ThrownScript(reg, math);
    ThrownTable(math);
    ThrownFolded(reg, math, Identify(math, m, map[]));
    LagExists(reg, 1);
    LagExists(reg, 2);
    LagsDiffer(reg);
  }

  lemma LagsDiffer(reg: Registry)
    requires "lag_number" in reg.components
    ensures Lag(reg, Literal(DoubleC(2.0)), 1) != Lag(reg, Literal(DoubleC(2.0)), 2)
  {
    LagAlike(reg, Literal(DoubleC(2.0)), 1, Literal(DoubleC(2.0)), 2);
    LagExists(reg, 1);
  }

  lemma ThrownTable(math: Math)
    ensures var table := Identify(math, [Throw(1), TWO, THROWN_USE, Throw(2)], map[]);
            "_" in table && table["_"] == IntC(2)
  {
    hide Record;
    var m := [Throw(1), TWO, THROWN_USE];
    assert [Throw(1), TWO, THROWN_USE, Throw(2)][..3] == m;
    OneTarget(math, Identify(math, m, map[]), "_", IntC(2));
  }

  lemma ThrownScript(reg: Registry, math: Math)
    requires "lag_number" in reg.components
    ensures var r := DenoteScript(reg, math, [Throw(1), TWO, THROWN_USE, Throw(2)]);
            r.Some? && "y" in r.value.scope && r.value.scope["y"] == Handle(Lag(reg, Literal(DoubleC(2.0)), 1).value)
  {
    hide DenoteStmt, Record, Lag, Literal, DenoteModule, DenoteScript;
    var a, b, c := [] + [Throw(1)], [] + [Throw(1)] + [TWO], [] + [Throw(1)] + [TWO] + [THROWN_USE];
    assert [Throw(1), TWO, THROWN_USE, Throw(2)] == c + [Throw(2)];
    EmptyRuns(reg, math, Folded);
    ScriptSnoc(reg, math, [], Throw(1));
    ScriptSnoc(reg, math, a, TWO);
    ScriptSnoc(reg, math, b, THROWN_USE);
    ScriptSnoc(reg, math, c, Throw(2));
    OneTarget(math, map[], "_", IntC(1));
    OneTarget(math, map["_" := IntC(1)], "x", DoubleC(2.0));
    var t := map["_" := IntC(1), "x" := DoubleC(2.0)];
    assert Identify(math, b, map[]) == t;
    UseRecordsNothing(math, t, Name("_"));
    ConstantMeans(reg, Source(math, map[]), "_", IntC(1), START);
    var w1 := World(map["_" := Handle(Literal(IntC(1)))], []);
    ConstantMeans(reg, Source(math, map["_" := IntC(1)]), "x", DoubleC(2.0), w1);
    var w2 := World(w1.scope["x" := Handle(Literal(DoubleC(2.0)))], []);
    UseMeans(reg, Source(math, t), Name("_"), w2);
    ThrownPeriod(math, t, 1);
    LagExists(reg, 1);
    var w3 := World(w2.scope["y" := Handle(Lag(reg, Literal(DoubleC(2.0)), 1).value)], []);
    ConstantMeans(reg, Source(math, t), "_", IntC(2), w3);
  }

  lemma ThrownPeriod(math: Math, t: Table, p: int)
    requires "_" in t && t["_"] == IntC(p) && p != 0
    ensures SourcePeriod(math, Name("_"), t) == Some(p)
  {
  }

  lemma ThrownFolded(reg: Registry, math: Math, table: Table)
    requires "lag_number" in reg.components && "_" in table && table["_"] == IntC(2)
    ensures var r := DenoteModule(reg, Folded, FoldModule(math, [Throw(1), TWO, THROWN_USE, Throw(2)], table), START);
            r.Some? && "y" in r.value.scope && r.value.scope["y"] == Handle(Lag(reg, Literal(DoubleC(2.0)), 2).value)
  {
    hide DenoteStmt, Lag, Literal, DenoteModule, FoldStmt;
    var use := Assign([Name("y")], Subscript(Name("x"), Constant(IntC(2))));
    FoldedUse(math, table, "_", 2);
    FoldedConstant(math, table, "_", IntC(1));
    FoldedConstant(math, table, "x", DoubleC(2.0));
    FoldedConstant(math, table, "_", IntC(2));
    var a, b, c := [] + [Throw(1)], [] + [Throw(1)] + [TWO], [] + [Throw(1)] + [TWO] + [use];
    assert FoldModule(math, [Throw(1), TWO, THROWN_USE, Throw(2)], table) == c + [Throw(2)];
    EmptyRuns(reg, math, Folded);
    ModuleSnoc(reg, Folded, [], Throw(1));
    ModuleSnoc(reg, Folded, a, TWO);
    ModuleSnoc(reg, Folded, b, use);
    ModuleSnoc(reg, Folded, c, Throw(2));
    ConstantMeans(reg, Folded, "_", IntC(1), START);
    var w1 := World(map["_" := Handle(Literal(IntC(1)))], []);
    ConstantMeans(reg, Folded, "x", DoubleC(2.0), w1);
    var w2 := World(w1.scope["x" := Handle(Literal(DoubleC(2.0)))], []);
    UseMeans(reg, Folded, Constant(IntC(2)), w2);
    LagExists(reg, 2);
    var w3 := World(w2.scope["y" := Handle(Lag(reg, Literal(DoubleC(2.0)), 2).value)], []);
    ConstantMeans(reg, Folded, "_", IntC(2), w3);
  }

  /** x = 2.0; y = x[k] alone is rejected, but not after a program that set k = 1 and so gave k a period. */
  lemma ConstantsLeak(reg: Registry, math: Math)
    requires "lag_number" in reg.components
    ensures var first, second := [LATE_CONSTANT], [TWO, LATE_USE];
            var leaked := Identify(math, second, Identify(math, first, map[]));
            && DenoteScript(reg, math, second) == None
            && DenoteModule(reg, Folded, FoldModule(math, second, Identify(math, second, map[])), START) == None
            && DenoteModule(reg, Folded, FoldModule(math, second, leaked), START).Some?
            && !AgreeAt(reg, math, second, Throughout(second, Identify(math, second, map[])),
                        Throughout(second, leaked), 1)
  {
    hide DenoteStmt, Lag, Literal, DenoteModule, DenoteScript, Identify, FoldModule, AgreeAt, Readable;
    LeakTables(math);
    UseReads(reg, math, map["x" := DoubleC(2.0)]);
    UseReads(reg, math, map["k" := IntC(1), "x" := DoubleC(2.0)]);
    UseDiffers(reg, math, [TWO, LATE_USE], Throughout([TWO, LATE_USE], map["x" := DoubleC(2.0)]),
               Throughout([TWO, LATE_USE], map["k" := IntC(1), "x" := DoubleC(2.0)]));
    AloneIsRejected(reg, math);
    var w := World(map["x" := Handle(Literal(DoubleC(2.0)))], []);
    FoldedPair(reg, math, map["x" := DoubleC(2.0)], w);
    FoldedPair(reg, math, map["k" := IntC(1), "x" := DoubleC(2.0)], w);
  }

  lemma LeakTables(math: Math)
    ensures Identify(math, [LATE_CONSTANT], map[]) == map["k" := IntC(1)]
    ensures Identify(math, [TWO, LATE_USE], map[]) == map["x" := DoubleC(2.0)]
    ensures Identify(math, [TWO, LATE_USE], map["k" := IntC(1)]) == map["k" := IntC(1), "x" := DoubleC(2.0)]
  {
    hide Record;
    assert [LATE_CONSTANT][..0] == [] && [TWO, LATE_USE][..1] == [TWO] && [TWO][..0] == [];
    OneTarget(math, map[], "k", IntC(1));
    OneTarget(math, map[], "x", DoubleC(2.0));
    OneTarget(math, map["k" := IntC(1)], "x", DoubleC(2.0));
    assert Identify(math, [TWO], map["k" := IntC(1)]) == map["k" := IntC(1), "x" := DoubleC(2.0)];
    UseRecordsNothing(math, map["x" := DoubleC(2.0)], Name("k"));
    UseRecordsNothing(math, map["k" := IntC(1), "x" := DoubleC(2.0)], Name("k"));
  }

  lemma AloneIsRejected(reg: Registry, math: Math)
    ensures DenoteScript(reg, math, [TWO, LATE_USE]) == None
  {
    hide DenoteStmt, Record, Lag, Literal, DenoteScript;
    var a := [] + [TWO];
    assert [TWO, LATE_USE] == a + [LATE_USE];
    EmptyRuns(reg, math, Folded);
    ScriptSnoc(reg, math, [], TWO);
    ScriptSnoc(reg, math, a, LATE_USE);
    OneTarget(math, map[], "x", DoubleC(2.0));
    ConstantMeans(reg, Source(math, map[]), "x", DoubleC(2.0), START);
    UseMeans(reg, Source(math, map["x" := DoubleC(2.0)]), Name("k"),
             World(map["x" := Handle(Literal(DoubleC(2.0)))], []));
  }

  /** What becomes of x = 2.0; y = x[k] under a table. */
  lemma FoldedPair(reg: Registry, math: Math, table: Table, w: World)
    requires "lag_number" in reg.components && w == World(map["x" := Handle(Literal(DoubleC(2.0)))], [])
    ensures "k" !in table ==> DenoteModule(reg, Folded, FoldModule(math, [TWO, LATE_USE], table), START) == None
    ensures "k" in table && table["k"] == IntC(1) ==>
              DenoteModule(reg, Folded, FoldModule(math, [TWO, LATE_USE], table), START).Some?
  {
    hide DenoteStmt, Lag, Literal, DenoteModule, FoldStmt;
    var use := FoldStmt(math, LATE_USE, table);
    var slice := FoldSlice(math, Name("k"), table);
    FoldedForm(math, table);
    FoldedConstant(math, table, "x", DoubleC(2.0));
    assert FoldModule(math, [TWO, LATE_USE], table) == ([] + [TWO]) + [use];
    EmptyRuns(reg, math, Folded);
    ModuleSnoc(reg, Folded, [], TWO);
    ModuleSnoc(reg, Folded, [] + [TWO], use);
    ConstantMeans(reg, Folded, "x", DoubleC(2.0), START);
    FoldedSlice(math, Name("k"), table);
    UseMeans(reg, Folded, slice, w);
    LagExists(reg, 1);
  }

  lemma FoldedForm(math: Math, table: Table)
    ensures FoldStmt(math, LATE_USE, table) ==
              Assign([Name("y")], Subscript(Name("x"), FoldSlice(math, Name("k"), table)))
  {
    assert TransformExpression(math, Name("x"), table) == Name("x");
  }
}
