/**
 When folding keeps meaning: exactly when each slice that is evaluated has the same period under
 the constants known where it stands and under those the folder uses.
 */
module FoldingExactness {
  import opened Wrappers
  import opened Graph
  import opened Ast
  import opened Registry
  import opened NodeIds
  import opened ConstantFolder
  import opened Denotation
  import opened ProgramMeaning
  import opened AstVisitor
  import opened Acceptance
  import opened FoldingMeaning
  import opened SliceAgreement

  // ---------------------------------------------------------------------- programs

  /** A run in which each statement is read with a table of its own. */
  ghost function DenoteWith(reg: Registry, math: Math, m: Module, tables: seq<Table>): Option<World>
    requires |m| == |tables|
  {
    if m == [] then Some(START)
    else
      var n := |m| - 1;
      var before :- DenoteWith(reg, math, m[..n], tables[..n]);
      DenoteStmt(reg, Source(math, tables[n]), m[n], before)
  }

  /** The constants known where each statement stands. */
  function Standing(math: Math, m: Module): seq<Table> {
    seq(|m|, i requires 0 <= i < |m| => Identify(math, m[..i], map[]))
  }

  function Throughout(m: Module, table: Table): seq<Table> { seq(|m|, i requires 0 <= i < |m| => table) }

  lemma {:induction false} ScriptStands(reg: Registry, math: Math, m: Module)
    ensures DenoteWith(reg, math, m, Standing(math, m)) == DenoteScript(reg, math, m)
  {
    if m != [] {
      var n := |m| - 1;
      ScriptStands(reg, math, m[..n]);
      forall i | 0 <= i < n ensures m[..n][..i] == m[..i] { }
      assert Standing(math, m)[..n] == Standing(math, m[..n]);
    }
  }

  lemma {:induction false} FoldedThroughout(reg: Registry, math: Math, m: Module, table: Table)
    requires LiteralsStable(reg, math, table)
    ensures DenoteModule(reg, Folded, FoldModule(math, m, table), START) ==
              DenoteWith(reg, math, m, Throughout(m, table))
  {
    hide LiteralsStable, FoldStmt, DenoteStmt;
    if m != [] {
      var n := |m| - 1;
      FoldedThroughout(reg, math, m[..n], table);
      assert FoldModule(math, m, table)[..n] == FoldModule(math, m[..n], table);
      assert Throughout(m, table)[..n] == Throughout(m[..n], table);
      if DenoteWith(reg, math, m[..n], Throughout(m[..n], table)).Some? {
        StmtKept(reg, math, m[n], table, DenoteWith(reg, math, m[..n], Throughout(m[..n], table)).value);
      }
    }
  }

  /** Every slice the statement evaluates has a period. */
  ghost predicate Readable(math: Math, t: Table, st: Stmt) {
    forall s :: s in Evaluated(ExprOf(st)) ==> SourcePeriod(math, s, t).Some?
  }

  /**
   Statement k under the two tables.  Accepted under the first, its slices agree; rejected, it stays
   so because of its form or because some slice it evaluates has no period under the second either.
   */
  ghost predicate AgreeAt(reg: Registry, math: Math, m: Module, ts: seq<Table>, us: seq<Table>, k: nat)
    requires k < |m| == |ts| == |us|
  {
    var w := DenoteWith(reg, math, m[..k], ts[..k]);
    w.Some? && ShapeOk(reg, m[k], w.value) ==>
      if Readable(math, ts[k], m[k]) then AgreeStmt(reg, Source(math, ts[k]), Source(math, us[k]), m[k])
      else !Readable(math, us[k], m[k])
  }

  ghost predicate SameSoFar(reg: Registry, math: Math, m: Module, ts: seq<Table>, us: seq<Table>, k: nat)
    requires k <= |m| == |ts| == |us|
  {
    DenoteWith(reg, math, m[..k], us[..k]) == DenoteWith(reg, math, m[..k], ts[..k])
  }

  lemma StepOn(reg: Registry, math: Math, m: Module, ts: seq<Table>, k: nat)
    requires k < |m| == |ts|
    ensures var w := DenoteWith(reg, math, m[..k], ts[..k]);
            DenoteWith(reg, math, m[..k + 1], ts[..k + 1])
            == if w.None? then None else DenoteStmt(reg, Source(math, ts[k]), m[k], w.value)
  {
    assert m[..k + 1][..k] == m[..k] && ts[..k + 1][..k] == ts[..k];
  }

  lemma AcceptedByTable(reg: Registry, math: Math, t: Table, st: Stmt, w: World)
    requires PlainRegistry(reg) && StmtOk(reg, st)
    ensures DenoteStmt(reg, Source(math, t), st, w).Some? <==> ShapeOk(reg, st, w) && Readable(math, t, st)
  {
    hide PlainRegistry, StmtOk, DenoteStmt, Evaluated, SourcePeriod;
    AcceptedExactly(reg, Source(math, t), st, w);
    assert forall s :: Period(Source(math, t), s) == SourcePeriod(math, s, t);
  }

  lemma StepDecides(reg: Registry, math: Math, m: Module, ts: seq<Table>, us: seq<Table>, k: nat)
    requires PlainRegistry(reg) && k < |m| == |ts| == |us| && StmtOk(reg, m[k]) && SameSoFar(reg, math, m, ts, us, k)
    ensures SameSoFar(reg, math, m, ts, us, k + 1) <==> AgreeAt(reg, math, m, ts, us, k)
  {
    hide PlainRegistry, StmtOk, AgreeStmt, DenoteStmt, DenoteWith, ShapeOk, Readable;
    StepOn(reg, math, m, ts, k);
    StepOn(reg, math, m, us, k);
    var w := DenoteWith(reg, math, m[..k], ts[..k]);
    if w.Some? {
      AcceptedByTable(reg, math, ts[k], m[k], w.value);
      AcceptedByTable(reg, math, us[k], m[k], w.value);
      if DenoteStmt(reg, Source(math, ts[k]), m[k], w.value).Some? {
        StmtDecides(reg, Source(math, ts[k]), Source(math, us[k]), m[k], w.value);
      }
    }
  }

  lemma {:induction false} SamePrefix(reg: Registry, math: Math, m: Module, ts: seq<Table>, us: seq<Table>, k: nat)
    requires PlainRegistry(reg) && k <= |m| == |ts| == |us| && forall st :: st in m ==> StmtOk(reg, st)
    requires forall j :: 0 <= j < k ==> AgreeAt(reg, math, m, ts, us, j)
    ensures SameSoFar(reg, math, m, ts, us, k)
  {
    hide PlainRegistry, StmtOk, AgreeAt, SameSoFar;
    if k == 0 {
      StartsSame(reg, math, m, ts, us);
    } else {
      SamePrefix(reg, math, m, ts, us, k - 1);
      assert m[k - 1] in m;
      StepDecides(reg, math, m, ts, us, k - 1);
    }
  }

  lemma StartsSame(reg: Registry, math: Math, m: Module, ts: seq<Table>, us: seq<Table>)
    requires |m| == |ts| == |us|
    ensures SameSoFar(reg, math, m, ts, us, 0)
  {
  }

  /** Two runs agree statement by statement exactly when the slices of every statement reached do. */
  lemma RunsDecide(reg: Registry, math: Math, m: Module, ts: seq<Table>, us: seq<Table>)
    requires PlainRegistry(reg) && |m| == |ts| == |us| && forall st :: st in m ==> StmtOk(reg, st)
    ensures (forall k :: 0 <= k <= |m| ==> SameSoFar(reg, math, m, ts, us, k))
            <==> forall k :: 0 <= k < |m| ==> AgreeAt(reg, math, m, ts, us, k)
  {
    hide PlainRegistry, StmtOk, AgreeAt, SameSoFar;
    if forall k :: 0 <= k < |m| ==> AgreeAt(reg, math, m, ts, us, k) {
      forall k | 0 <= k <= |m| ensures SameSoFar(reg, math, m, ts, us, k) { SamePrefix(reg, math, m, ts, us, k); }
    }
    if forall k :: 0 <= k <= |m| ==> SameSoFar(reg, math, m, ts, us, k) {
      forall k | 0 <= k < |m| ensures AgreeAt(reg, math, m, ts, us, k) {
        assert m[k] in m && SameSoFar(reg, math, m, ts, us, k) && SameSoFar(reg, math, m, ts, us, k + 1);
        StepDecides(reg, math, m, ts, us, k);
      }
    }
  }

  /** What the folder makes of the program means what the source means, statement by statement. */
  ghost predicate FoldsFaithfully(reg: Registry, math: Math, m: Module, old_: Table) {
    forall k :: 0 <= k < |m| ==> AgreeAt(reg, math, m, Standing(math, m), Throughout(m, Identify(math, m, old_)), k)
  }

  lemma WholeRun(reg: Registry, math: Math, m: Module, ts: seq<Table>)
    requires |m| == |ts|
    ensures DenoteWith(reg, math, m[..|m|], ts[..|m|]) == DenoteWith(reg, math, m, ts)
  {
    assert m[..|m|] == m && ts[..|m|] == ts;
  }

  lemma FoldedPrefix(reg: Registry, math: Math, m: Module, table: Table, k: nat)
    requires k <= |m| && LiteralsStable(reg, math, table)
    ensures DenoteModule(reg, Folded, FoldModule(math, m, table)[..k], START) ==
              DenoteWith(reg, math, m[..k], Throughout(m, table)[..k])
  {
    hide LiteralsStable, FoldStmt, DenoteStmt, DenoteModule, DenoteWith;
    FoldedThroughout(reg, math, m[..k], table);
    assert FoldModule(math, m, table)[..k] == FoldModule(math, m[..k], table);
    assert Throughout(m, table)[..k] == Throughout(m[..k], table);
  }

  lemma ScriptPrefixStands(reg: Registry, math: Math, m: Module, k: nat)
    requires k <= |m|
    ensures DenoteScript(reg, math, m[..k]) == DenoteWith(reg, math, m[..k], Standing(math, m)[..k])
  {
    ScriptStands(reg, math, m[..k]);
    forall i | 0 <= i < k ensures m[..k][..i] == m[..i] { }
    assert Standing(math, m)[..k] == Standing(math, m[..k]);
  }

  /** Folding changes nothing in any prefix of the run exactly when it is faithful. */
  lemma FoldingDecides(reg: Registry, math: Math, m: Module, old_: Table)
    requires PlainRegistry(reg) && (forall st :: st in m ==> StmtOk(reg, st))
    requires LiteralsStable(reg, math, Identify(math, m, old_))
    ensures (forall k :: 0 <= k <= |m| ==>
               DenoteModule(reg, Folded, FoldModule(math, m, Identify(math, m, old_))[..k], START) ==
                 DenoteScript(reg, math, m[..k]))
            <==> FoldsFaithfully(reg, math, m, old_)
  {
    hide PlainRegistry, StmtOk, LiteralsStable, AgreeAt, DenoteModule, DenoteScript, Identify;
    var table := Identify(math, m, old_);
    SizesOf(math, m, table);
    RunsDecide(reg, math, m, Standing(math, m), Throughout(m, table));
    forall k | 0 <= k <= |m|
      ensures SameSoFar(reg, math, m, Standing(math, m), Throughout(m, table), k) <==>
              DenoteModule(reg, Folded, FoldModule(math, m, table)[..k], START) == DenoteScript(reg, math, m[..k])
    {
      FoldedPrefix(reg, math, m, table, k);
      ScriptPrefixStands(reg, math, m, k);
    }
  }

  /** What an earlier program left in the table changes a run exactly when it changes a slice that is reached. */
  lemma LeftoversDecide(reg: Registry, math: Math, m: Module, old_: Table)
    requires PlainRegistry(reg) && forall st :: st in m ==> StmtOk(reg, st)
    requires LiteralsStable(reg, math, Identify(math, m, old_)) && LiteralsStable(reg, math, Identify(math, m, map[]))
    ensures (forall k :: 0 <= k <= |m| ==>
               DenoteModule(reg, Folded, FoldModule(math, m, Identify(math, m, old_))[..k], START)
               == DenoteModule(reg, Folded, FoldModule(math, m, Identify(math, m, map[]))[..k], START))
            <==> forall k :: 0 <= k < |m| ==>
                   AgreeAt(reg, math, m, Throughout(m, Identify(math, m, map[])),
                           Throughout(m, Identify(math, m, old_)), k)
  {
    hide PlainRegistry, StmtOk, LiteralsStable, AgreeAt, DenoteModule, Identify;
    var a, b := Identify(math, m, map[]), Identify(math, m, old_);
    SizesOf(math, m, a);
    SizesOf(math, m, b);
    RunsDecide(reg, math, m, Throughout(m, a), Throughout(m, b));
    forall k | 0 <= k <= |m|
      ensures SameSoFar(reg, math, m, Throughout(m, a), Throughout(m, b), k) <==>
              DenoteModule(reg, Folded, FoldModule(math, m, b)[..k], START) ==
                DenoteModule(reg, Folded, FoldModule(math, m, a)[..k], START)
    {
      FoldedPrefix(reg, math, m, a, k);
      FoldedPrefix(reg, math, m, b, k);
    }
  }

  /** Folding faithfully keeps the meaning of the program, whatever the table held before. */
  lemma FaithfulMeans(reg: Registry, math: Math, m: Module, old_: Table)
    requires PlainRegistry(reg) && (forall st :: st in m ==> StmtOk(reg, st)) && FoldsFaithfully(reg, math, m, old_)
    requires LiteralsStable(reg, math, Identify(math, m, old_))
    ensures DenoteModule(reg, Folded, FoldModule(math, m, Identify(math, m, old_)), START) == DenoteScript(reg, math, m)
  {
    hide PlainRegistry, StmtOk, AgreeAt, LiteralsStable, DenoteWith, DenoteScript, DenoteModule, Standing, Throughout;
    var table := Identify(math, m, old_);
    SizesOf(math, m, table);
    SamePrefix(reg, math, m, Standing(math, m), Throughout(m, table), |m|);
    WholeRun(reg, math, m, Standing(math, m));
    WholeRun(reg, math, m, Throughout(m, table));
    ScriptStands(reg, math, m);
    FoldedThroughout(reg, math, m, table);
  }

  lemma SizesOf(math: Math, m: Module, table: Table)
    ensures |Standing(math, m)| == |Throughout(m, table)| == |m|
  {
  }

  // ----------------------------------------------------------- programs that are kept

  /** Known constants stay as they are in the later table. */
  ghost predicate Carried(t: Table, u: Table, names: set<string>) {
    forall n :: n in names && n in t ==> n in u && u[n] == t[n]
  }

  lemma {:induction false} ConstantNames(slice: Expr, t: Table)
    requires IsConstantExpression(slice, t)
    ensures NamesIn(slice) <= t.Keys
  {
    match slice
    case UnaryOp(_, x) => ConstantNames(x, t);
    case BinOp(_, l, r) => ConstantNames(l, t); ConstantNames(r, t);
    case _ =>
  }

  lemma AcceptedPeriod(math: Math, slice: Expr, t: Table, u: Table)
    requires SourcePeriod(math, slice, t).Some? && Carried(t, u, NamesIn(slice))
    ensures SourcePeriod(math, slice, u) == SourcePeriod(math, slice, t)
  {
    ConstantNames(slice, t);
    SameConstants(math, slice, t, u);
  }

  /** Where the source is accepted, carried constants are all its slices need. */
  lemma AcceptedStmt(reg: Registry, math: Math, t: Table, u: Table, st: Stmt, w: World)
    requires DenoteStmt(reg, Source(math, t), st, w).Some? && Carried(t, u, SliceNames(ExprOf(st)))
    ensures AgreeStmt(reg, Source(math, t), Source(math, u), st) && Readable(math, t, st)
  {
    hide DenoteStmt, Evaluated, Agree, AgreeCall, SliceNames, SourcePeriod, NamesIn;
    var e, here, there := ExprOf(st), Source(math, t), Source(math, u);
    ReadsOfStmt(reg, here, st, w);
    EvaluatedNames(e);
    forall s | s in Evaluated(e) ensures Period(here, s).Some? && Period(there, s) == Period(here, s) {
      AcceptedPeriod(math, s, t, u);
    }
    forall kept ensures AllAgree(here, there, Evaluated(e), kept) { }
    AgreementOf(reg, here, there, e, true);
    if e.Call? {
      CallIsEvaluated(e);
      AgreementOfCall(reg, here, there, e, true);
      AgreementOfCall(reg, here, there, e, false);
    }
  }

  lemma {:induction false} BindAllKeys(sc: Scope, node: Value, names: seq<string>, outputs: seq<OutputPort>)
    requires |names| == |outputs|
    ensures sc.Keys <= BindAll(sc, node, names, outputs).Keys
  {
    if names != [] { BindAllKeys(sc, node, names[..|names| - 1], outputs[..|names| - 1]); }
  }

  /** An accepted statement keeps the scope and assigns no name, other than "_", that is taken. */
  lemma AcceptedAssigns(reg: Registry, mode: Mode, st: Stmt, w: World)
    requires DenoteStmt(reg, mode, st, w).Some?
    ensures w.scope.Keys <= DenoteStmt(reg, mode, st, w).value.scope.Keys
    ensures forall n :: n in AssignedBy(st) && n in w.scope ==> n == "_"
    ensures st.Assign? && !IsConstructorCall(st.rhs) ==> AssignedBy(st) <= DenoteStmt(reg, mode, st, w).value.scope.Keys
  {
    hide Denote, DenoteParse, Instantiate, BindAll;
    if st.Assign? && IsConstructorCall(st.rhs) && st.targets[0].Tuple? {
      var p := DenoteParse(reg, mode, st.rhs, !st.rhs.func.Call?, w.scope).value;
      BindAllKeys(w.scope, Instantiate(reg, p).value, NamesOf(st.targets[0].members), reg.components[p.kind].outputs);
    }
  }

  lemma {:induction false} RecordedNames(table: Table, targets: seq<Expr>, value: Const, n: string)
    requires n in RecordTargets(table, targets, value)
    ensures n in table || exists t :: t in targets && t.Name? && t.id == n
  {
    if targets != [] && n in RecordTargets(table, targets[..|targets| - 1], value) {
      RecordedNames(table, targets[..|targets| - 1], value, n);
    }
  }

  lemma ConstantIsNoCall(e: Expr, table: Table)
    requires IsConstantExpression(e, table)
    ensures !IsConstructorCall(e)
  {
  }

  /** Every recorded constant of an accepted program is a variable. */
  lemma {:induction false} RecordedInScope(reg: Registry, math: Math, m: Module, n: string)
    requires DenoteScript(reg, math, m).Some? && n in Identify(math, m, map[])
    ensures n in DenoteScript(reg, math, m).value.scope
  {
    hide DenoteStmt, IsConstantExpression, EvaluateConstant;
    var k := |m| - 1;
    var table, st := Identify(math, m[..k], map[]), m[k];
    var w := DenoteScript(reg, math, m[..k]).value;
    AcceptedAssigns(reg, Source(math, table), st, w);
    if n in table {
      RecordedInScope(reg, math, m[..k], n);
    } else {
      var value := EvaluateConstant(math, st.rhs, table).value;
      ConstantIsNoCall(st.rhs, table);
      RecordedNames(table, st.targets, value, n);
    }
  }

  /** Later statements of an accepted program never change a recorded constant other than "_". */
  lemma {:induction false} RecordedStays(reg: Registry, math: Math, m: Module, k: nat, n: string)
    requires k <= |m| && DenoteScript(reg, math, m).Some? && n != "_" && n in Identify(math, m[..k], map[])
    ensures n in Identify(math, m, map[]) && Identify(math, m, map[])[n] == Identify(math, m[..k], map[])[n]
  {
    hide DenoteStmt, AssignedBy;
    if k < |m| {
      var i := |m| - 1;
      assert m[..i][..k] == m[..k];
      RecordedStays(reg, math, m[..i], k, n);
      RecordedInScope(reg, math, m[..i], n);
      AcceptedAssigns(reg, Source(math, Identify(math, m[..i], map[])), m[i], DenoteScript(reg, math, m[..i]).value);
      RecordAgrees(math, Identify(math, m[..i], map[]), m[i], {n});
    } else {
      assert m[..k] == m;
    }
  }

  lemma {:induction false} ScriptPrefix(reg: Registry, math: Math, m: Module, k: nat)
    requires k <= |m| && DenoteScript(reg, math, m).Some?
    ensures DenoteScript(reg, math, m[..k]).Some?
  {
    if k < |m| {
      ScriptPrefix(reg, math, m[..|m| - 1], k);
      assert m[..|m| - 1][..k] == m[..k];
    } else {
      assert m[..k] == m;
    }
  }

  lemma StandingPrefix(reg: Registry, math: Math, m: Module, k: nat)
    requires k < |m|
    ensures DenoteWith(reg, math, m[..k], Standing(math, m)[..k]) == DenoteScript(reg, math, m[..k])
    ensures Standing(math, m)[k] == Identify(math, m[..k], map[])
  {
    ScriptStands(reg, math, m[..k]);
    forall i | 0 <= i < k ensures m[..k][..i] == m[..i] { }
    assert Standing(math, m)[..k] == Standing(math, m[..k]);
  }

  /** A program with a source meaning keeps it, provided no slice uses the throw-away name. */
  lemma AcceptedFoldsFaithfully(reg: Registry, math: Math, m: Module)
    requires DenoteScript(reg, math, m).Some?
    requires forall i :: 0 <= i < |m| ==> "_" !in SliceNames(ExprOf(m[i]))
    ensures FoldsFaithfully(reg, math, m, map[])
  {
    hide DenoteStmt, AgreeStmt, SliceNames, Identify, Standing, DenoteWith, DenoteScript, ShapeOk, Readable;
    var u := Identify(math, m, map[]);
    SizesOf(math, m, u);
    forall k | 0 <= k < |m| ensures AgreeAt(reg, math, m, Standing(math, m), Throughout(m, u), k) {
      var t := Identify(math, m[..k], map[]);
      StandingPrefix(reg, math, m, k);
      ScriptPrefix(reg, math, m, k);
      AcceptedNext(reg, math, m, k);
      forall n | n in SliceNames(ExprOf(m[k])) && n in t ensures n in u && u[n] == t[n] {
        RecordedStays(reg, math, m, k, n);
      }
      AcceptedStmt(reg, math, t, u, m[k], DenoteScript(reg, math, m[..k]).value);
      assert Throughout(m, u)[k] == u;
    }
  }

  lemma AcceptedNext(reg: Registry, math: Math, m: Module, k: nat)
    requires k < |m| && DenoteScript(reg, math, m).Some? && DenoteScript(reg, math, m[..k]).Some?
    ensures DenoteStmt(reg, Source(math, Identify(math, m[..k], map[])), m[k],
                       DenoteScript(reg, math, m[..k]).value).Some?
  {
    hide DenoteStmt, Identify;
    ScriptPrefix(reg, math, m, k + 1);
    assert m[..k + 1][..k] == m[..k];
  }

  /** So does a program that uses no name in a slice that the same or a later statement assigns. */
  lemma DefinedFoldsFaithfully(reg: Registry, math: Math, m: Module)
    requires DefinedBeforeUse(m) && PlainRegistry(reg) && forall st :: st in m ==> StmtOk(reg, st)
    ensures FoldsFaithfully(reg, math, m, map[])
  {
    hide DenoteStmt, AgreeStmt, SliceNames, Identify, Standing, DenoteWith, PlainRegistry, StmtOk, AgreeOn, ShapeOk,
         Readable;
    var u := Identify(math, m, map[]);
    SizesOf(math, m, u);
    forall k | 0 <= k < |m| ensures AgreeAt(reg, math, m, Standing(math, m), Throughout(m, u), k) {
      var t := Identify(math, m[..k], map[]);
      StandingPrefix(reg, math, m, k);
      IdentifyAgrees(math, m, k, SliceNames(ExprOf(m[k])));
      assert Throughout(m, u)[k] == u && m[k] in m;
      forall w
        ensures ShapeOk(reg, m[k], w) ==>
                  if Readable(math, t, m[k]) then AgreeStmt(reg, Source(math, t), Source(math, u), m[k])
                  else !Readable(math, u, m[k])
      {
        StmtSame(reg, math, m[k], t, u, w);
        AcceptedByTable(reg, math, t, m[k], w);
        AcceptedByTable(reg, math, u, m[k], w);
        if DenoteStmt(reg, Source(math, t), m[k], w).Some? {
          StmtDecides(reg, Source(math, t), Source(math, u), m[k], w);
        }
      }
    }
  }
}
