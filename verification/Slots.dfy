/**
 Slot texts in options: "SLOT" or "SLOT<k>" stands for the k-th positional argument of the feed
 step being wired.  The same resolution runs on texts, where the arguments are references, and
 on meanings, where they are values.
 */
module Slots {
  import opened Wrappers
  import opened Graph
  import opened Registry
  import opened NodeIds

  datatype Slot = NotSlot | Unreadable | At(index: nat)

  function SlotOf(reg: Registry, text: string): Slot {
    if !SlotText(text) then NotSlot
    else if text[4..] == "" then At(0)
    else match reg.slotNumber(text[4..])
      case None => Unreadable
      case Some(k) => At(k)
  }

  /** A resolved or external value is no longer a slot text. */
  function SlotOfValue(reg: Registry, v: Value): Slot {
    if v.External? then SlotOf(reg, v.ref) else NotSlot
  }

  // ---------------------------------------------------------------------- resolution

  function ResolveCell<T>(slot: Slot, cell: T, args: seq<T>): Option<T> {
    match slot
    case At(k) => if k < |args| then Some(args[k]) else None
    case _ => Some(cell)
  }

  function ResolveCells<T>(slots: seq<Slot>, cells: seq<T>, args: seq<T>): Option<seq<T>>
    requires |slots| == |cells|
  {
    if cells == [] then Some([])
    else
      var n := |cells| - 1;
      var init :- ResolveCells(slots[..n], cells[..n], args);
      var last :- ResolveCell(slots[n], cells[n], args);
      Some(init + [last])
  }

  datatype Cells<T> = Cells(selected: T, columns: seq<T>)

  /**
   A strict schema must select a slot; the other kind is left alone, columns included, when the
   number of its selecting slot cannot be read.
   */
  function ResolveSchema<T>(strict: bool, slot: Slot, slots: seq<Slot>, s: Cells<T>, args: seq<T>): Option<Cells<T>>
    requires |slots| == |s.columns|
  {
    if strict && !slot.At? then None
    else if slot.Unreadable? then Some(s)
    else
      var selected :- ResolveCell(slot, s.selected, args);
      var columns :- ResolveCells(slots, s.columns, args);
      Some(Cells(selected, columns))
  }

  function SlotsOf(reg: Registry, texts: seq<string>): seq<Slot> {
    seq(|texts|, i requires 0 <= i < |texts| => SlotOf(reg, texts[i]))
  }

  function SlotsOfValues(reg: Registry, vs: seq<Value>): seq<Slot> {
    seq(|vs|, i requires 0 <= i < |vs| => SlotOfValue(reg, vs[i]))
  }

  function ResolveOption(reg: Registry, o: OptionValue, refs: seq<string>): Option<OptionValue> {
    match o
    case Text(t) =>
      var r :- ResolveCell(SlotOf(reg, t), t, refs);
      Some(Text(r))
    case Schema(strict, s, cs) =>
      var r :- ResolveSchema(strict, SlotOf(reg, s), SlotsOf(reg, cs), Cells(s, cs), refs);
      Some(Schema(strict, r.selected, r.columns))
    case _ => Some(o)
  }

  function ResolveMeaning(reg: Registry, m: Meaning, args: seq<Value>): Option<Meaning> {
    match m
    case Raw(_) => Some(m)
    case TextMeaning(v) =>
      var r :- ResolveCell(SlotOfValue(reg, v), v, args);
      Some(TextMeaning(r))
    case SchemaMeaning(strict, s, cs) =>
      var r :- ResolveSchema(strict, SlotOfValue(reg, s), SlotsOfValues(reg, cs), Cells(s, cs), args);
      Some(SchemaMeaning(strict, r.selected, r.columns))
  }

  // --------------------------------------------------------- both resolutions agree

  /** A text in an option under construction: no reference, or one to a known node. */
  ghost predicate KnownText(f: string, v: Valuation) {
    Refers(f) ==> NodeOf(f) in v && PlainName(NodeOf(f))
  }

  /** The references of the arguments and what they stand for. */
  ghost predicate RefsMean(refs: seq<string>, args: seq<Value>, v: Valuation) {
    && |refs| == |args|
    && forall i :: 0 <= i < |refs| ==>
         Refers(refs[i]) && KnownText(refs[i], v) && FieldValue(refs[i], v) == args[i]
  }

  lemma SameSlot(reg: Registry, f: string, v: Valuation)
    requires KnownText(f, v)
    ensures SlotOfValue(reg, FieldValue(f, v)) == SlotOf(reg, f)
  {
    if Refers(f) {
      Rejoin(f);
      var id := NodeOf(f);
      assert f[..|id|] == id;
      assert |id| < 4 && |id| < |f| ==> f[|id|] == '#';
    }
  }

  lemma CellAgrees(reg: Registry, f: string, refs: seq<string>, args: seq<Value>, v: Valuation)
    requires KnownText(f, v) && RefsMean(refs, args, v)
    ensures var a, b := ResolveCell(SlotOf(reg, f), f, refs),
                        ResolveCell(SlotOfValue(reg, FieldValue(f, v)), FieldValue(f, v), args);
            && (a.Some? <==> b.Some?)
            && (a.Some? ==>
                  FieldValue(a.value, v) == b.value && KnownText(a.value, v) && (a.value == f || a.value in refs))
  {
    SameSlot(reg, f, v);
  }

  ghost predicate KnownTexts(fs: seq<string>, v: Valuation) {
    forall i :: 0 <= i < |fs| ==> KnownText(fs[i], v)
  }

  lemma {:induction false} CellsAgree(reg: Registry, fs: seq<string>, refs: seq<string>, args: seq<Value>, v: Valuation)
    requires KnownTexts(fs, v) && RefsMean(refs, args, v)
    ensures var a, b := ResolveCells(SlotsOf(reg, fs), fs, refs),
                        ResolveCells(SlotsOfValues(reg, FieldValues(fs, v)), FieldValues(fs, v), args);
            && (a.Some? <==> b.Some?)
            && (a.Some? ==> FieldValues(a.value, v) == b.value && KnownTexts(a.value, v)
                            && forall f :: f in a.value ==> f in fs || f in refs)
  {
    hide KnownText, RefsMean, FieldValue, ResolveCell, SlotOf, SlotOfValue;
    if fs != [] {
      var n := |fs| - 1;
      CellsAgree(reg, fs[..n], refs, args, v);
      CellAgrees(reg, fs[n], refs, args, v);
      assert SlotsOf(reg, fs)[..n] == SlotsOf(reg, fs[..n]);
      assert FieldValues(fs, v)[..n] == FieldValues(fs[..n], v);
      assert SlotsOfValues(reg, FieldValues(fs, v))[..n] == SlotsOfValues(reg, FieldValues(fs[..n], v));
    }
  }

  /** An option under construction: only references to known nodes, and literals hold no slot. */
  ghost predicate OptionFits(kind: string, key: string, o: OptionValue, v: Valuation) {
    if Verbatim(kind, key) then o.Text? && !SlotText(o.text) else KnownTexts(FieldTexts(o), v)
  }

  /** Resolving the texts of an option is resolving its meaning. */
  lemma OptionAgrees(reg: Registry, kind: string, key: string, o: OptionValue, refs: seq<string>, args: seq<Value>,
                     v: Valuation)
    requires RefsMean(refs, args, v) && OptionFits(kind, key, o, v)
    ensures var a, b := ResolveOption(reg, o, refs), ResolveMeaning(reg, OptionMeaning(kind, key, o, v), args);
            && (a.Some? <==> b.Some?)
            && (a.Some? ==> OptionMeaning(kind, key, a.value, v) == b.value && OptionFits(kind, key, a.value, v)
                            && forall f :: f in FieldTexts(a.value) ==> f in FieldTexts(o) || f in refs)
  {
    if !Verbatim(kind, key) {
      match o
      case Text(t) =>
        assert FieldTexts(o)[0] == t;
        CellAgrees(reg, t, refs, args, v);
      case Schema(strict, s, cs) => SchemaAgrees(reg, kind, key, o, refs, args, v);
      case _ =>
    }
  }

  lemma SchemaAgrees(reg: Registry, kind: string, key: string, o: OptionValue, refs: seq<string>, args: seq<Value>,
                     v: Valuation)
    requires RefsMean(refs, args, v) && o.Schema? && KnownTexts(FieldTexts(o), v) && !Verbatim(kind, key)
    ensures var a, b := ResolveOption(reg, o, refs), ResolveMeaning(reg, OptionMeaning(kind, key, o, v), args);
            && (a.Some? <==> b.Some?)
            && (a.Some? ==> OptionMeaning(kind, key, a.value, v) == b.value && KnownTexts(FieldTexts(a.value), v)
                            && forall f :: f in FieldTexts(a.value) ==> f in FieldTexts(o) || f in refs)
  {
    hide ResolveCell, ResolveCells, SlotOf, SlotOfValue, Refers, KnownText, RefsMean;
    var s, cs := o.selectKey, o.columns;
    assert FieldTexts(o)[0] == s && forall i :: 0 <= i < |cs| ==> cs[i] == FieldTexts(o)[i + 1];
    CellAgrees(reg, s, refs, args, v);
    SameSlot(reg, s, v);
    CellsAgree(reg, cs, refs, args, v);
  }

  // ------------------------------------------------------------------ text by text

  /** "SLOT" stands for the first argument, "SLOT" and a number for the argument of that number. */
  predicate Selects(reg: Registry, text: string, k: nat) {
    || (text == "SLOT" && k == 0)
    || (|text| > 4 && text[..4] == "SLOT" && reg.slotNumber(text[4..]) == Some(k))
  }

  predicate SelectsNone(reg: Registry, text: string) {
    |text| < 4 || text[..4] != "SLOT" || (|text| > 4 && reg.slotNumber(text[4..]) == None)
  }

  /** "SLOT" and a number that cannot be read. */
  predicate Garbled(reg: Registry, text: string) {
    |text| > 4 && text[..4] == "SLOT" && reg.slotNumber(text[4..]) == None
  }

  /** What becomes of one text: the argument it selects, or itself. */
  ghost predicate Put(reg: Registry, text: string, out: string, refs: seq<string>) {
    && (forall k: nat :: Selects(reg, text, k) ==> k < |refs| && out == refs[k])
    && (SelectsNone(reg, text) ==> out == text)
  }

  /** The text selects an argument that is not there. */
  ghost predicate Beyond(reg: Registry, text: string, n: nat) { exists k: nat :: Selects(reg, text, k) && k >= n }

  /** What becomes of an option; a table whose selecting text is garbled is left alone. */
  ghost predicate PutOption(reg: Registry, o: OptionValue, out: OptionValue, refs: seq<string>) {
    match o
    case Text(t) => out.Text? && Put(reg, t, out.text, refs)
    case Schema(strict, s, cs) =>
      if !strict && Garbled(reg, s) then out == o
      else
        && out.Schema? && out.strict == strict && Put(reg, s, out.selectKey, refs) && |out.columns| == |cs|
        && forall i :: 0 <= i < |cs| ==> Put(reg, cs[i], out.columns[i], refs)
    case _ => out == o
  }

  /** An option that cannot be resolved against n arguments. */
  ghost predicate Unresolvable(reg: Registry, o: OptionValue, n: nat) {
    match o
    case Text(t) => Beyond(reg, t, n)
    case Schema(strict, s, cs) =>
      || (strict && SelectsNone(reg, s))
      || ((strict || !Garbled(reg, s)) && (Beyond(reg, s, n) || exists i :: 0 <= i < |cs| && Beyond(reg, cs[i], n)))
    case _ => false
  }

  lemma SlotIs(reg: Registry, text: string)
    ensures forall k: nat :: SlotOf(reg, text) == At(k) <==> Selects(reg, text, k)
    ensures !SlotOf(reg, text).At? <==> SelectsNone(reg, text)
    ensures SlotOf(reg, text).Unreadable? <==> Garbled(reg, text)
  {
    if |text| >= 4 { assert text == text[..4] + text[4..]; }
  }

  lemma CellPut(reg: Registry, text: string, refs: seq<string>)
    ensures ResolveCell(SlotOf(reg, text), text, refs).None? <==> Beyond(reg, text, |refs|)
    ensures forall out :: ResolveCell(SlotOf(reg, text), text, refs) == Some(out) ==> Put(reg, text, out, refs)
  {
    hide Selects, SelectsNone, SlotOf;
    SlotIs(reg, text);
    if SlotOf(reg, text).At? { assert Selects(reg, text, SlotOf(reg, text).index); }
  }

  lemma {:induction false} CellsPut(reg: Registry, texts: seq<string>, refs: seq<string>)
    ensures var r := ResolveCells(SlotsOf(reg, texts), texts, refs);
            && (r.None? <==> exists i :: 0 <= i < |texts| && Beyond(reg, texts[i], |refs|))
            && (r.Some? ==>
                  |r.value| == |texts| && forall i :: 0 <= i < |texts| ==> Put(reg, texts[i], r.value[i], refs))
  {
    hide SlotOf, ResolveCell, Put, Beyond;
    if texts == [] {
    } else {
      var n := |texts| - 1;
      CellsPut(reg, texts[..n], refs);
      CellPut(reg, texts[n], refs);
      assert SlotsOf(reg, texts)[..n] == SlotsOf(reg, texts[..n]);
    }
  }

  /** Resolution of an option, said of its texts. */
  lemma ResolvedExactly(reg: Registry, o: OptionValue, refs: seq<string>)
    ensures ResolveOption(reg, o, refs).None? <==> Unresolvable(reg, o, |refs|)
    ensures forall out :: ResolveOption(reg, o, refs) == Some(out) ==> PutOption(reg, o, out, refs)
  {
    hide SlotOf, ResolveCell, ResolveCells, Put, Beyond, SelectsNone, Garbled;
    match o
    case Text(t) => CellPut(reg, t, refs);
    case Schema(strict, s, cs) =>
      SlotIs(reg, s);
      CellPut(reg, s, refs);
      CellsPut(reg, cs, refs);
    case _ =>
  }

  /** Once resolved, no text selects an argument, unless the table was left alone. */
  lemma NoSlotRemains(reg: Registry, o: OptionValue, out: OptionValue, refs: seq<string>)
    requires PutOption(reg, o, out, refs) && forall r :: r in refs ==> SelectsNone(reg, r)
    ensures !(o.Schema? && !o.strict && Garbled(reg, o.selectKey)) ==>
              forall f :: f in FieldTexts(out) ==> SelectsNone(reg, f)
  {
    hide Selects, SelectsNone, Garbled;
    forall text, g | Put(reg, text, g, refs) ensures SelectsNone(reg, g) {
      SlotIs(reg, text);
      if !SelectsNone(reg, text) { assert Selects(reg, text, SlotOf(reg, text).index); }
    }
  }

  // ---------------------------------------------------------------------- the method

  lemma {:induction false} CellsPrefix(slots: seq<Slot>, cells: seq<string>, args: seq<string>, i: nat)
    requires |slots| == |cells| && i <= |cells|
    ensures ResolveCells(slots, cells, args).Some? ==> ResolveCells(slots[..i], cells[..i], args).Some?
  {
    var n := |cells| - 1;
    if i <= n {
      CellsPrefix(slots[..n], cells[..n], args, i);
      assert slots[..n][..i] == slots[..i] && cells[..n][..i] == cells[..i];
    } else {
      assert slots[..i] == slots && cells[..i] == cells;
    }
  }

  lemma CellsStep(slots: seq<Slot>, cells: seq<string>, args: seq<string>, i: nat)
    requires |slots| == |cells| && i < |cells| && ResolveCells(slots[..i], cells[..i], args).Some?
    ensures var r := ResolveCell(slots[i], cells[i], args);
            if r.None? then ResolveCells(slots, cells, args).None?
            else ResolveCells(slots[..i + 1], cells[..i + 1], args)
                 == Some(ResolveCells(slots[..i], cells[..i], args).value + [r.value])
  {
    assert slots[..i + 1][..i] == slots[..i] && cells[..i + 1][..i] == cells[..i];
    CellsPrefix(slots, cells, args, i + 1);
  }

  /** Column after column; a column whose slot number cannot be read is skipped. */
  method ResolveColumnIds(reg: Registry, columns: seq<string>, refs: seq<string>) returns (r: Result<seq<string>>)
    ensures var want := ResolveCells(SlotsOf(reg, columns), columns, refs);
            (r.Ok? <==> want.Some?) && (r.Ok? ==> r.value == want.value)
    ensures r.Err? <==> exists i :: 0 <= i < |columns| && Beyond(reg, columns[i], |refs|)
    ensures r.Ok? ==>
              |r.value| == |columns| && forall i :: 0 <= i < |columns| ==> Put(reg, columns[i], r.value[i], refs)
  {
    hide Beyond, Put;
    CellsPut(reg, columns, refs);
    var resolved := [];
    ghost var slots := SlotsOf(reg, columns);
    for i := 0 to |columns|
      invariant ResolveCells(slots[..i], columns[..i], refs) == Some(resolved)
    {
      CellsStep(slots, columns, refs, i);
      match SlotOf(reg, columns[i])
      case At(k) =>
        if k >= |refs| { return Err; }
        resolved := resolved + [refs[k]];
      case _ => resolved := resolved + [columns[i]];
    }
    assert slots[..|columns|] == slots && columns[..|columns|] == columns;
    r := Ok(resolved);
  }

  method ResolveValue(reg: Registry, o: OptionValue, refs: seq<string>) returns (r: Result<OptionValue>)
    ensures var want := ResolveOption(reg, o, refs);
            (r.Ok? <==> want.Some?) && (r.Ok? ==> r.value == want.value)
    ensures r.Ok? <==> !Unresolvable(reg, o, |refs|)
    ensures r.Ok? ==> PutOption(reg, o, r.value, refs)
  {
    hide Unresolvable, PutOption;
    ResolvedExactly(reg, o, refs);
    match o
    case Text(t) =>
      var slot := SlotOf(reg, t);
      if !slot.At? { return Ok(o); }
      if slot.index >= |refs| { return Err; }
      r := Ok(Text(refs[slot.index]));
    case Schema(strict, s, cs) =>
      var slot := SlotOf(reg, s);
      if strict && !slot.At? { return Err; }
      if slot.Unreadable? { return Ok(o); }
      if slot.At? && slot.index >= |refs| { return Err; }
      var columns := ResolveColumnIds(reg, cs, refs);
      if columns.Err? { return Err; }
      r := Ok(Schema(strict, if slot.At? then refs[slot.index] else s, columns.value));
    case _ => r := Ok(o);
  }

  // ------------------------------------------------------------------- whole options

  ghost function ResolveOptions(reg: Registry, options: map<string, OptionValue>,
                                refs: seq<string>): Option<map<string, OptionValue>>
  {
    if exists key :: key in options && ResolveOption(reg, options[key], refs).None? then None
    else Some(map key | key in options :: ResolveOption(reg, options[key], refs).value)
  }

  ghost function ResolveMeanings(reg: Registry, ms: map<string, Meaning>,
                                 args: seq<Value>): Option<map<string, Meaning>>
  {
    if exists key :: key in ms && ResolveMeaning(reg, ms[key], args).None? then None
    else Some(map key | key in ms :: ResolveMeaning(reg, ms[key], args).value)
  }

  ghost predicate OptionsFit(kind: string, options: map<string, OptionValue>, v: Valuation) {
    forall key :: key in options ==> OptionFits(kind, key, options[key], v)
  }

  /** Resolution of all options, on texts and on meanings. */
  lemma OptionsAgree(reg: Registry, kind: string, options: map<string, OptionValue>, refs: seq<string>,
                     args: seq<Value>, v: Valuation)
    requires RefsMean(refs, args, v) && OptionsFit(kind, options, v)
    ensures var a, b := ResolveOptions(reg, options, refs),
                        ResolveMeanings(reg, OptionsMeaning(kind, options, v), args);
            && (a.Some? <==> b.Some?)
            && (a.Some? ==> OptionsMeaning(kind, a.value, v) == b.value && OptionsFit(kind, a.value, v)
                            && Resolved(options, a.value, refs))
  {
    hide OptionFits, RefsMean, OptionMeaning, ResolveOption, ResolveMeaning;
    var ms := OptionsMeaning(kind, options, v);
    forall key | key in options
      ensures OptionFits(kind, key, options[key], v)
      ensures var a, b := ResolveOption(reg, options[key], refs), ResolveMeaning(reg, ms[key], args);
              && (a.Some? <==> b.Some?)
              && (a.Some? ==> OptionMeaning(kind, key, a.value, v) == b.value && OptionFits(kind, key, a.value, v)
                              && forall f :: f in FieldTexts(a.value) ==> f in FieldTexts(options[key]) || f in refs)
    {
      OptionAgrees(reg, kind, key, options[key], refs, args, v);
    }
    assert ms.Keys == options.Keys;
  }

  /** Every text of the new options was there before or refers to an argument. */
  ghost predicate Resolved(before: map<string, OptionValue>, after: map<string, OptionValue>, refs: seq<string>) {
    && after.Keys == before.Keys
    && forall key :: key in before ==>
         forall f :: f in FieldTexts(after[key]) ==> f in FieldTexts(before[key]) || f in refs
  }

  lemma {:induction false} CellsWithoutSlots(reg: Registry, fs: seq<string>, refs: seq<string>)
    requires forall f :: f in fs ==> !SlotText(f)
    ensures ResolveCells(SlotsOf(reg, fs), fs, refs) == Some(fs)
  {
    if fs != [] {
      var n := |fs| - 1;
      assert SlotsOf(reg, fs)[..n] == SlotsOf(reg, fs[..n]);
      CellsWithoutSlots(reg, fs[..n], refs);
      assert fs[n] in fs && SlotsOf(reg, fs)[n] == NotSlot;
      assert fs[..n] + [fs[n]] == fs;
    }
  }

  /** Options without slots are left alone. */
  lemma NothingToResolve(reg: Registry, options: map<string, OptionValue>, refs: seq<string>)
    requires forall key :: key in options ==> NoSlots(options[key])
    ensures var r := ResolveOptions(reg, options, refs); r.Some? ==> r.value == options
  {
    forall key | key in options && ResolveOption(reg, options[key], refs).Some?
      ensures ResolveOption(reg, options[key], refs).value == options[key]
    {
      var o := options[key];
      match o
      case Text(t) => assert FieldTexts(o)[0] == t;
      case Schema(_, s, cs) =>
        assert FieldTexts(o)[0] == s && forall i :: 0 <= i < |cs| ==> cs[i] == FieldTexts(o)[i + 1];
        CellsWithoutSlots(reg, cs, refs);
      case _ =>
    }
  }

  /** All options together, said of their texts. */
  lemma AllResolvedExactly(reg: Registry, options: map<string, OptionValue>, refs: seq<string>)
    ensures var r := ResolveOptions(reg, options, refs);
            && (r.Some? <==> forall key :: key in options ==> !Unresolvable(reg, options[key], |refs|))
            && (r.Some? ==> r.value.Keys == options.Keys
                            && forall key :: key in options ==> PutOption(reg, options[key], r.value[key], refs))
  {
    hide ResolveOption, Unresolvable, PutOption;
    forall key | key in options
      ensures ResolveOption(reg, options[key], refs).None? <==> Unresolvable(reg, options[key], |refs|)
      ensures ResolveOption(reg, options[key], refs).Some? ==>
                PutOption(reg, options[key], ResolveOption(reg, options[key], refs).value, refs)
    {
      ResolvedExactly(reg, options[key], refs);
    }
  }

  /** Every option of the map, in whatever order the map yields them. */
  method ResolveEach(reg: Registry, options: map<string, OptionValue>, refs: seq<string>)
    returns (r: Result<map<string, OptionValue>>)
    ensures var want := ResolveOptions(reg, options, refs);
            (r.Ok? <==> want.Some?) && (r.Ok? ==> r.value == want.value)
  {
    hide ResolveOption;
    var resolved := map[];
    var names := options.Keys;
    while names != {}
      invariant names <= options.Keys && resolved.Keys == options.Keys - names
      invariant forall key :: key in resolved ==> ResolveOption(reg, options[key], refs) == Some(resolved[key])
    {
      var name :| name in names;
      var o := ResolveValue(reg, options[name], refs);
      if o.Err? { return Err; }
      resolved := resolved[name := o.value];
      names := names - {name};
    }
    assert resolved == map key | key in options :: ResolveOption(reg, options[key], refs).value;
    r := Ok(resolved);
  }
}
