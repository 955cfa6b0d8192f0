/**
 The algorithm graph the compiler passes rewrite, and what it means.

 A node refers to others by text "node_id#handle".  A *model* of a graph gives each node
 the term of everything it computes from; since terms are finite, a graph that has a model
 is acyclic, and the model is unique.
 */
module Graph {
  import opened Wrappers

  type Id = string

  // ---------------------------------------------------------------- references

  /** Position of the first '#', or |s| when there is none (std::string::find). */
  function FindHash(s: string): (k: nat)
    ensures k <= |s| && '#' !in s[..k] && (k < |s| ==> s[k] == '#')
  {
    if s == [] then 0
    else if s[0] == '#' then 0
    else 1 + FindHash(s[1..])
  }

  predicate HasHash(s: string) { FindHash(s) < |s| }

  /** The id part of a reference; the whole text when it has no '#'. */
  function NodeOf(ref: string): Id { ref[..FindHash(ref)] }

  /** The handle part, '#' included; empty when the reference has no '#'. */
  function PortOf(ref: string): string { ref[FindHash(ref)..] }

  function JoinId(id: Id, handle: string): string { id + "#" + handle }

  lemma {:induction false} SplitUnique(id: Id, port: string)
    requires '#' !in id && port != [] && port[0] == '#'
    ensures FindHash(id + port) == |id|
    ensures HasHash(id + port) && NodeOf(id + port) == id && PortOf(id + port) == port
  {
    if id == [] {
      assert id + port == port;
    } else {
      assert (id + port)[1..] == id[1..] + port;
      SplitUnique(id[1..], port);
    }
  }

  lemma SplitJoined(id: Id, handle: string)
    requires '#' !in id
    ensures HasHash(JoinId(id, handle))
    ensures NodeOf(JoinId(id, handle)) == id && PortOf(JoinId(id, handle)) == "#" + handle
  {
    assert JoinId(id, handle) == id + ("#" + handle);
    SplitUnique(id, "#" + handle);
  }

  /** What names consist of; beyond ASCII every character may occur in one. */
  predicate WordChar(c: char) {
    c == '_' || 'a' <= c <= 'z' || 'A' <= c <= 'Z' || '0' <= c <= '9' || c as int >= 128
  }

  predicate Word(s: string) { s != [] && forall i :: 0 <= i < |s| ==> WordChar(s[i]) }

  lemma WordIsPlain(s: string)
    requires Word(s)
    ensures '#' !in s
  {
  }

  /** The text has the form of a reference: a name, '#', a handle. */
  predicate Refers(text: string) { HasHash(text) && Word(NodeOf(text)) }

  lemma Rejoin(ref: string)
    ensures ref == NodeOf(ref) + PortOf(ref)
    ensures '#' !in NodeOf(ref)
    ensures HasHash(ref) ==> PortOf(ref) != [] && PortOf(ref)[0] == '#'
  {
  }

  // --------------------------------------------------------------------- nodes

  datatype Session = SessionType(kind: int) | SessionRange(start: int, end: int)

  /**
   `strict` is EventMarkerSchema, otherwise TableReportSchema; both carry column references.
   Times, SQL statements and lists are values no pass looks into.
   */
  datatype OptionValue =
    | Number(number: real)
    | Flag(flag: bool)
    | Text(text: string)
    | Other(content: string)
    | Schema(strict: bool, selectKey: string, columns: seq<string>)

  datatype Node = Node(
    kind: string,
    id: Id,
    options: map<string, OptionValue>,
    inputs: map<string, seq<string>>,
    timeframe: Option<string>,
    session: Option<Session>)

  const SCALAR_KINDS := {"text", "number", "bool_true", "bool_false", "null_number"}

  function Ids(g: seq<Node>): set<Id> { set n | n in g :: n.id }

  ghost predicate Distinct(g: seq<Node>) {
    forall i, j :: 0 <= i < j < |g| ==> g[i].id != g[j].id
  }

  /** Ids are words, so every "id#handle" text splits back into its parts. */
  ghost predicate PlainIds(g: seq<Node>) {
    forall n :: n in g ==> Word(n.id)
  }

  /** Every text a node uses to name an input. */
  function InputRefs(n: Node): set<string> {
    set k, r | k in n.inputs && r in n.inputs[k] :: r
  }

  function InputIds(n: Node): set<Id> {
    set r | r in InputRefs(n) :: NodeOf(r)
  }

  function FieldTexts(o: OptionValue): seq<string> {
    match o
    case Text(t) => [t]
    case Schema(_, s, cs) => [s] + cs
    case _ => []
  }

  /** The value of a text literal is the literal itself; any other option text may name a node. */
  predicate Verbatim(kind: string, key: string) { kind == "text" && key == "value" }

  function NamedIn(o: OptionValue): set<Id> {
    set f | f in FieldTexts(o) && Refers(f) :: NodeOf(f)
  }

  lemma NamesNone(o: OptionValue)
    requires NamedIn(o) == {}
    ensures forall f :: f in FieldTexts(o) ==> !Refers(f)
  {
    forall f | f in FieldTexts(o) ensures Refers(f) ==> NodeOf(f) in NamedIn(o) { }
  }

  /** The ids named by references inside the "schema" option. */
  function SchemaIds(n: Node): set<Id> {
    if "schema" in n.options then NamedIn(n.options["schema"]) else {}
  }

  /** The ids named by references inside any other option. */
  function TextIds(n: Node): set<Id> {
    set key, d | key in n.options && key != "schema" && !Verbatim(n.kind, key) && d in NamedIn(n.options[key]) :: d
  }

  function OptionIds(n: Node): set<Id> { SchemaIds(n) + TextIds(n) }

  lemma NamedInOption(n: Node, key: string)
    requires key in n.options && !Verbatim(n.kind, key)
    ensures NamedIn(n.options[key]) <= OptionIds(n)
  {
    forall d | d in NamedIn(n.options[key]) ensures d in OptionIds(n) {
      if key != "schema" { assert d in TextIds(n); }
    }
  }

  lemma NamingOption(n: Node, d: Id) returns (key: string)
    requires d in OptionIds(n)
    ensures key in n.options && !Verbatim(n.kind, key) && d in NamedIn(n.options[key])
    ensures d !in SchemaIds(n) ==> key != "schema"
  {
    if d in SchemaIds(n) { key := "schema"; }
    else { key :| key in n.options && key != "schema" && !Verbatim(n.kind, key) && d in NamedIn(n.options[key]); }
  }

  lemma NodeWithId(g: seq<Node>, id: Id) returns (i: nat)
    requires id in Ids(g)
    ensures i < |g| && g[i].id == id
  {
    i :| 0 <= i < |g| && g[i].id == id;
  }

  // ------------------------------------------------------------------- meaning

  /** What a node computes, as a term over the transforms below it. */
  datatype Value =
    | Apply(kind: string, options: map<string, Meaning>, inputs: map<string, Args>,
            timeframe: Option<string>, session: Option<Session>)
    | Output(node: Value, port: string)
    | External(ref: string)

  datatype Args = Args(values: seq<Value>)

  /** A number or flag, or texts that may refer to nodes. */
  datatype Meaning =
    | Raw(raw: OptionValue)
    | TextMeaning(value: Value)
    | SchemaMeaning(strict: bool, selected: Value, cells: seq<Value>)

  type Valuation = map<Id, Value>

  function RefValue(ref: string, v: Valuation): Value {
    if NodeOf(ref) in v then Output(v[NodeOf(ref)], PortOf(ref)) else External(ref)
  }

  function RefValues(refs: seq<string>, v: Valuation): seq<Value> {
    seq(|refs|, i requires 0 <= i < |refs| => RefValue(refs[i], v))
  }

  /** Only a text of the form of a reference can be one inside an option. */
  function FieldValue(field: string, v: Valuation): Value {
    if Refers(field) then RefValue(field, v) else External(field)
  }

  function FieldValues(fields: seq<string>, v: Valuation): seq<Value> {
    seq(|fields|, i requires 0 <= i < |fields| => FieldValue(fields[i], v))
  }

  function OptionMeaning(kind: string, key: string, o: OptionValue, v: Valuation): Meaning {
    if Verbatim(kind, key) then Raw(o)
    else match o
      case Text(t) => TextMeaning(FieldValue(t, v))
      case Schema(strict, s, cs) => SchemaMeaning(strict, FieldValue(s, v), FieldValues(cs, v))
      case _ => Raw(o)
  }

  function OptionsMeaning(kind: string, options: map<string, OptionValue>, v: Valuation): map<string, Meaning> {
    map key | key in options :: OptionMeaning(kind, key, options[key], v)
  }

  function InputsMeaning(inputs: map<string, seq<string>>, v: Valuation): map<string, Args> {
    map k | k in inputs :: Args(RefValues(inputs[k], v))
  }

  /** The term of one node.  Literal nodes are the same in every timeframe and session. */
  function NodeValue(n: Node, v: Valuation): Value {
    var scalar := n.kind in SCALAR_KINDS;
    Apply(n.kind, OptionsMeaning(n.kind, n.options, v), InputsMeaning(n.inputs, v),
          if scalar then None else n.timeframe, if scalar then None else n.session)
  }

  ghost predicate IsModel(g: seq<Node>, v: Valuation) {
    && v.Keys == Ids(g)
    && forall n :: n in g ==> v[n.id] == NodeValue(n, v)
  }

  lemma SameInputs(n: Node, v: Valuation, w: Valuation)
    requires forall d :: d in InputIds(n) ==> (d in v <==> d in w) && (d in v ==> v[d] == w[d])
    ensures InputsMeaning(n.inputs, v) == InputsMeaning(n.inputs, w)
  {
    forall k | k in n.inputs
      ensures RefValues(n.inputs[k], v) == RefValues(n.inputs[k], w)
    {
      forall i | 0 <= i < |n.inputs[k]|
        ensures RefValue(n.inputs[k][i], v) == RefValue(n.inputs[k][i], w)
      {
        assert n.inputs[k][i] in n.inputs[k];
        assert n.inputs[k][i] in InputRefs(n);
        assert NodeOf(n.inputs[k][i]) in InputIds(n);
      }
    }
  }

  lemma SameFields(kind: string, key: string, o: OptionValue, v: Valuation, w: Valuation)
    requires forall f :: f in FieldTexts(o) ==> FieldValue(f, v) == FieldValue(f, w)
    ensures OptionMeaning(kind, key, o, v) == OptionMeaning(kind, key, o, w)
  {
    match o
    case Text(t) => assert FieldTexts(o)[0] == t;
    case Schema(_, s, cs) =>
      assert s in FieldTexts(o);
      assert forall i :: 0 <= i < |cs| ==> cs[i] in FieldTexts(o);
      assert FieldValues(cs, v) == FieldValues(cs, w);
    case _ =>
  }

  lemma SameOptions(n: Node, v: Valuation, w: Valuation)
    requires forall d :: d in OptionIds(n) ==> (d in v <==> d in w) && (d in v ==> v[d] == w[d])
    ensures OptionsMeaning(n.kind, n.options, v) == OptionsMeaning(n.kind, n.options, w)
  {
    hide OptionIds;
    forall key | key in n.options
      ensures OptionMeaning(n.kind, key, n.options[key], v) == OptionMeaning(n.kind, key, n.options[key], w)
    {
      if !Verbatim(n.kind, key) {
        NamedInOption(n, key);
        forall f | f in FieldTexts(n.options[key]) ensures FieldValue(f, v) == FieldValue(f, w) {
          if Refers(f) { assert NodeOf(f) in NamedIn(n.options[key]); }
        }
        SameFields(n.kind, key, n.options[key], v, w);
      }
    }
  }

  /** Two valuations that agree on everything a node mentions give it the same term. */
  lemma SameMentionsSameValue(n: Node, v: Valuation, w: Valuation)
    requires forall d :: d in InputIds(n) + OptionIds(n) ==>
               (d in v <==> d in w) && (d in v ==> v[d] == w[d])
    ensures NodeValue(n, v) == NodeValue(n, w)
  {
    hide InputsMeaning, OptionsMeaning, InputIds, OptionIds;
    assert forall d :: d in InputIds(n) ==> d in InputIds(n) + OptionIds(n);
    assert forall d :: d in OptionIds(n) ==> d in InputIds(n) + OptionIds(n);
    SameInputs(n, v, w);
    SameOptions(n, v, w);
  }

  /** Everything a node reads is a proper part of its term. */
  lemma InputIsBelow(n: Node, v: Valuation, d: Id)
    requires d in InputIds(n) && d in v
    ensures NodeValue(n, v) decreases to v[d]
  {
    var t := NodeValue(n, v);
    var r :| r in InputRefs(n) && NodeOf(r) == d;
    var k :| k in n.inputs && r in n.inputs[k];
    var i :| 0 <= i < |n.inputs[k]| && n.inputs[k][i] == r;
    var inputs := InputsMeaning(n.inputs, v);
    assert t == Apply(t.kind, t.options, inputs, t.timeframe, t.session);
    assert k in inputs && inputs[k].values[i] == Output(v[d], PortOf(r));
    assert t decreases to inputs[k];
    assert inputs[k] decreases to inputs[k].values[i];
  }

  /** What an option's field refers to is a proper part of the option's meaning. */
  lemma FieldIsBelow(kind: string, key: string, o: OptionValue, v: Valuation, f: string)
    requires !Verbatim(kind, key) && f in FieldTexts(o) && Refers(f) && NodeOf(f) in v
    ensures OptionMeaning(kind, key, o, v) decreases to v[NodeOf(f)]
  {
    var m := OptionMeaning(kind, key, o, v);
    var cell := FieldValue(f, v);
    assert cell == Output(v[NodeOf(f)], PortOf(f));
    if o.Schema? && f != o.selectKey {
      var i :| 0 <= i < |o.columns| && o.columns[i] == f;
      assert m.cells[i] == cell;
      assert m decreases to m.cells[i];
    }
    assert m decreases to cell;
  }

  lemma OptionIsBelow(n: Node, v: Valuation, d: Id)
    requires d in OptionIds(n) && d in v
    ensures NodeValue(n, v) decreases to v[d]
  {
    hide OptionMeaning, OptionIds;
    var key := NamingOption(n, d);
    var f :| f in FieldTexts(n.options[key]) && Refers(f) && NodeOf(f) == d;
    var t := NodeValue(n, v);
    FieldIsBelow(n.kind, key, n.options[key], v, f);
    var options := OptionsMeaning(n.kind, n.options, v);
    assert t == Apply(t.kind, options, t.inputs, t.timeframe, t.session);
    assert key in options && options[key] == OptionMeaning(n.kind, key, n.options[key], v);
    assert t decreases to options[key];
  }

  /** Everything a node mentions is a proper part of its term. */
  lemma MentionIsBelow(n: Node, v: Valuation, d: Id)
    requires d in InputIds(n) + OptionIds(n) && d in v
    ensures NodeValue(n, v) decreases to v[d]
  {
    if d in InputIds(n) { InputIsBelow(n, v, d); } else { OptionIsBelow(n, v, d); }
  }

  /** A graph has at most one model. */
  lemma {:induction false} ModelIsUnique(g: seq<Node>, v: Valuation, w: Valuation, id: Id)
    requires IsModel(g, v) && IsModel(g, w) && id in v
    ensures v[id] == w[id]
    decreases v[id]
  {
    var i := NodeWithId(g, id);
    var n := g[i];
    forall d | d in InputIds(n) + OptionIds(n) && d in v
      ensures v[d] == w[d]
    {
      MentionIsBelow(n, v, d);
      ModelIsUnique(g, v, w, d);
    }
    SameMentionsSameValue(n, v, w);
  }

  // ------------------------------------------------------- dependency relation

  /** Some node with id a takes an input from the node with id b. */
  ghost predicate DependsOn(g: seq<Node>, a: Id, b: Id) {
    exists n :: n in g && n.id == a && b in InputIds(n) && b in Ids(g)
  }

  /** A path along inputs, from dependents to dependencies. */
  ghost predicate Walk(g: seq<Node>, p: seq<Id>) {
    && p != []
    && forall i :: 0 <= i < |p| - 1 ==> DependsOn(g, p[i], p[i + 1])
  }

  /** b is among the transitive inputs of a. */
  ghost predicate Reaches(g: seq<Node>, a: Id, b: Id) {
    exists p :: Walk(g, p) && |p| >= 2 && p[0] == a && p[|p| - 1] == b
  }

  /** What an option names is also wired, directly or through other nodes. */
  ghost predicate OptionsWired(g: seq<Node>) {
    forall n, d :: n in g && d in OptionIds(n) && d in Ids(g) ==> Reaches(g, n.id, d)
  }

  ghost predicate Repeats(p: seq<Id>) {
    exists i, j :: 0 <= i < j < |p| && p[i] == p[j]
  }

  /** The node lies on a cycle or depends, transitively, on one. */
  ghost predicate ReachesCycle(g: seq<Node>, id: Id) {
    exists p :: Walk(g, p) && p[0] == id && Repeats(p)
  }

  ghost predicate Acyclic(g: seq<Node>) {
    forall id :: id in Ids(g) ==> !ReachesCycle(g, id)
  }

  /** What a node reads is a proper part of its term. */
  ghost predicate Descends(g: seq<Node>, v: Valuation) {
    && v.Keys == Ids(g)
    && forall n, d :: n in g && d in InputIds(n) && d in v ==> (v[n.id] decreases to v[d])
  }

  lemma ModelDescends(g: seq<Node>, v: Valuation)
    requires IsModel(g, v)
    ensures Descends(g, v)
  {
    forall n, d | n in g && d in InputIds(n) && d in v ensures v[n.id] decreases to v[d] {
      MentionIsBelow(n, v, d);
    }
  }

  lemma {:induction false} WalkDescends(g: seq<Node>, v: Valuation, p: seq<Id>, i: nat, j: nat)
    requires Descends(g, v) && Walk(g, p) && p[0] in v && i < j < |p|
    ensures p[i] in v && p[j] in v && (v[p[i]] decreases to v[p[j]])
    decreases j
  {
    if i > 0 { WalkDescends(g, v, p, 0, i); }
    if j > i + 1 { WalkDescends(g, v, p, i, j - 1); }
    assert DependsOn(g, p[j - 1], p[j]);
  }

  lemma DescendsMeansAcyclic(g: seq<Node>, v: Valuation)
    requires Descends(g, v)
    ensures Acyclic(g)
  {
    forall id, p | id in Ids(g) && Walk(g, p) && p[0] == id
      ensures !Repeats(p)
    {
      forall i, j | 0 <= i < j < |p|
        ensures p[i] != p[j]
      {
        WalkDescends(g, v, p, i, j);
      }
    }
  }

  /** Terms are finite, so only acyclic graphs have models. */
  lemma ModelMeansAcyclic(g: seq<Node>, v: Valuation)
    requires IsModel(g, v)
    ensures Acyclic(g)
  {
    ModelDescends(g, v);
    DescendsMeansAcyclic(g, v);
  }

  // ---------------------------------------------------------- running in order

  /** Every node comes after everything it mentions. */
  ghost predicate Ordered(g: seq<Node>) {
    forall i, d :: 0 <= i < |g| && d in InputIds(g[i]) + OptionIds(g[i]) && d in Ids(g)
                   ==> d in Ids(g[..i])
  }

  /** What the runtime does with the compiled list: evaluate it front to back. */
  function Run(g: seq<Node>): Valuation {
    if g == [] then map[]
    else
      var before := Run(g[..|g| - 1]);
      before[g[|g| - 1].id := NodeValue(g[|g| - 1], before)]
  }

  lemma {:induction false} RunKeys(g: seq<Node>)
    ensures Run(g).Keys == Ids(g)
  {
    if g != [] {
      var h := g[..|g| - 1];
      RunKeys(h);
      assert g == h + [g[|g| - 1]];
      assert Ids(g) == Ids(h) + {g[|g| - 1].id};
    }
  }

  lemma LaterIsNotMentioned(g: seq<Node>, i: nat, j: nat)
    requires Distinct(g) && Ordered(g) && i <= j < |g|
    ensures g[j].id !in InputIds(g[i]) + OptionIds(g[i])
  {
    assert g[j].id in Ids(g);
    assert g[j].id !in Ids(g[..i]);
  }

  /** The nodes already run keep their terms when the last one is added. */
  lemma RunStep(g: seq<Node>, i: nat, before: Valuation, after: Valuation)
    requires Distinct(g) && Ordered(g) && i < |g|
    requires after == before[g[|g| - 1].id := NodeValue(g[|g| - 1], before)]
    ensures NodeValue(g[i], after) == NodeValue(g[i], before)
    ensures i < |g| - 1 ==> g[i].id != g[|g| - 1].id
  {
    hide NodeValue, Ordered, InputIds, OptionIds;
    LaterIsNotMentioned(g, i, |g| - 1);
    SameMentionsSameValue(g[i], before, after);
  }

  lemma RunStepModel(g: seq<Node>, i: nat, before: Valuation, after: Valuation)
    requires Distinct(g) && Ordered(g) && i < |g| && IsModel(g[..|g| - 1], before)
    requires after == before[g[|g| - 1].id := NodeValue(g[|g| - 1], before)]
    ensures g[i].id in after && after[g[i].id] == NodeValue(g[i], after)
  {
    hide NodeValue, Ordered, Distinct;
    RunStep(g, i, before, after);
    if i < |g| - 1 { assert g[..|g| - 1][i] == g[i] && g[i] in g[..|g| - 1]; }
  }

  /** Running a dependency-ordered list front to back computes its model. */
  lemma {:induction false} RunIsModel(g: seq<Node>)
    requires Distinct(g) && Ordered(g)
    ensures IsModel(g, Run(g))
  {
    hide NodeValue, Ordered;
    RunKeys(g);
    if g != [] {
      RunPrefixOrdered(g);
      RunIsModel(g[..|g| - 1]);
      forall m | m in g
        ensures Run(g)[m.id] == NodeValue(m, Run(g))
      {
        var i :| 0 <= i < |g| && g[i] == m;
        RunStepModel(g, i, Run(g[..|g| - 1]), Run(g));
      }
    }
  }

  lemma RunPrefixOrdered(g: seq<Node>)
    requires Distinct(g) && Ordered(g) && g != []
    ensures Distinct(g[..|g| - 1]) && Ordered(g[..|g| - 1])
  {
    var h := g[..|g| - 1];
    forall i, d | 0 <= i < |h| && d in InputIds(h[i]) + OptionIds(h[i]) && d in Ids(h)
      ensures d in Ids(h[..i])
    {
      assert h[i] == g[i] && h[..i] == g[..i];
      assert d in Ids(g);
    }
  }
}
