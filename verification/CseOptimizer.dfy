/**
 Common-subexpression elimination.

 The hash of a node is an arbitrary function of what the optimizer calls its semantics;
 sessions are compared through a hash of their own.
 */
module CseOptimizer {
  import opened Wrappers
  import opened Graph
  import opened CompilationContext

  const EXECUTOR_KINDS := {"trade_signal_executor", "trade_manager_executor", "portfolio_executor"}

  /** Everything the semantic hash reads. */
  datatype Key = Key(kind: string, options: map<string, OptionValue>, inputs: map<string, seq<string>>,
                     timeframe: Option<string>, session: Option<nat>)

  datatype Hashing = Hashing(node: Key -> nat, session: Session -> nat)

  function SessionKey(h: Hashing, s: Option<Session>): Option<nat> {
    match s case None => None case Some(x) => Some(h.session(x))
  }

  function SemanticKey(h: Hashing, n: Node): Key {
    if n.kind in SCALAR_KINDS then Key(n.kind, n.options, n.inputs, None, None)
    else Key(n.kind, n.options, n.inputs, n.timeframe, SessionKey(h, n.session))
  }

  function SemanticHash(h: Hashing, n: Node): nat { h.node(SemanticKey(h, n)) }

  predicate Eligible(n: Node) { n.kind !in EXECUTOR_KINDS }

  predicate SemanticEquals(h: Hashing, a: Node, b: Node) {
    && a.kind == b.kind && a.options == b.options && a.inputs == b.inputs
    && (a.kind in SCALAR_KINDS ||
        (&& a.timeframe == b.timeframe
         && a.session.Some? == b.session.Some?
         && (a.session.Some? ==> h.session(a.session.value) == h.session(b.session.value))))
  }

  lemma EqualNodesHashEqually(h: Hashing, a: Node, b: Node)
    ensures SemanticEquals(h, a, b) <==> SemanticKey(h, a) == SemanticKey(h, b)
    ensures SemanticEquals(h, a, b) ==> SemanticHash(h, a) == SemanticHash(h, b)
  {
  }

  // ------------------------------------------------------------- what is a duplicate

  /** The first eligible node with the hash of node i: the canonical one. */
  function FirstAlike(h: Hashing, g: seq<Node>, i: nat): (j: nat)
    requires i < |g| && Eligible(g[i])
    ensures j <= i && Eligible(g[j]) && SemanticHash(h, g[j]) == SemanticHash(h, g[i])
    ensures forall k :: 0 <= k < j && Eligible(g[k]) ==> SemanticHash(h, g[k]) != SemanticHash(h, g[i])
  {
    FirstFrom(h, g, i, 0)
  }

  function FirstFrom(h: Hashing, g: seq<Node>, i: nat, from: nat): (j: nat)
    requires from <= i < |g| && Eligible(g[i])
    ensures from <= j <= i && Eligible(g[j]) && SemanticHash(h, g[j]) == SemanticHash(h, g[i])
    ensures forall k :: from <= k < j && Eligible(g[k]) ==> SemanticHash(h, g[k]) != SemanticHash(h, g[i])
    decreases i - from
  {
    if Eligible(g[from]) && SemanticHash(h, g[from]) == SemanticHash(h, g[i]) then from
    else FirstFrom(h, g, i, from + 1)
  }

  predicate Duplicate(h: Hashing, g: seq<Node>, i: nat)
    requires i < |g|
  {
    && Eligible(g[i])
    && var j := FirstAlike(h, g, i);
       j < i && SemanticEquals(h, g[i], g[j])
  }

  type Redirect = map<Id, Id>

  /** `redirect_map`: every duplicate points to its canonical node. */
  ghost predicate Redirects(h: Hashing, g: seq<Node>, rd: Redirect) {
    && (forall i :: 0 <= i < |g| && Duplicate(h, g, i) ==>
          g[i].id in rd && rd[g[i].id] == g[FirstAlike(h, g, i)].id)
    && (forall id :: id in rd ==> exists i :: 0 <= i < |g| && g[i].id == id && Duplicate(h, g, i))
  }

  // ---------------------------------------------------------------------- rewriting

  function RewriteRef(ref: string, rd: Redirect): string {
    if HasHash(ref) && NodeOf(ref) in rd then rd[NodeOf(ref)] + PortOf(ref) else ref
  }

  function RewriteRefs(refs: seq<string>, rd: Redirect): seq<string> {
    seq(|refs|, i requires 0 <= i < |refs| => RewriteRef(refs[i], rd))
  }

  function RewriteInputs(inputs: map<string, seq<string>>, rd: Redirect): map<string, seq<string>> {
    map k | k in inputs :: RewriteRefs(inputs[k], rd)
  }

  function RewriteOption(o: OptionValue, rd: Redirect): OptionValue {
    match o
    case Text(t) => Text(RewriteRef(t, rd))
    case Schema(strict, s, cs) => Schema(strict, RewriteRef(s, rd), RewriteRefs(cs, rd))
    case _ => o
  }

  function RewriteOptions(options: map<string, OptionValue>, rd: Redirect): map<string, OptionValue> {
    if "schema" in options then options["schema" := RewriteOption(options["schema"], rd)] else options
  }

  function RewriteNode(n: Node, rd: Redirect): Node {
    n.(inputs := RewriteInputs(n.inputs, rd), options := RewriteOptions(n.options, rd))
  }

  /** The graph after the pass: survivors in their old order, rewritten. */
  function Survivors(g: seq<Node>, rd: Redirect): seq<Node> {
    if g == [] then []
    else if g[0].id in rd then Survivors(g[1..], rd)
    else [RewriteNode(g[0], rd)] + Survivors(g[1..], rd)
  }

  lemma {:induction false} SurvivorStays(g: seq<Node>, rd: Redirect, n: Node)
    requires n in g && n.id !in rd
    ensures RewriteNode(n, rd) in Survivors(g, rd)
  {
    if g[0] != n {
      assert n in g[1..];
      SurvivorStays(g[1..], rd, n);
    }
  }

  lemma {:induction false} SurvivorOrigin(g: seq<Node>, rd: Redirect, s: Node) returns (n: Node)
    requires s in Survivors(g, rd)
    ensures n in g && n.id !in rd && s == RewriteNode(n, rd)
  {
    if g[0].id !in rd && s == RewriteNode(g[0], rd) {
      n := g[0];
    } else {
      n := SurvivorOrigin(g[1..], rd, s);
    }
  }

  lemma {:induction false} SurvivorsSplit(a: seq<Node>, b: seq<Node>, rd: Redirect)
    ensures Survivors(a + b, rd) == Survivors(a, rd) + Survivors(b, rd)
  {
    if a == [] {
      assert a + b == b;
    } else {
      assert (a + b)[1..] == a[1..] + b;
      SurvivorsSplit(a[1..], b, rd);
    }
  }

  lemma {:induction false} SurvivorIds(g: seq<Node>, rd: Redirect)
    requires Distinct(g)
    ensures Distinct(Survivors(g, rd)) && Ids(Survivors(g, rd)) == Ids(g) - rd.Keys
  {
    if g != [] {
      var head, tail := g[0], g[1..];
      SurvivorIds(tail, rd);
      assert g == [head] + tail;
      assert Ids(g) == {head.id} + Ids(tail);
      HeadIsNew(g);
      if head.id !in rd {
        DistinctCons(RewriteNode(head, rd), Survivors(tail, rd));
      }
    }
  }

  lemma HeadIsNew(g: seq<Node>)
    requires Distinct(g) && g != []
    ensures g[0].id !in Ids(g[1..])
  {
  }

  lemma DistinctCons(n: Node, g: seq<Node>)
    requires Distinct(g) && n.id !in Ids(g)
    ensures Distinct([n] + g) && Ids([n] + g) == {n.id} + Ids(g)
  {
    var all := [n] + g;
    forall i, j | 0 <= i < j < |all|
      ensures all[i].id != all[j].id
    {
      assert all[j] == g[j - 1] && g[j - 1].id in Ids(g);
    }
  }

  // ------------------------------------------------------------------ redirect map

  lemma RedirectedIffDuplicate(h: Hashing, g: seq<Node>, rd: Redirect, i: nat)
    requires Distinct(g) && Redirects(h, g, rd) && i < |g|
    ensures g[i].id in rd <==> Duplicate(h, g, i)
    ensures Duplicate(h, g, i) ==> rd[g[i].id] == g[FirstAlike(h, g, i)].id
  {
    if g[i].id in rd {
      var k :| 0 <= k < |g| && g[k].id == g[i].id && Duplicate(h, g, k);
      assert k == i;
    }
  }

  lemma TargetIsKept(h: Hashing, g: seq<Node>, rd: Redirect, id: Id)
    requires Distinct(g) && Redirects(h, g, rd) && id in rd
    ensures id in Ids(g) && rd[id] in Ids(g) && rd[id] !in rd
  {
    hide SemanticHash, SemanticEquals, Eligible;
    var i :| 0 <= i < |g| && g[i].id == id && Duplicate(h, g, i);
    var j := FirstAlike(h, g, i);
    assert FirstAlike(h, g, j) == j;
    assert !Duplicate(h, g, j);
    RedirectedIffDuplicate(h, g, rd, i);
    RedirectedIffDuplicate(h, g, rd, j);
    assert g[i] in g && g[j] in g;
  }

  /** No duplicate is itself a target, so one rewriting step is final. */
  lemma RedirectIsOneStep(h: Hashing, g: seq<Node>, rd: Redirect)
    requires Distinct(g) && Redirects(h, g, rd)
    ensures forall id :: id in rd ==> id in Ids(g) && rd[id] in Ids(g) && rd[id] !in rd
  {
    hide Redirects;
    forall id | id in rd
      ensures id in Ids(g) && rd[id] in Ids(g) && rd[id] !in rd
    {
      TargetIsKept(h, g, rd, id);
    }
  }

  lemma ExecutorsSurvive(h: Hashing, g: seq<Node>, rd: Redirect, n: Node)
    requires Distinct(g) && Redirects(h, g, rd) && n in g
    requires n.kind in {"trade_signal_executor", "trade_manager_executor", "portfolio_executor"}
    ensures n.id !in rd && RewriteNode(n, rd) in Survivors(g, rd)
  {
    var k :| 0 <= k < |g| && g[k] == n;
    RedirectedIffDuplicate(h, g, rd, k);
    SurvivorStays(g, rd, n);
  }

  // ------------------------------------------------------------------------ meaning

  /** The session hash tells the sessions of this graph apart. */
  ghost predicate SessionsTold(h: Hashing, g: seq<Node>) {
    forall a, b :: a in g && b in g && a.session.Some? && b.session.Some? ==>
                     (h.session(a.session.value) == h.session(b.session.value) ==> a.session == b.session)
  }

  /** No surviving input names a removed node without a '#'. */
  ghost predicate BareRefsKept(g: seq<Node>, rd: Redirect) {
    forall n, r :: n in g && n.id !in rd && r in InputRefs(n) && !HasHash(r) ==> r !in rd
  }

  /** No other option than the schema of these nodes names a removed node. */
  ghost predicate TextsKept(g: seq<Node>, rd: Redirect, ids: set<Id>) {
    forall n, d :: n in g && n.id in ids && d in TextIds(n) ==> d !in rd
  }

  /** w is v on the survivors, and a duplicate has the value of its canonical node. */
  ghost predicate Linked(v: Valuation, w: Valuation, rd: Redirect) {
    && w.Keys == v.Keys - rd.Keys
    && (forall id :: id in w ==> v[id] == w[id])
    && (forall id :: id in rd ==> id in v && rd[id] in w && v[id] == w[rd[id]] && Word(id) && Word(rd[id]))
  }

  lemma AlikeMeansSameValue(h: Hashing, g: seq<Node>, a: Node, b: Node, v: Valuation)
    requires SessionsTold(h, g) && a in g && b in g && SemanticEquals(h, a, b)
    ensures NodeValue(a, v) == NodeValue(b, v)
  {
  }

  lemma RewrittenRef(ref: string, v: Valuation, w: Valuation, rd: Redirect)
    requires Linked(v, w, rd) && (HasHash(ref) || ref !in rd)
    ensures RefValue(RewriteRef(ref, rd), w) == RefValue(ref, v)
    ensures HasHash(RewriteRef(ref, rd)) <==> HasHash(ref)
  {
    Rejoin(ref);
    if !HasHash(ref) { assert NodeOf(ref) == ref; }
    if HasHash(ref) && NodeOf(ref) in rd {
      WordIsPlain(rd[NodeOf(ref)]);
      SplitUnique(rd[NodeOf(ref)], PortOf(ref));
    }
  }

  lemma RewrittenInputs(n: Node, v: Valuation, w: Valuation, rd: Redirect)
    requires Linked(v, w, rd)
    requires forall r :: r in InputRefs(n) && !HasHash(r) ==> r !in rd
    ensures InputsMeaning(RewriteInputs(n.inputs, rd), w) == InputsMeaning(n.inputs, v)
  {
    hide Linked, RewriteRef, RefValue, HasHash;
    forall k | k in n.inputs
      ensures RefValues(RewriteRefs(n.inputs[k], rd), w) == RefValues(n.inputs[k], v)
    {
      forall i | 0 <= i < |n.inputs[k]|
        ensures RefValue(RewriteRef(n.inputs[k][i], rd), w) == RefValue(n.inputs[k][i], v)
      {
        assert n.inputs[k][i] in n.inputs[k] && n.inputs[k][i] in InputRefs(n);
        RewrittenRef(n.inputs[k][i], v, w, rd);
      }
    }
  }

  lemma RewrittenField(field: string, v: Valuation, w: Valuation, rd: Redirect)
    requires Linked(v, w, rd)
    ensures FieldValue(RewriteRef(field, rd), w) == FieldValue(field, v)
  {
    if HasHash(field) { RewrittenRef(field, v, w, rd); }
    if HasHash(field) && NodeOf(field) in rd {
      WordIsPlain(rd[NodeOf(field)]);
      SplitUnique(rd[NodeOf(field)], PortOf(field));
    }
  }

  lemma RewrittenOption(kind: string, key: string, o: OptionValue, v: Valuation, w: Valuation, rd: Redirect)
    requires Linked(v, w, rd) && !Verbatim(kind, key)
    ensures OptionMeaning(kind, key, RewriteOption(o, rd), w) == OptionMeaning(kind, key, o, v)
  {
    hide Linked, RewriteRef, FieldValue;
    match o
    case Text(t) => RewrittenField(t, v, w, rd);
    case Schema(strict, s, cs) =>
      RewrittenField(s, v, w, rd);
      forall i | 0 <= i < |cs|
        ensures FieldValue(RewriteRefs(cs, rd)[i], w) == FieldValue(cs[i], v)
      {
        RewrittenField(cs[i], v, w, rd);
      }
      assert FieldValues(RewriteRefs(cs, rd), w) == FieldValues(cs, v);
    case _ =>
  }

  /** An option that is not rewritten keeps its meaning when it names no removed node. */
  lemma KeptOption(n: Node, key: string, v: Valuation, w: Valuation, rd: Redirect)
    requires Linked(v, w, rd) && key in n.options && key != "schema" && forall d :: d in TextIds(n) ==> d !in rd
    ensures OptionMeaning(n.kind, key, n.options[key], w) == OptionMeaning(n.kind, key, n.options[key], v)
  {
    hide Refers;
    if !Verbatim(n.kind, key) {
      forall f | f in FieldTexts(n.options[key]) ensures FieldValue(f, w) == FieldValue(f, v) {
        if Refers(f) { assert NodeOf(f) in NamedIn(n.options[key]) && NodeOf(f) in TextIds(n); }
      }
      SameFields(n.kind, key, n.options[key], w, v);
    }
  }

  lemma RewrittenOptions(n: Node, v: Valuation, w: Valuation, rd: Redirect)
    requires Linked(v, w, rd) && forall d :: d in TextIds(n) ==> d !in rd
    ensures OptionsMeaning(n.kind, RewriteOptions(n.options, rd), w) == OptionsMeaning(n.kind, n.options, v)
  {
    hide Linked, TextIds, OptionMeaning, RewriteOption;
    var options := RewriteOptions(n.options, rd);
    forall key | key in n.options
      ensures OptionMeaning(n.kind, key, options[key], w) == OptionMeaning(n.kind, key, n.options[key], v)
    {
      if key == "schema" {
        RewrittenOption(n.kind, key, n.options[key], v, w, rd);
      } else {
        KeptOption(n, key, v, w, rd);
      }
    }
  }

  lemma RewrittenNode(n: Node, v: Valuation, w: Valuation, rd: Redirect)
    requires Linked(v, w, rd)
    requires forall r :: r in InputRefs(n) && !HasHash(r) ==> r !in rd
    requires forall d :: d in TextIds(n) ==> d !in rd
    ensures NodeValue(RewriteNode(n, rd), w) == NodeValue(n, v)
  {
    hide Linked, InputRefs, TextIds, InputsMeaning, OptionsMeaning, RewriteInputs, RewriteOptions;
    RewrittenInputs(n, v, w, rd);
    RewrittenOptions(n, v, w, rd);
  }

  ghost predicate Assumptions(h: Hashing, g: seq<Node>, rd: Redirect) {
    Distinct(g) && PlainIds(g) && SessionsTold(h, g) && Redirects(h, g, rd)
  }

  lemma RemovedLikeCanonical(h: Hashing, g: seq<Node>, rd: Redirect, n: Node) returns (c: Node)
    requires Assumptions(h, g, rd) && n in g && n.id in rd
    ensures c in g && c.id == rd[n.id] && c.id !in rd && Word(c.id)
    ensures SemanticEquals(h, n, c)
  {
    var i :| 0 <= i < |g| && g[i] == n;
    RedirectedIffDuplicate(h, g, rd, i);
    c := g[FirstAlike(h, g, i)];
    RedirectedIffDuplicate(h, g, rd, FirstAlike(h, g, i));
  }

  lemma RemovedHasCanonicalValue(h: Hashing, g: seq<Node>, rd: Redirect, v: Valuation, id: Id)
    requires Assumptions(h, g, rd) && IsModel(g, v) && id in rd
    ensures id in v && rd[id] in v && rd[id] !in rd && v[id] == v[rd[id]] && Word(id) && Word(rd[id])
  {
    var i :| 0 <= i < |g| && g[i].id == id && Duplicate(h, g, i);
    var c := RemovedLikeCanonical(h, g, rd, g[i]);
    AlikeMeansSameValue(h, g, g[i], c, v);
  }

  lemma ModelsAreLinked(h: Hashing, g: seq<Node>, rd: Redirect, v: Valuation)
    requires Assumptions(h, g, rd) && IsModel(g, v)
    ensures Linked(v, v - rd.Keys, rd)
  {
    forall id | id in rd
      ensures id in v && rd[id] in v - rd.Keys && v[id] == v[rd[id]] && Word(id) && Word(rd[id])
    {
      RemovedHasCanonicalValue(h, g, rd, v, id);
    }
  }

  /**
   The pass preserves meaning: every survivor keeps its term, and the canonical node of a
   removed one has exactly the term of the removed one.
   */
  lemma OptimizeKeepsValues(h: Hashing, g: seq<Node>, rd: Redirect, v: Valuation)
    requires Assumptions(h, g, rd) && BareRefsKept(g, rd) && TextsKept(g, rd, Ids(g) - rd.Keys) && IsModel(g, v)
    ensures IsModel(Survivors(g, rd), v - rd.Keys)
    ensures forall id :: id in rd ==> id in v && rd[id] in v && rd[id] !in rd && v[id] == v[rd[id]]
  {
    forall id | id in rd
      ensures id in v && rd[id] in v && rd[id] !in rd && v[id] == v[rd[id]]
    {
      RemovedHasCanonicalValue(h, g, rd, v, id);
    }
    ModelsAreLinked(h, g, rd, v);
    SurvivorIds(g, rd);
    var w := v - rd.Keys;
    forall n | n in Survivors(g, rd)
      ensures w[n.id] == NodeValue(n, w)
    {
      var m := SurvivorOrigin(g, rd, n);
      assert m.id in Ids(g) - rd.Keys;
      RewrittenNode(m, v, w, rd);
    }
  }

  /** The valuation of the original graph that a valuation of the optimized one stands for. */
  function Unfold(g: seq<Node>, rd: Redirect, w: Valuation): Valuation
    requires w.Keys == Ids(g) - rd.Keys && forall id :: id in rd ==> rd[id] in w
  {
    map id | id in Ids(g) :: if id in rd then w[rd[id]] else w[id]
  }

  lemma UnfoldIsLinked(h: Hashing, g: seq<Node>, rd: Redirect, w: Valuation)
    requires Assumptions(h, g, rd) && w.Keys == Ids(g) - rd.Keys
    ensures forall id :: id in rd ==> rd[id] in w
    ensures Linked(Unfold(g, rd, w), w, rd)
  {
    hide Redirects, SessionsTold;
    RedirectIsOneStep(h, g, rd);
    forall id | id in Ids(g) ensures Word(id) {
      var i := NodeWithId(g, id);
      assert g[i] in g;
    }
  }

  lemma LinkedIsRestriction(v: Valuation, w: Valuation, rd: Redirect)
    requires Linked(v, w, rd)
    ensures w == v - rd.Keys
  {
  }

  lemma UnfoldIsModel(h: Hashing, g: seq<Node>, rd: Redirect, v: Valuation, w: Valuation)
    requires Assumptions(h, g, rd) && BareRefsKept(g, rd) && TextsKept(g, rd, Ids(g) - rd.Keys) && v.Keys == Ids(g)
    requires Linked(v, w, rd) && IsModel(Survivors(g, rd), w)
    ensures IsModel(g, v)
  {
    hide NodeValue, Survivors, RewriteNode, Redirects, SessionsTold, SemanticEquals, InputRefs, HasHash, TextIds;
    forall n | n in g
      ensures v[n.id] == NodeValue(n, v)
    {
      var c := n;
      if n.id in rd {
        c := RemovedLikeCanonical(h, g, rd, n);
        AlikeMeansSameValue(h, g, n, c, v);
      }
      SurvivorStays(g, rd, c);
      RewriteKeepsId(c, rd);
      assert c.id in Ids(g) - rd.Keys;
      RewrittenNode(c, v, w, rd);
    }
  }

  /** Conversely every model of the optimized graph comes from one of the original. */
  lemma OptimizeReflectsValues(h: Hashing, g: seq<Node>, rd: Redirect, w: Valuation) returns (v: Valuation)
    requires Assumptions(h, g, rd) && BareRefsKept(g, rd) && TextsKept(g, rd, Ids(g) - rd.Keys)
    requires IsModel(Survivors(g, rd), w)
    ensures IsModel(g, v) && w == v - rd.Keys
  {
    SurvivorIds(g, rd);
    UnfoldIsLinked(h, g, rd, w);
    v := Unfold(g, rd, w);
    UnfoldIsModel(h, g, rd, v, w);
    LinkedIsRestriction(v, w, rd);
  }

  lemma BareReferenceDangles(n: Node, v: Valuation, w: Valuation, rd: Redirect, r: string)
    requires r in InputRefs(n) && !HasHash(r) && r in v && r !in w
    ensures NodeValue(RewriteNode(n, rd), w) != NodeValue(n, v)
  {
    var k :| k in n.inputs && r in n.inputs[k];
    var i :| 0 <= i < |n.inputs[k]| && n.inputs[k][i] == r;
    assert NodeOf(r) == r;
    assert NodeValue(n, v).inputs[k].values[i] == RefValue(r, v);
    assert NodeValue(RewriteNode(n, rd), w).inputs[k].values[i] == External(r);
  }

  lemma RewriteKeepsId(n: Node, rd: Redirect)
    ensures RewriteNode(n, rd).id == n.id
  {
  }

  /** A text outside the schema that named a removed node no longer means that node. */
  lemma TextDangles(n: Node, v: Valuation, w: Valuation, rd: Redirect, d: Id)
    requires d in TextIds(n) && d in v && d !in w
    ensures NodeValue(RewriteNode(n, rd), w) != NodeValue(n, v)
  {
    hide Refers, InputsMeaning, RewriteInputs, RewriteOption;
    var key :| key in n.options && key != "schema" && !Verbatim(n.kind, key) && d in NamedIn(n.options[key]);
    var o := n.options[key];
    var f :| f in FieldTexts(o) && Refers(f) && NodeOf(f) == d;
    assert FieldValue(f, v) == RefValue(f, v) && FieldValue(f, w) == External(f);
    assert NodeValue(n, v).options[key] == OptionMeaning(n.kind, key, o, v);
    assert NodeValue(RewriteNode(n, rd), w).options[key] == OptionMeaning(n.kind, key, o, w);
    if o.Schema? && f != o.selectKey {
      var i :| 0 <= i < |o.columns| && o.columns[i] == f;
      assert FieldValues(o.columns, v)[i] != FieldValues(o.columns, w)[i];
    }
  }

  lemma ReferencesMatter(h: Hashing, g: seq<Node>, rd: Redirect, v: Valuation, n: Node)
    requires Assumptions(h, g, rd) && IsModel(g, v) && IsModel(Survivors(g, rd), v - rd.Keys)
    requires n in g && n.id !in rd
    ensures forall r :: r in InputRefs(n) && !HasHash(r) ==> r !in rd
    ensures forall d :: d in TextIds(n) ==> d !in rd
  {
    hide NodeValue, Survivors, RewriteNode, Redirects, SessionsTold, InputRefs, HasHash, TextIds;
    var w := v - rd.Keys;
    RewriteKeepsId(n, rd);
    SurvivorStays(g, rd, n);
    forall r | r in InputRefs(n) && !HasHash(r) ensures r !in rd {
      if r in rd {
        RemovedHasCanonicalValue(h, g, rd, v, r);
        BareReferenceDangles(n, v, w, rd, r);
      }
    }
    forall d | d in TextIds(n) ensures d !in rd {
      if d in rd {
        RemovedHasCanonicalValue(h, g, rd, v, d);
        TextDangles(n, v, w, rd, d);
      }
    }
  }

  /** What meaning preservation needs is exactly that no reference the pass skips names a removed node. */
  lemma ReferencesDecide(h: Hashing, g: seq<Node>, rd: Redirect, v: Valuation)
    requires Assumptions(h, g, rd) && IsModel(g, v)
    ensures IsModel(Survivors(g, rd), v - rd.Keys) <==> BareRefsKept(g, rd) && TextsKept(g, rd, Ids(g) - rd.Keys)
  {
    hide Redirects, SessionsTold, Survivors, NodeValue, InputRefs, TextIds, HasHash;
    if BareRefsKept(g, rd) && TextsKept(g, rd, Ids(g) - rd.Keys) {
      OptimizeKeepsValues(h, g, rd, v);
    }
    if IsModel(Survivors(g, rd), v - rd.Keys) {
      forall n | n in g && n.id !in rd
        ensures forall r :: r in InputRefs(n) && !HasHash(r) ==> r !in rd
        ensures forall d :: d in TextIds(n) ==> d !in rd
      {
        ReferencesMatter(h, g, rd, v, n);
      }
    }
  }

  // ------------------------------------------------------------- wiring is preserved

  function Target(rd: Redirect, id: Id): Id { if id in rd then rd[id] else id }

  ghost predicate PlainRedirect(rd: Redirect) { forall id :: id in rd ==> Word(id) && Word(rd[id]) }

  lemma PlainTargets(g: seq<Node>, rd: Redirect)
    requires PlainIds(g) && forall id :: id in rd ==> id in Ids(g) && rd[id] in Ids(g)
    ensures PlainRedirect(rd)
  {
  }

  lemma RewrittenMention(ref: string, rd: Redirect)
    requires PlainRedirect(rd) && (HasHash(ref) || ref !in rd)
    ensures NodeOf(RewriteRef(ref, rd)) == Target(rd, NodeOf(ref))
    ensures HasHash(RewriteRef(ref, rd)) <==> HasHash(ref)
  {
    Rejoin(ref);
    if !HasHash(ref) { assert NodeOf(ref) == ref; }
    if HasHash(ref) && NodeOf(ref) in rd {
      WordIsPlain(rd[NodeOf(ref)]);
      SplitUnique(rd[NodeOf(ref)], PortOf(ref));
    }
  }

  lemma RewrittenInput(n: Node, rd: Redirect, d: Id)
    requires PlainRedirect(rd) && d in InputIds(n)
    requires forall r :: r in InputRefs(n) && !HasHash(r) ==> r !in rd
    ensures Target(rd, d) in InputIds(RewriteNode(n, rd))
  {
    var r :| r in InputRefs(n) && NodeOf(r) == d;
    var k :| k in n.inputs && r in n.inputs[k];
    var i :| 0 <= i < |n.inputs[k]| && n.inputs[k][i] == r;
    RewrittenMention(r, rd);
    assert RewriteRefs(n.inputs[k], rd)[i] == RewriteRef(r, rd);
    assert RewriteRef(r, rd) in RewriteNode(n, rd).inputs[k];
    assert RewriteRef(r, rd) in InputRefs(RewriteNode(n, rd));
  }

  lemma RewrittenFieldAt(o: OptionValue, rd: Redirect, i: nat)
    requires i < |FieldTexts(RewriteOption(o, rd))|
    ensures i < |FieldTexts(o)| && FieldTexts(RewriteOption(o, rd))[i] == RewriteRef(FieldTexts(o)[i], rd)
  {
    if o.Schema? && i > 0 {
      assert FieldTexts(RewriteOption(o, rd))[i] == RewriteRefs(o.columns, rd)[i - 1];
    }
  }

  /** Conversely, what a rewritten node reads or names comes from what it did before. */
  lemma RewrittenInputBack(n: Node, rd: Redirect, d': Id) returns (d: Id)
    requires PlainRedirect(rd) && d' in InputIds(RewriteNode(n, rd))
    requires forall r :: r in InputRefs(n) && !HasHash(r) ==> r !in rd
    ensures d in InputIds(n) && d' == Target(rd, d)
  {
    var m := RewriteNode(n, rd);
    var r' :| r' in InputRefs(m) && NodeOf(r') == d';
    var k :| k in m.inputs && r' in m.inputs[k];
    var i :| 0 <= i < |m.inputs[k]| && m.inputs[k][i] == r';
    var r := n.inputs[k][i];
    assert r in n.inputs[k] && r in InputRefs(n);
    RewrittenMention(r, rd);
    d := NodeOf(r);
  }

  lemma RewrittenSchemaId(n: Node, rd: Redirect, d': Id) returns (d: Id)
    requires PlainRedirect(rd) && d' in SchemaIds(RewriteNode(n, rd))
    ensures d in SchemaIds(n) && d' == Target(rd, d)
  {
    var o := n.options["schema"];
    var after := FieldTexts(RewriteOption(o, rd));
    var i :| 0 <= i < |after| && Refers(after[i]) && NodeOf(after[i]) == d';
    RewrittenFieldAt(o, rd, i);
    var f := FieldTexts(o)[i];
    assert !HasHash(f) ==> RewriteRef(f, rd) == f;
    RewrittenMention(f, rd);
    d := NodeOf(f);
    assert f in FieldTexts(o) && Refers(f);
  }

  lemma TextIdsStay(n: Node, rd: Redirect)
    ensures TextIds(RewriteNode(n, rd)) == TextIds(n)
  {
    hide NamedIn;
    var m := RewriteNode(n, rd);
    assert forall key :: key in n.options && key != "schema" ==> m.options[key] == n.options[key];
    assert m.options.Keys == n.options.Keys;
  }

  /** What wiring needs to know about a redirect map. */
  ghost predicate Merges(g: seq<Node>, rd: Redirect) {
    && Distinct(g) && PlainRedirect(rd) && BareRefsKept(g, rd)
    && rd.Keys <= Ids(g)
    && (forall id :: id in rd ==> rd[id] in Ids(g) && rd[id] !in rd)
    && (forall n, c :: n in g && c in g && n.id in rd && c.id == rd[n.id] ==> n.inputs == c.inputs)
  }

  lemma RedirectMerges(h: Hashing, g: seq<Node>, rd: Redirect)
    requires Assumptions(h, g, rd) && BareRefsKept(g, rd)
    ensures Merges(g, rd)
  {
    RedirectIsOneStep(h, g, rd);
    PlainTargets(g, rd);
    forall n, c | n in g && c in g && n.id in rd && c.id == rd[n.id]
      ensures n.inputs == c.inputs
    {
      var x := RemovedLikeCanonical(h, g, rd, n);
      assert x == c;
    }
  }

  lemma DependencyMaps(g: seq<Node>, rd: Redirect, a: Id, b: Id)
    requires Merges(g, rd) && DependsOn(g, a, b)
    ensures DependsOn(Survivors(g, rd), Target(rd, a), Target(rd, b))
  {
    var n :| n in g && n.id == a && b in InputIds(n) && b in Ids(g);
    var c := n;
    if a in rd {
      var k := NodeWithId(g, rd[a]);
      c := g[k];
      assert InputIds(c) == InputIds(n);
    }
    assert c in g && c.id !in rd;
    RewrittenInput(c, rd, b);
    SurvivorStays(g, rd, c);
    SurvivorIds(g, rd);
  }

  function Targets(rd: Redirect, p: seq<Id>): seq<Id> {
    seq(|p|, i requires 0 <= i < |p| => Target(rd, p[i]))
  }

  lemma WalkMaps(g: seq<Node>, rd: Redirect, p: seq<Id>)
    requires Merges(g, rd) && Walk(g, p)
    ensures Walk(Survivors(g, rd), Targets(rd, p))
  {
    hide Merges, Survivors, Target, DependsOn;
    var s, q := Survivors(g, rd), Targets(rd, p);
    forall i | 0 <= i < |q| - 1
      ensures DependsOn(s, q[i], q[i + 1])
    {
      DependencyMaps(g, rd, p[i], p[i + 1]);
    }
  }

  lemma ReachMaps(g: seq<Node>, rd: Redirect, a: Id, b: Id)
    requires Merges(g, rd) && Reaches(g, a, b)
    ensures Reaches(Survivors(g, rd), Target(rd, a), Target(rd, b))
  {
    var p :| Walk(g, p) && |p| >= 2 && p[0] == a && p[|p| - 1] == b;
    WalkMaps(g, rd, p);
  }

  lemma WiringMaps(g: seq<Node>, rd: Redirect, n: Node, d': Id)
    requires Merges(g, rd) && OptionsWired(g) && n in g && n.id !in rd
    requires d' in OptionIds(RewriteNode(n, rd)) && d' in Ids(g) && d' !in rd
    ensures Reaches(Survivors(g, rd), n.id, d')
  {
    hide Survivors, Reaches, SchemaIds, TextIds;
    var d := d';
    if d' in SchemaIds(RewriteNode(n, rd)) { d := RewrittenSchemaId(n, rd, d'); } else { TextIdsStay(n, rd); }
    assert d in Ids(g) && d in OptionIds(n);
    ReachMaps(g, rd, n.id, d);
  }

  /** What options name stays wired, for schemas now to the canonical nodes. */
  lemma OptimizeKeepsWiring(h: Hashing, g: seq<Node>, rd: Redirect)
    requires Assumptions(h, g, rd) && BareRefsKept(g, rd) && OptionsWired(g)
    ensures OptionsWired(Survivors(g, rd))
  {
    RedirectMerges(h, g, rd);
    SurvivorIds(g, rd);
    forall n', d' | n' in Survivors(g, rd) && d' in OptionIds(n') && d' in Ids(Survivors(g, rd))
      ensures Reaches(Survivors(g, rd), n'.id, d')
    {
      var n := SurvivorOrigin(g, rd, n');
      WiringMaps(g, rd, n, d');
    }
  }

  /** After the pass no input and no schema column refers to a removed node. */
  lemma NoReferenceToRemoved(h: Hashing, g: seq<Node>, rd: Redirect, s: Node)
    requires Assumptions(h, g, rd) && s in Survivors(g, rd)
    ensures forall r :: r in InputRefs(s) && HasHash(r) ==> NodeOf(r) !in rd
    ensures forall d :: d in SchemaIds(s) ==> d !in rd
  {
    hide Redirects, SessionsTold, Survivors, SchemaIds;
    var n := SurvivorOrigin(g, rd, s);
    RedirectIsOneStep(h, g, rd);
    PlainTargets(g, rd);
    forall r | r in InputRefs(s) && HasHash(r) ensures NodeOf(r) !in rd {
      var k :| k in s.inputs && r in s.inputs[k];
      var i :| 0 <= i < |s.inputs[k]| && s.inputs[k][i] == r;
      var r0 := n.inputs[k][i];
      assert r == RewriteRef(r0, rd);
      if HasHash(r0) { RewrittenMention(r0, rd); }
    }
    forall d | d in SchemaIds(s) ensures d !in rd {
      var d0 := RewrittenSchemaId(n, rd, d);
    }
  }

  /** Whether any option still names a removed node depends on the options that are not rewritten. */
  lemma OptionsReferToKept(h: Hashing, g: seq<Node>, rd: Redirect)
    requires Assumptions(h, g, rd)
    ensures (forall s :: s in Survivors(g, rd) ==> OptionIds(s) !! rd.Keys) <==> TextsKept(g, rd, Ids(g) - rd.Keys)
  {
    hide Redirects, SessionsTold, Survivors, SchemaIds, TextIds, RewriteNode;
    forall s, d | s in Survivors(g, rd) && TextsKept(g, rd, Ids(g) - rd.Keys) && d in OptionIds(s)
      ensures d !in rd
    {
      NoReferenceToRemoved(h, g, rd, s);
      var n := SurvivorOrigin(g, rd, s);
      TextIdsStay(n, rd);
      assert n.id in Ids(g) - rd.Keys;
    }
    forall n, d | (forall s :: s in Survivors(g, rd) ==> OptionIds(s) !! rd.Keys)
                  && n in g && n.id in Ids(g) - rd.Keys && d in TextIds(n)
      ensures d !in rd
    {
      SurvivorStays(g, rd, n);
      TextIdsStay(n, rd);
      assert d in OptionIds(RewriteNode(n, rd));
    }
  }

  // ------------------------------------------------------------------- completeness

  ghost predicate CollisionFree(h: Hashing, g: seq<Node>) {
    forall a, b :: a in g && b in g && SemanticHash(h, a) == SemanticHash(h, b) ==>
                   SemanticKey(h, a) == SemanticKey(h, b)
  }

  /** Without hash collisions a node is removed exactly when an equal eligible one precedes it. */
  lemma RemovesEveryRepetition(h: Hashing, g: seq<Node>, i: nat)
    requires CollisionFree(h, g) && i < |g| && Eligible(g[i])
    ensures Duplicate(h, g, i) <==>
            exists j :: 0 <= j < i && Eligible(g[j]) && SemanticEquals(h, g[i], g[j])
  {
    EqualNodesHashEqually(h, g[i], g[FirstAlike(h, g, i)]);
    forall j | 0 <= j < i && Eligible(g[j]) && SemanticEquals(h, g[i], g[j])
      ensures Duplicate(h, g, i)
    {
      EqualNodesHashEqually(h, g[i], g[j]);
    }
  }

  lemma {:induction false} NothingToRewrite(g: seq<Node>)
    ensures Survivors(g, map[]) == g
  {
    if g != [] {
      NothingToRewrite(g[1..]);
      var n := g[0];
      forall refs: seq<string> ensures RewriteRefs(refs, map[]) == refs { }
      assert RewriteInputs(n.inputs, map[]) == n.inputs;
      assert RewriteOptions(n.options, map[]) == n.options;
    }
  }

  lemma {:induction false} RemovalShrinks(g: seq<Node>, rd: Redirect)
    ensures |Survivors(g, rd)| <= |g|
    ensures (exists n :: n in g && n.id in rd) ==> |Survivors(g, rd)| < |g|
  {
    if g != [] {
      RemovalShrinks(g[1..], rd);
      assert g == [g[0]] + g[1..];
    }
  }

  /** Nothing in the node refers to another one. */
  ghost predicate Bare(n: Node) { n.inputs == map[] && OptionIds(n) == {} }

  lemma BareOption(kind: string, key: string, a: OptionValue, b: OptionValue, v: Valuation)
    requires Verbatim(kind, key) || NamedIn(a) == {}
    requires OptionMeaning(kind, key, a, v) == OptionMeaning(kind, key, b, v)
    ensures a == b
  {
    if !Verbatim(kind, key) {
      NamesNone(a);
      match a
      case Text(t) => assert t in FieldTexts(a);
      case Schema(_, s, cs) =>
        assert s in FieldTexts(a) && forall i :: 0 <= i < |cs| ==> cs[i] in FieldTexts(a);
        forall i | 0 <= i < |cs| ensures i < |b.columns| && cs[i] == b.columns[i] {
          assert FieldValues(cs, v)[i] == FieldValues(b.columns, v)[i];
        }
        assert |FieldValues(cs, v)| == |FieldValues(b.columns, v)|;
      case _ =>
    }
  }

  /** A node that refers to nothing has the term of another exactly when the two are equal. */
  lemma BareMeansEqual(h: Hashing, g: seq<Node>, a: Node, b: Node, v: Valuation)
    requires SessionsTold(h, g) && a in g && b in g && Bare(a)
    ensures NodeValue(a, v) == NodeValue(b, v) <==> SemanticEquals(h, a, b)
  {
    if SemanticEquals(h, a, b) { AlikeMeansSameValue(h, g, a, b, v); }
    if NodeValue(a, v) == NodeValue(b, v) {
      hide OptionIds, OptionMeaning, RefValues;
      assert InputsMeaning(b.inputs, v) == map[];
      assert b.inputs == map[];
      assert OptionsMeaning(a.kind, a.options, v) == OptionsMeaning(b.kind, b.options, v);
      assert OptionsMeaning(a.kind, a.options, v).Keys == a.options.Keys;
      assert OptionsMeaning(b.kind, b.options, v).Keys == b.options.Keys;
      forall key | key in a.options ensures a.options[key] == b.options[key] {
        if !Verbatim(a.kind, key) { NamedInOption(a, key); }
        assert OptionsMeaning(a.kind, a.options, v)[key] == OptionsMeaning(b.kind, b.options, v)[key];
        BareOption(a.kind, key, a.options[key], b.options[key], v);
      }
    }
  }

  /** A literal is merged away exactly when a node of the same term precedes it. */
  lemma RepeatedLiteralIsMerged(h: Hashing, g: seq<Node>, rd: Redirect, v: Valuation, i: nat)
    requires Assumptions(h, g, rd) && CollisionFree(h, g) && IsModel(g, v) && i < |g| && Eligible(g[i]) && Bare(g[i])
    ensures g[i].id in rd <==> exists j :: 0 <= j < i && Eligible(g[j]) && v[g[j].id] == v[g[i].id]
  {
    hide NodeValue, SemanticEquals, CollisionFree, SessionsTold, Redirects, Duplicate, Bare;
    RedirectedIffDuplicate(h, g, rd, i);
    RemovesEveryRepetition(h, g, i);
    assert forall j :: 0 <= j < i ==> g[j] in g && v[g[j].id] == NodeValue(g[j], v);
    assert g[i] in g;
    forall j | 0 <= j < i ensures v[g[j].id] == v[g[i].id] <==> SemanticEquals(h, g[i], g[j]) {
      BareMeansEqual(h, g, g[i], g[j], v);
    }
  }

  /** Everything but those three kinds is merged, whatever it reads: exactly the repetitions go. */
  lemma RepetitionsGo(h: Hashing, g: seq<Node>, rd: Redirect, i: nat)
    requires Distinct(g) && Redirects(h, g, rd) && CollisionFree(h, g) && i < |g|
    ensures g[i].id !in Ids(Survivors(g, rd)) <==>
            && g[i].kind != "trade_signal_executor" && g[i].kind != "trade_manager_executor"
            && g[i].kind != "portfolio_executor" && exists j :: 0 <= j < i && SemanticEquals(h, g[i], g[j])
  {
    hide SemanticEquals, CollisionFree, Redirects, Survivors;
    assert g[i] in g && g[i].id in Ids(g);
    SurvivorIds(g, rd);
    RedirectedIffDuplicate(h, g, rd, i);
    if Eligible(g[i]) {
      RemovesEveryRepetition(h, g, i);
      forall j | 0 <= j < i && SemanticEquals(h, g[i], g[j]) ensures Eligible(g[j]) { SameKind(h, g[i], g[j]); }
    }
  }

  lemma SameKind(h: Hashing, a: Node, b: Node)
    requires SemanticEquals(h, a, b)
    ensures a.kind == b.kind
  {
  }

  /** Two nodes are equal when only their ids differ; constants may also differ in timeframe and session. */
  lemma EqualExactly(h: Hashing, g: seq<Node>, a: Node, b: Node)
    requires SessionsTold(h, g) && a in g && b in g
    ensures SemanticEquals(h, a, b) <==>
            if a.kind in {"text", "number", "bool_true", "bool_false", "null_number"} then
              a == b.(id := a.id, timeframe := a.timeframe, session := a.session)
            else a == b.(id := a.id)
  {
  }

  /** The two nodes are written alike: the same options and the same references in their inputs. */
  predicate WrittenAlike(a: Node, b: Node) { a.inputs == b.inputs && a.options == b.options }

  lemma AlikeMeansEqual(h: Hashing, g: seq<Node>, a: Node, b: Node, v: Valuation)
    requires SessionsTold(h, g) && a in g && b in g && WrittenAlike(a, b)
    ensures NodeValue(a, v) == NodeValue(b, v) <==> SemanticEquals(h, a, b)
  {
    hide OptionMeaning, RefValues, InputsMeaning, OptionsMeaning;
    if SemanticEquals(h, a, b) { AlikeMeansSameValue(h, g, a, b, v); }
  }

  /** Any node is merged away exactly when one written alike and of the same term precedes it. */
  lemma RepeatedNodeIsMerged(h: Hashing, g: seq<Node>, rd: Redirect, v: Valuation, i: nat)
    requires Assumptions(h, g, rd) && CollisionFree(h, g) && IsModel(g, v) && i < |g| && Eligible(g[i])
    ensures g[i].id in rd <==>
            exists j :: 0 <= j < i && Eligible(g[j]) && WrittenAlike(g[i], g[j]) && v[g[j].id] == v[g[i].id]
  {
    hide NodeValue, CollisionFree, SessionsTold, Redirects, Duplicate;
    RedirectedIffDuplicate(h, g, rd, i);
    RemovesEveryRepetition(h, g, i);
    assert forall j :: 0 <= j < i ==> g[j] in g && v[g[j].id] == NodeValue(g[j], v);
    assert g[i] in g;
    forall j | 0 <= j < i
      ensures SemanticEquals(h, g[i], g[j]) <==> WrittenAlike(g[i], g[j]) && v[g[j].id] == v[g[i].id]
    {
      if WrittenAlike(g[i], g[j]) { AlikeMeansEqual(h, g, g[i], g[j], v); }
    }
  }

  /** A pass shrinks the graph, or changes nothing and then no two eligible nodes are equal. */
  lemma ShrinksOrIsFinished(h: Hashing, g: seq<Node>, rd: Redirect)
    requires Distinct(g) && Redirects(h, g, rd) && CollisionFree(h, g)
    ensures |Survivors(g, rd)| < |g| || Survivors(g, rd) == g
    ensures Survivors(g, rd) == g ==>
              forall i, j :: 0 <= j < i < |g| && Eligible(g[i]) && Eligible(g[j]) ==> !SemanticEquals(h, g[i], g[j])
  {
    hide Survivors, SemanticEquals, Duplicate, CollisionFree;
    RemovalShrinks(g, rd);
    if rd == map[] {
      NothingToRewrite(g);
      forall i, j | 0 <= j < i < |g| && Eligible(g[i]) && Eligible(g[j])
        ensures !SemanticEquals(h, g[i], g[j])
      {
        RemovesEveryRepetition(h, g, i);
      }
    } else {
      var id :| id in rd;
      var i :| 0 <= i < |g| && g[i].id == id && Duplicate(h, g, i);
      assert g[i] in g;
    }
  }

  // ------------------------------------------------------ why one pass may not be enough

  function Lagged(id: Id, source: Id): Node {
    Node("lag_number", id, map["period" := Number(1.0)], map["SLOT" := [JoinId(source, "result")]], None, None)
  }

  lemma LaggedRewritten(id: Id, source: Id, rd: Redirect)
    requires '#' !in source
    ensures RewriteNode(Lagged(id, source), rd) == Lagged(id, if source in rd then rd[source] else source)
  {
    SplitJoined(source, "result");
    var ref := JoinId(source, "result");
    var to := if source in rd then rd[source] else source;
    assert RewriteRef(ref, rd) == JoinId(to, "result");
    assert RewriteRefs([ref], rd) == [JoinId(to, "result")];
    assert RewriteInputs(map["SLOT" := [ref]], rd) == map["SLOT" := [JoinId(to, "result")]];
  }

  /** Two equal nodes, and one reader of each. */
  ghost predicate Readers(h: Hashing, g: seq<Node>, a: Node, b: Node, x: Id, y: Id) {
    && g == [a, b, Lagged(x, a.id), Lagged(y, b.id)] && Distinct(g)
    && SemanticEquals(h, a, b) && Eligible(a) && Eligible(b) && a.kind != "lag_number"
    && '#' !in a.id && '#' !in b.id
  }

  lemma ReadersDiffer(h: Hashing, a: Node, b: Node, x: Id, y: Id)
    requires a.id != b.id && '#' !in a.id && '#' !in b.id
    ensures !SemanticEquals(h, Lagged(x, a.id), Lagged(y, b.id)) && !SemanticEquals(h, Lagged(y, b.id), Lagged(x, a.id))
  {
    SplitJoined(a.id, "result");
    SplitJoined(b.id, "result");
    assert Lagged(x, a.id).inputs["SLOT"][0] != Lagged(y, b.id).inputs["SLOT"][0];
  }

  lemma OnlyTheCopyIsDuplicate(h: Hashing, g: seq<Node>, a: Node, b: Node, x: Id, y: Id)
    requires Readers(h, g, a, b, x, y) && CollisionFree(h, g)
    ensures !Duplicate(h, g, 0) && Duplicate(h, g, 1) && !Duplicate(h, g, 2) && !Duplicate(h, g, 3)
  {
    hide CollisionFree, Duplicate;
    assert g[0].id != g[1].id;
    ReadersDiffer(h, a, b, x, y);
    RemovesEveryRepetition(h, g, 0);
    RemovesEveryRepetition(h, g, 1);
    assert SemanticEquals(h, g[1], g[0]);
    RemovesEveryRepetition(h, g, 2);
    RemovesEveryRepetition(h, g, 3);
  }

  /** The readers of two equal nodes become equal only through the pass, and both survive it. */
  lemma OnePassMayLeaveRepetitions(h: Hashing, g: seq<Node>, rd: Redirect, a: Node, b: Node, x: Id, y: Id)
    requires Readers(h, g, a, b, x, y) && CollisionFree(h, g) && Redirects(h, g, rd)
    ensures Lagged(x, a.id) in Survivors(g, rd) && Lagged(y, a.id) in Survivors(g, rd) && x != y
    ensures SemanticEquals(h, Lagged(x, a.id), Lagged(y, a.id))
  {
    hide CollisionFree, Duplicate, Redirects, Survivors, RewriteNode, SemanticHash;
    OnlyTheCopyIsDuplicate(h, g, a, b, x, y);
    RedirectedIffDuplicate(h, g, rd, 0);
    RedirectedIffDuplicate(h, g, rd, 1);
    RedirectedIffDuplicate(h, g, rd, 2);
    RedirectedIffDuplicate(h, g, rd, 3);
    FirstOfTwo(h, g);
    LaggedRewritten(x, a.id, rd);
    LaggedRewritten(y, b.id, rd);
    SurvivorStays(g, rd, g[2]);
    SurvivorStays(g, rd, g[3]);
    assert g[2].id != g[3].id;
  }

  /** x = 1; y = 1; x[1]; y[1]. */
  lemma ReadersExist(h: Hashing) returns (g: seq<Node>, a: Node, b: Node)
    ensures Readers(h, g, a, b, "lag_0", "lag_1")
  {
    a := Node("number", "number_0", map["value" := Number(1.0)], map[], None, None);
    b := a.(id := "number_1");
    g := [a, b, Lagged("lag_0", a.id), Lagged("lag_1", b.id)];
    assert "number_0"[7] != "number_1"[7] && "lag_0"[4] != "lag_1"[4] && "number_0"[0] != "lag_0"[0];
    assert "number_1"[0] != "lag_0"[0] && "number_0"[0] != "lag_1"[0] && "number_1"[0] != "lag_1"[0];
  }

  lemma FirstOfTwo(h: Hashing, g: seq<Node>)
    requires |g| >= 2 && Duplicate(h, g, 1)
    ensures FirstAlike(h, g, 1) == 0
  {
  }

  // ------------------------------------------------------------- when one pass is enough

  ghost predicate Unrepeated(h: Hashing, g: seq<Node>) {
    forall i, j :: 0 <= j < i < |g| && Eligible(g[i]) && Eligible(g[j]) ==> !SemanticEquals(h, g[i], g[j])
  }

  function FirstIndex(g: seq<Node>, id: Id): (i: nat)
    requires id in Ids(g)
    ensures i < |g| && g[i].id == id
  {
    if g[0].id == id then 0 else assert g == [g[0]] + g[1..]; 1 + FirstIndex(g[1..], id)
  }

  /** Every node's first equal one, known before the pass. */
  function FirstOf(h: Hashing, g: seq<Node>, id: Id): Id
    requires id in Ids(g)
  {
    var i := FirstIndex(g, id);
    if Eligible(g[i]) && SemanticEquals(h, g[i], g[FirstAlike(h, g, i)]) then g[FirstAlike(h, g, i)].id else id
  }

  function Firsts(h: Hashing, g: seq<Node>): Redirect { map id | id in Ids(g) :: FirstOf(h, g, id) }

  /** The node with each reference sent to the first node equal to its target. */
  function Sent(h: Hashing, g: seq<Node>, n: Node): Node { RewriteNode(n, Firsts(h, g)) }

  /** `full` also maps every other id to itself. */
  ghost predicate Completes(rd: Redirect, full: Redirect) {
    && (forall id :: id in rd ==> id in full && full[id] == rd[id])
    && (forall id :: id in full && id !in rd ==> full[id] == id)
  }

  lemma SameRef(ref: string, rd: Redirect, full: Redirect)
    requires Completes(rd, full)
    ensures RewriteRef(ref, full) == RewriteRef(ref, rd)
  {
    Rejoin(ref);
  }

  lemma SameRefs(refs: seq<string>, rd: Redirect, full: Redirect)
    requires Completes(rd, full)
    ensures RewriteRefs(refs, full) == RewriteRefs(refs, rd)
  {
    hide Completes, RewriteRef;
    forall i | 0 <= i < |refs|
      ensures RewriteRef(refs[i], full) == RewriteRef(refs[i], rd)
    {
      SameRef(refs[i], rd, full);
    }
  }

  lemma SameRewriting(n: Node, rd: Redirect, full: Redirect)
    requires Completes(rd, full)
    ensures RewriteNode(n, full) == RewriteNode(n, rd)
  {
    hide Completes, RewriteRef, RewriteRefs;
    forall k | k in n.inputs
      ensures RewriteRefs(n.inputs[k], full) == RewriteRefs(n.inputs[k], rd)
    {
      SameRefs(n.inputs[k], rd, full);
    }
    assert RewriteInputs(n.inputs, full) == RewriteInputs(n.inputs, rd);
    if "schema" in n.options {
      match n.options["schema"]
      case Text(t) => SameRef(t, rd, full);
      case Schema(_, s, cs) => SameRef(s, rd, full); SameRefs(cs, rd, full);
      case _ =>
    }
  }

  lemma SentIsRewritten(h: Hashing, g: seq<Node>, rd: Redirect, n: Node)
    requires Distinct(g) && Redirects(h, g, rd)
    ensures Sent(h, g, n) == RewriteNode(n, rd)
  {
    hide RewriteNode, SemanticEquals, SemanticHash, Redirects, Eligible;
    forall id | id in Ids(g)
      ensures if id in rd then rd[id] == FirstOf(h, g, id) else FirstOf(h, g, id) == id
    {
      var i := FirstIndex(g, id);
      RedirectedIffDuplicate(h, g, rd, i);
    }
    RedirectIsOneStep(h, g, rd);
    SameRewriting(n, rd, Firsts(h, g));
  }

  /** Two different eligible nodes become equal only through the pass. */
  ghost predicate Merging(h: Hashing, g: seq<Node>, i: nat, j: nat) {
    && i < |g| && j < |g| && Eligible(g[i]) && Eligible(g[j])
    && !SemanticEquals(h, g[i], g[j]) && SemanticEquals(h, Sent(h, g, g[i]), Sent(h, g, g[j]))
  }

  /** The surviving node equal to node i. */
  lemma Representative(h: Hashing, g: seq<Node>, rd: Redirect, i: nat) returns (k: nat)
    requires Distinct(g) && CollisionFree(h, g) && Redirects(h, g, rd) && i < |g| && Eligible(g[i])
    ensures k < |g| && Eligible(g[k]) && g[k].id !in rd && SemanticEquals(h, g[k], g[i])
  {
    k := FirstAlike(h, g, i);
    assert FirstAlike(h, g, k) == k && g[k] in g && g[i] in g;
    RedirectedIffDuplicate(h, g, rd, k);
    EqualNodesHashEqually(h, g[k], g[i]);
  }

  lemma EqualIsEquivalence(h: Hashing, a: Node, b: Node, c: Node)
    ensures SemanticEquals(h, a, b) ==> SemanticEquals(h, b, a)
    ensures SemanticEquals(h, a, b) && SemanticEquals(h, b, c) ==> SemanticEquals(h, a, c)
  {
  }

  lemma RewrittenEqually(h: Hashing, a: Node, b: Node, rd: Redirect)
    requires SemanticEquals(h, a, b)
    ensures SemanticEquals(h, RewriteNode(a, rd), RewriteNode(b, rd))
  {
  }

  /** Survivors are eligible exactly when they were, and different ones were not equal before. */
  lemma SurvivorsDiffered(h: Hashing, g: seq<Node>, rd: Redirect, i: nat, j: nat)
    requires Distinct(g) && CollisionFree(h, g) && Redirects(h, g, rd) && i < |g| && j < |g| && i != j
    requires Eligible(g[i]) && Eligible(g[j]) && g[i].id !in rd && g[j].id !in rd
    ensures !SemanticEquals(h, g[i], g[j])
  {
    hide SemanticEquals, CollisionFree, Duplicate;
    RedirectedIffDuplicate(h, g, rd, i);
    RedirectedIffDuplicate(h, g, rd, j);
    EqualIsEquivalence(h, g[i], g[j], g[i]);
    EqualIsEquivalence(h, g[j], g[i], g[j]);
    RemovesEveryRepetition(h, g, i);
    RemovesEveryRepetition(h, g, j);
  }

  /** Members of a repetition, by position. */
  lemma Positions(h: Hashing, s: seq<Node>, a: Node, b: Node)
    requires a in s && b in s && a != b && Eligible(a) && Eligible(b) && SemanticEquals(h, a, b)
    ensures !Unrepeated(h, s)
  {
    hide SemanticEquals;
    var i :| 0 <= i < |s| && s[i] == a;
    var j :| 0 <= j < |s| && s[j] == b;
    EqualIsEquivalence(h, a, b, a);
    if i < j { assert SemanticEquals(h, s[j], s[i]); } else { assert SemanticEquals(h, s[i], s[j]); }
  }

  lemma MergingRepeats(h: Hashing, g: seq<Node>, rd: Redirect, i: nat, j: nat)
    requires Distinct(g) && CollisionFree(h, g) && Redirects(h, g, rd) && Merging(h, g, i, j)
    ensures !Unrepeated(h, Survivors(g, rd))
  {
    hide SemanticEquals, CollisionFree, Redirects, Survivors, RewriteNode, Sent, Unrepeated;
    var a := Representative(h, g, rd, i);
    var b := Representative(h, g, rd, j);
    SentIsRewritten(h, g, rd, g[i]);
    SentIsRewritten(h, g, rd, g[j]);
    RewrittenEqually(h, g[a], g[i], rd);
    RewrittenEqually(h, g[b], g[j], rd);
    var x, y := RewriteNode(g[a], rd), RewriteNode(g[b], rd);
    EqualIsEquivalence(h, RewriteNode(g[b], rd), RewriteNode(g[j], rd), x);
    EqualIsEquivalence(h, x, RewriteNode(g[i], rd), RewriteNode(g[j], rd));
    EqualIsEquivalence(h, x, RewriteNode(g[j], rd), y);
    assert a != b by {
      EqualIsEquivalence(h, g[a], g[i], g[a]);
      EqualIsEquivalence(h, g[i], g[a], g[j]);
    }
    SurvivorStays(g, rd, g[a]);
    SurvivorStays(g, rd, g[b]);
    RewriteKeepsKind(g[a], rd);
    RewriteKeepsKind(g[b], rd);
    DistinctIds(g, a, b);
    Positions(h, Survivors(g, rd), x, y);
  }

  lemma RewriteKeepsKind(n: Node, rd: Redirect)
    ensures RewriteNode(n, rd).id == n.id && (Eligible(RewriteNode(n, rd)) <==> Eligible(n))
  {
  }

  lemma DistinctIds(g: seq<Node>, a: nat, b: nat)
    requires Distinct(g) && a < |g| && b < |g| && a != b
    ensures g[a].id != g[b].id
  {
  }

  lemma RepetitionMerges(h: Hashing, g: seq<Node>, rd: Redirect, p: nat, q: nat) returns (i: nat, j: nat)
    requires Distinct(g) && CollisionFree(h, g) && Redirects(h, g, rd) && q < p < |Survivors(g, rd)|
    requires Eligible(Survivors(g, rd)[p]) && Eligible(Survivors(g, rd)[q])
    requires SemanticEquals(h, Survivors(g, rd)[p], Survivors(g, rd)[q])
    ensures i < |g| && j < |g| && Merging(h, g, i, j)
  {
    hide SemanticEquals, CollisionFree, Redirects, Survivors, RewriteNode, Sent;
    var s := Survivors(g, rd);
    SurvivorIds(g, rd);
    var a := SurvivorOrigin(g, rd, s[p]);
    var b := SurvivorOrigin(g, rd, s[q]);
    i :| 0 <= i < |g| && g[i] == a;
    j :| 0 <= j < |g| && g[j] == b;
    RewriteKeepsKind(a, rd);
    RewriteKeepsKind(b, rd);
    DistinctIds(s, p, q);
    SurvivorsDiffered(h, g, rd, i, j);
    SentIsRewritten(h, g, rd, a);
    SentIsRewritten(h, g, rd, b);
  }

  /** One pass leaves no repetition exactly when sending references to first nodes makes no different nodes equal. */
  lemma OnePassIsEnough(h: Hashing, g: seq<Node>, rd: Redirect)
    requires Distinct(g) && CollisionFree(h, g) && Redirects(h, g, rd)
    ensures Unrepeated(h, Survivors(g, rd)) <==> forall i, j :: 0 <= i < |g| && 0 <= j < |g| ==> !Merging(h, g, i, j)
  {
    hide SemanticEquals, CollisionFree, Redirects, Survivors, Merging;
    if i, j :| 0 <= i < |g| && 0 <= j < |g| && Merging(h, g, i, j) {
      MergingRepeats(h, g, rd, i, j);
    }
    var s := Survivors(g, rd);
    if !Unrepeated(h, s) {
      var p, q :| 0 <= q < p < |s| && Eligible(s[p]) && Eligible(s[q]) && SemanticEquals(h, s[p], s[q]);
      var i, j := RepetitionMerges(h, g, rd, p, q);
    }
  }

  // ------------------------------------------------------------------- repeated passes

  ghost function Pass(h: Hashing, g: seq<Node>): seq<Node> { Survivors(g, Redirected(h, g, |g|)) }

  ghost function Passes(h: Hashing, g: seq<Node>, n: nat): seq<Node>
    decreases n
  {
    if n == 0 then g else Passes(h, Pass(h, g), n - 1)
  }

  /** No collision on any graph that repeated passes reach. */
  ghost predicate NeverCollides(h: Hashing, g: seq<Node>) {
    forall k: nat :: k <= |g| ==> CollisionFree(h, Passes(h, g, k))
  }

  lemma StillNeverCollides(h: Hashing, g: seq<Node>)
    requires NeverCollides(h, g) && |Pass(h, g)| < |g|
    ensures CollisionFree(h, g) && NeverCollides(h, Pass(h, g))
  {
    hide CollisionFree, Pass;
    assert CollisionFree(h, Passes(h, g, 0));
    forall k: nat | k <= |Pass(h, g)| ensures CollisionFree(h, Passes(h, Pass(h, g), k)) {
      assert CollisionFree(h, Passes(h, g, k + 1));
    }
  }

  /** Repeating the pass ends, after at most one pass per node, with no equal eligible nodes. */
  lemma {:induction false} PassesEnd(h: Hashing, g: seq<Node>) returns (n: nat)
    requires Distinct(g) && NeverCollides(h, g)
    ensures n <= |g| && Unrepeated(h, Passes(h, g, n))
    decreases |g|
  {
    hide SemanticEquals, Redirects, Survivors, Redirected, CollisionFree;
    var rd := Redirected(h, g, |g|);
    RedirectedIsRedirects(h, g);
    assert CollisionFree(h, Passes(h, g, 0));
    ShrinksOrIsFinished(h, g, rd);
    if |Survivors(g, rd)| < |g| {
      SurvivorIds(g, rd);
      StillNeverCollides(h, g);
      var k := PassesEnd(h, Pass(h, g));
      n := k + 1;
    } else {
      n := 0;
    }
  }

  // ----------------------------------------------------------------------- the pass

  /** std::find_if over the vector: the first node with this id. */
  method FindNode(g: seq<Node>, id: Id) returns (k: nat)
    ensures k <= |g| && (k < |g| ==> g[k].id == id)
    ensures forall i :: 0 <= i < k ==> g[i].id != id
  {
    k := 0;
    while k < |g| && g[k].id != id
      invariant k <= |g|
      invariant forall i :: 0 <= i < k ==> g[i].id != id
    {
      k := k + 1;
    }
  }

  /** The hash table after the first i nodes. */
  ghost function Canonical(h: Hashing, g: seq<Node>, i: nat): map<nat, Id>
    requires i <= |g|
  {
    if i == 0 then map[]
    else
      var before, n := Canonical(h, g, i - 1), g[i - 1];
      if Eligible(n) && SemanticHash(h, n) !in before then before[SemanticHash(h, n) := n.id] else before
  }

  lemma {:induction false} CanonicalIsFirst(h: Hashing, g: seq<Node>, i: nat, j: nat)
    requires i <= |g| && j < |g| && Eligible(g[j])
    ensures SemanticHash(h, g[j]) in Canonical(h, g, i) <==> FirstAlike(h, g, j) < i
    ensures FirstAlike(h, g, j) < i ==> Canonical(h, g, i)[SemanticHash(h, g[j])] == g[FirstAlike(h, g, j)].id
  {
    if i > 0 {
      CanonicalIsFirst(h, g, i - 1, j);
    }
  }

  /** The redirect map after the first i nodes. */
  ghost function Redirected(h: Hashing, g: seq<Node>, i: nat): Redirect
    requires i <= |g|
  {
    if i == 0 then map[]
    else
      var before := Redirected(h, g, i - 1);
      if Duplicate(h, g, i - 1) then before[g[i - 1].id := g[FirstAlike(h, g, i - 1)].id] else before
  }

  lemma {:induction false} RedirectedHas(h: Hashing, g: seq<Node>, i: nat, j: nat)
    requires Distinct(g) && j < i <= |g| && Duplicate(h, g, j)
    ensures g[j].id in Redirected(h, g, i) && Redirected(h, g, i)[g[j].id] == g[FirstAlike(h, g, j)].id
  {
    if j < i - 1 {
      RedirectedHas(h, g, i - 1, j);
      assert g[j].id != g[i - 1].id;
    }
  }

  lemma {:induction false} RedirectedFrom(h: Hashing, g: seq<Node>, i: nat, id: Id) returns (j: nat)
    requires i <= |g| && id in Redirected(h, g, i)
    ensures j < |g| && g[j].id == id && Duplicate(h, g, j)
  {
    if Duplicate(h, g, i - 1) && g[i - 1].id == id { j := i - 1; }
    else { j := RedirectedFrom(h, g, i - 1, id); }
  }

  lemma RedirectedIsRedirects(h: Hashing, g: seq<Node>)
    requires Distinct(g)
    ensures Redirects(h, g, Redirected(h, g, |g|))
  {
    var rd := Redirected(h, g, |g|);
    forall i | 0 <= i < |g| && Duplicate(h, g, i)
      ensures g[i].id in rd && rd[g[i].id] == g[FirstAlike(h, g, i)].id
    {
      RedirectedHas(h, g, |g|, i);
    }
    forall id | id in rd
      ensures exists i :: 0 <= i < |g| && g[i].id == id && Duplicate(h, g, i)
    {
      var j := RedirectedFrom(h, g, |g|, id);
    }
  }

  /** Phase 1: the redirect map of the whole graph. */
  method FindDuplicates(g: seq<Node>, h: Hashing) returns (rd: Redirect)
    requires Distinct(g)
    ensures Redirects(h, g, rd)
  {
    var canonical: map<nat, Id> := map[];
    rd := map[];
    for i := 0 to |g|
      invariant canonical == Canonical(h, g, i)
      invariant rd == Redirected(h, g, i)
    {
      if Eligible(g[i]) {
        var x := SemanticHash(h, g[i]);
        CanonicalIsFirst(h, g, i, i);
        if x in canonical {
          var k := FindNode(g, canonical[x]);
          assert k == FirstAlike(h, g, i);
          if k < |g| && SemanticEquals(h, g[i], g[k]) {
            rd := rd[g[i].id := canonical[x]];
          }
        } else {
          canonical := canonical[x := g[i].id];
        }
      }
    }
    RedirectedIsRedirects(h, g);
  }

  /** Phase 2 for one list of references. */
  method RedirectRefs(refs: seq<string>, rd: Redirect) returns (out: seq<string>)
    ensures out == RewriteRefs(refs, rd)
  {
    out := refs;
    for i := 0 to |refs|
      invariant |out| == |refs|
      invariant forall j :: 0 <= j < i ==> out[j] == RewriteRef(refs[j], rd)
      invariant forall j :: i <= j < |refs| ==> out[j] == refs[j]
    {
      var pos := FindHash(out[i]);
      if pos < |out[i]| {
        var nodeId, handle := out[i][..pos], out[i][pos..];
        if nodeId in rd {
          out := out[i := rd[nodeId] + handle];
        }
      }
    }
  }

  /** Phase 2 for one node; the map yields its inputs in any order. */
  method RedirectInputs(inputs: map<string, seq<string>>, rd: Redirect) returns (out: map<string, seq<string>>)
    ensures out == RewriteInputs(inputs, rd)
  {
    out := inputs;
    var names := inputs.Keys;
    while names != {}
      invariant names <= inputs.Keys && out.Keys == inputs.Keys
      invariant forall k :: k in inputs ==>
                  out[k] == if k in names then inputs[k] else RewriteRefs(inputs[k], rd)
    {
      var name :| name in names;
      names := names - {name};
      var refs := RedirectRefs(out[name], rd);
      out := out[name := refs];
    }
  }

  /** One textual replacement of the JSON pattern "old# by "new# at the start of a string value. */
  function ReplaceId(text: string, old_: Id, new_: Id): string {
    if old_ + "#" <= text then new_ + text[|old_|..] else text
  }

  function ReplaceInOption(o: OptionValue, old_: Id, new_: Id): OptionValue {
    match o
    case Text(t) => Text(ReplaceId(t, old_, new_))
    case Schema(strict, s, cs) =>
      Schema(strict, ReplaceId(s, old_, new_),
             seq(|cs|, i requires 0 <= i < |cs| => ReplaceId(cs[i], old_, new_)))
    case _ => o
  }

  function Restrict(rd: Redirect, done: set<Id>): Redirect { map id | id in rd && id in done :: rd[id] }

  /** Ids are plain and no target is itself redirected. */
  ghost predicate OneStep(rd: Redirect) {
    forall id :: id in rd ==> '#' !in id && '#' !in rd[id] && rd[id] !in rd
  }

  lemma RedirectsOneStep(h: Hashing, g: seq<Node>, rd: Redirect)
    requires Distinct(g) && PlainIds(g) && Redirects(h, g, rd)
    ensures OneStep(rd)
  {
    hide Redirects;
    RedirectIsOneStep(h, g, rd);
    forall id | id in Ids(g) ensures '#' !in id {
      var i := NodeWithId(g, id);
      assert g[i] in g;
      WordIsPlain(id);
    }
  }

  lemma PatternMatchesNode(text: string, id: Id)
    requires '#' !in id
    ensures id + "#" <= text <==> HasHash(text) && NodeOf(text) == id
  {
    if id + "#" <= text {
      var port := text[|id|..];
      assert text == id + port && port[0] == '#';
      SplitUnique(id, port);
    }
    Rejoin(text);
  }

  /** One more replacement is one more entry of the simultaneous substitution, in any order. */
  lemma ReplaceExtends(text: string, rd: Redirect, done: set<Id>, id: Id)
    requires OneStep(rd) && id in rd && id !in done
    ensures ReplaceId(RewriteRef(text, Restrict(rd, done)), id, rd[id])
         == RewriteRef(text, Restrict(rd, done + {id}))
  {
    var now := RewriteRef(text, Restrict(rd, done));
    Rejoin(text);
    PatternMatchesNode(now, id);
    if HasHash(text) && NodeOf(text) in Restrict(rd, done) {
      SplitUnique(rd[NodeOf(text)], PortOf(text));
    }
  }

  lemma ReplaceExtendsOption(o: OptionValue, rd: Redirect, done: set<Id>, id: Id)
    requires OneStep(rd) && id in rd && id !in done
    ensures ReplaceInOption(RewriteOption(o, Restrict(rd, done)), id, rd[id])
         == RewriteOption(o, Restrict(rd, done + {id}))
  {
    match o
    case Text(t) => ReplaceExtends(t, rd, done, id);
    case Schema(strict, s, cs) =>
      ReplaceExtends(s, rd, done, id);
      forall i | 0 <= i < |cs|
        ensures ReplaceId(RewriteRefs(cs, Restrict(rd, done))[i], id, rd[id])
             == RewriteRefs(cs, Restrict(rd, done + {id}))[i]
      {
        ReplaceExtends(cs[i], rd, done, id);
      }
      assert ReplaceInOption(RewriteOption(o, Restrict(rd, done)), id, rd[id]).columns
          == RewriteRefs(cs, Restrict(rd, done + {id}));
    case _ =>
  }

  lemma RestrictEnds(o: OptionValue, rd: Redirect)
    ensures RewriteOption(o, Restrict(rd, {})) == o
    ensures RewriteOption(o, Restrict(rd, rd.Keys)) == RewriteOption(o, rd)
  {
    assert Restrict(rd, {}) == map[];
    assert Restrict(rd, rd.Keys) == rd;
    if o.Schema? { assert RewriteRefs(o.columns, map[]) == o.columns; }
  }

  /** Phase 2.5 for one option: the redirect map is walked in any order. */
  method RedirectOption(o: OptionValue, rd: Redirect) returns (out: OptionValue)
    requires OneStep(rd)
    ensures out == RewriteOption(o, rd)
  {
    out := o;
    var todo := rd.Keys;
    RestrictEnds(o, rd);
    assert rd.Keys - todo == {};
    while todo != {}
      invariant todo <= rd.Keys
      invariant out == RewriteOption(o, Restrict(rd, rd.Keys - todo))
    {
      var id :| id in todo;
      ReplaceExtendsOption(o, rd, rd.Keys - todo, id);
      assert rd.Keys - (todo - {id}) == (rd.Keys - todo) + {id};
      out := ReplaceInOption(out, id, rd[id]);
      todo := todo - {id};
    }
    assert rd.Keys - {} == rd.Keys;
  }

  /** Phase 2 over the vector, in place. */
  method RedirectAllInputs(context: Context, rd: Redirect)
    modifies context`algorithms
    ensures |context.algorithms| == |old(context.algorithms)|
    ensures forall j :: 0 <= j < |context.algorithms| ==>
              var n := old(context.algorithms)[j];
              context.algorithms[j] == n.(inputs := RewriteInputs(n.inputs, rd))
  {
    ghost var g := context.algorithms;
    var size := |context.algorithms|;
    for i := 0 to size
      invariant |context.algorithms| == |g|
      invariant forall j :: 0 <= j < i ==> context.algorithms[j] == g[j].(inputs := RewriteInputs(g[j].inputs, rd))
      invariant forall j :: i <= j < |g| ==> context.algorithms[j] == g[j]
    {
      var inputs := RedirectInputs(context.algorithms[i].inputs, rd);
      context.algorithms := context.algorithms[i := context.algorithms[i].(inputs := inputs)];
    }
  }

  /** Phase 2.5 over the vector, in place. */
  method RedirectAllSchemas(context: Context, rd: Redirect)
    requires OneStep(rd)
    modifies context`algorithms
    ensures |context.algorithms| == |old(context.algorithms)|
    ensures forall j :: 0 <= j < |context.algorithms| ==>
              var n := old(context.algorithms)[j];
              context.algorithms[j] == n.(options := RewriteOptions(n.options, rd))
  {
    ghost var g := context.algorithms;
    var size := |context.algorithms|;
    for i := 0 to size
      invariant |context.algorithms| == |g|
      invariant forall j :: 0 <= j < i ==> context.algorithms[j] == g[j].(options := RewriteOptions(g[j].options, rd))
      invariant forall j :: i <= j < |g| ==> context.algorithms[j] == g[j]
    {
      var node := context.algorithms[i];
      if "schema" in node.options {
        var option := RedirectOption(node.options["schema"], rd);
        context.algorithms := context.algorithms[i := node.(options := node.options["schema" := option])];
      }
    }
  }

  /** Phase 3: std::remove_if over rewritten nodes. */
  method EraseDuplicates(context: Context, rd: Redirect, ghost g: seq<Node>)
    requires |context.algorithms| == |g|
    requires forall j :: 0 <= j < |g| ==> context.algorithms[j] == RewriteNode(g[j], rd)
    modifies context`algorithms
    ensures context.algorithms == Survivors(g, rd)
  {
    var nodes, kept: seq<Node> := context.algorithms, [];
    for i := 0 to |nodes|
      invariant kept == Survivors(g[..i], rd)
    {
      assert g[..i + 1] == g[..i] + [g[i]];
      SurvivorsSplit(g[..i], [g[i]], rd);
      if nodes[i].id !in rd {
        kept := kept + [nodes[i]];
      }
    }
    assert g[..|g|] == g;
    context.algorithms := kept;
  }

  /**
   The whole pass on the shared context: duplicates found, references and schema options
   redirected, duplicates erased and their ids released.
   */
  method Optimize(context: Context, h: Hashing) returns (ghost rd: Redirect)
    requires Distinct(context.algorithms) && PlainIds(context.algorithms)
    modifies context`algorithms, context`usedNodeIds
    ensures Redirects(h, old(context.algorithms), rd)
    ensures context.algorithms == Survivors(old(context.algorithms), rd)
    ensures context.usedNodeIds == old(context.usedNodeIds) - rd.Keys
  {
    hide Redirects, OneStep, Survivors, PlainIds;
    ghost var g := context.algorithms;
    var redirect := FindDuplicates(context.algorithms, h);
    rd := redirect;
    RedirectsOneStep(h, g, rd);
    RedirectAllInputs(context, redirect);
    RedirectAllSchemas(context, redirect);
    EraseDuplicates(context, redirect, g);
    context.usedNodeIds := context.usedNodeIds - redirect.Keys;
  }
}
