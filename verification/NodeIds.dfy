/** Generated node ids: a base, an underscore and a decimal number. */
module NodeIds {
  import opened Graph
  import opened Registry

  function Digit(d: nat): char
    requires d < 10
  {
    ('0' as int + d) as char
  }

  /** std::to_string of a natural number. */
  function Decimal(n: nat): (s: string)
    ensures s != [] && (|s| == 1 <==> n < 10)
  {
    if n < 10 then [Digit(n)] else Decimal(n / 10) + [Digit(n % 10)]
  }

  lemma {:induction false} DecimalInjective(m: nat, n: nat)
    requires Decimal(m) == Decimal(n)
    ensures m == n
  {
    var s := Decimal(m);
    assert s[|s| - 1] == Digit(m % 10) == Digit(n % 10);
    if m >= 10 {
      assert Decimal(m / 10) == s[..|s| - 1] == Decimal(n / 10);
      DecimalInjective(m / 10, n / 10);
    }
  }

  lemma {:induction false} DecimalIsWord(n: nat)
    ensures Word(Decimal(n))
  {
    if n >= 10 { DecimalIsWord(n / 10); }
  }

  function Candidate(base: string, k: nat): Id { base + "_" + Decimal(k) }

  lemma CandidateInjective(base: string, j: nat, k: nat)
    requires Candidate(base, j) == Candidate(base, k)
    ensures j == k
  {
    var n := |base + "_"|;
    assert Candidate(base, j)[n..] == Decimal(j) && Candidate(base, k)[n..] == Decimal(k);
    DecimalInjective(j, k);
  }

  // -------------------------------------------------------------- names and clashes

  const BUILT_IN_BASES := {
    "add", "sub", "mul", "div", "modulo", "power_op", "lt", "gt", "lte", "gte", "eq", "neq",
    "logical_and", "logical_or", "logical_not", "number", "bool_true", "bool_false", "text", "null",
    "ifexp", "lag", "static_cast", "stringify", "node"
  }

  /** The kinds of the nodes the compiler builds on its own. */
  const BUILT_IN_KINDS := {
    "add", "sub", "mul", "div", "modulo", "power_op", "lt", "gt", "lte", "gte", "eq", "neq",
    "logical_and", "logical_or", "logical_not", "number", "bool_true", "bool_false", "text", "null_number",
    "boolean_select_string", "boolean_select_timestamp", "boolean_select_boolean", "boolean_select_number",
    "lag_string", "lag_boolean", "lag_timestamp", "lag_number",
    "static_cast_to_integer", "static_cast_to_decimal", "static_cast_to_boolean", "stringify"
  }

  predicate IsBase(reg: Registry, base: string) { base in BUILT_IN_BASES || base in reg.components }

  /** Has the form of an id this compiler may generate. */
  ghost predicate Reserved(reg: Registry, id: Id) {
    exists base, k :: IsBase(reg, base) && id == Candidate(base, k)
  }

  predicate SlotText(s: string) { "SLOT" <= s }

  /** A word that is no slot text. */
  predicate PlainName(s: string) { Word(s) && !SlotText(s) }

  lemma CandidateIsPlain(base: string, k: nat)
    requires PlainName(base)
    ensures PlainName(Candidate(base, k))
  {
    DecimalIsWord(k);
    var c := Candidate(base, k);
    assert base <= c;
    if |base| < 4 {
      assert c[|base|] == '_';
    } else {
      assert base[..4] == c[..4];
    }
  }

  /** Variable names the theorems cover: none that the compiler may generate for itself. */
  ghost predicate UserName(reg: Registry, x: string) { PlainName(x) && !Reserved(reg, x) && !reg.external(x) }

  /** Not of the form of a reference to a node that a program may have. */
  predicate NamesNoNode(reg: Registry, s: string) { Refers(s) ==> reg.external(NodeOf(s)) }

  /** No text among the parameters could be a reference. */
  predicate PlainParams(reg: Registry, params: map<string, OptionValue>) {
    forall key :: key in params && params[key].Text? ==> NamesNoNode(reg, params[key].text)
  }

  predicate SlotFree(params: map<string, OptionValue>) {
    forall key :: key in params && params[key].Text? ==> !SlotText(params[key].text)
  }

  predicate NoSlots(o: OptionValue) { forall f :: f in FieldTexts(o) ==> !SlotText(f) }

  /**
   Validation, defaults and clamping write no references of their own, keep texts that refer to
   nothing as opaque values, and write no slots for a component that has no input a slot could
   stand for; a text literal has no inputs.
   */
  ghost predicate PlainConfig(reg: Registry, c: Component, kind: string, params: map<string, OptionValue>,
                              options: map<string, OptionValue>)
  {
    && (PlainParams(reg, params) ==>
          forall key :: key in options && !Verbatim(kind, key) ==> NamedIn(options[key]) == {})
    && (c.inputs == [] && SlotFree(params) ==> forall key :: key in options ==> NoSlots(options[key]))
    && (kind == "text" ==> c.inputs == [] && ("value" in options ==> options["value"].Text?))
  }

  /**
   The registry keeps clear of the compiler's own syntax: component names are words, built-in
   transforms have outputs, custom literals are no plain texts.
   */
  ghost predicate PlainRegistry(reg: Registry) {
    && (forall kind :: kind in reg.components ==> PlainName(kind))
    && (forall kind :: kind in BUILT_IN_KINDS ==> !IsSink(reg, kind))
    && (forall e :: reg.literalCall(e).Some? ==> !reg.literalCall(e).value.Text?)
    && (forall kind, params :: kind in reg.components && reg.configure(kind, params).Some? ==>
          PlainConfig(reg, reg.components[kind], kind, params, reg.configure(kind, params).value.options))
    && (forall x :: reg.external(x) ==> !Reserved(reg, x) && !SlotText(x))
  }

  /** What a program may write among the parameters of a call. */
  predicate PlainWords(reg: Registry, kind: string, params: map<string, OptionValue>) {
    PlainParams(reg, params) && (kind in reg.components && reg.components[kind].inputs == [] ==> SlotFree(params))
  }

  /** A text that refers to nothing is kept as an opaque value. */
  function Sealed(reg: Registry, kind: string, key: string, o: OptionValue): OptionValue {
    if !Verbatim(kind, key) && o.Text? && Refers(o.text) && reg.external(NodeOf(o.text)) then Other(o.text) else o
  }

  /** A schema that names nodes, or slots where there are none, and a text literal without a text. */
  predicate Unusable(c: Component, kind: string, key: string, o: OptionValue) {
    || (o.Schema? && (NamedIn(o) != {} || (c.inputs == [] && !NoSlots(o))))
    || (kind == "text" && key == "value" && !o.Text?)
  }

  function SealedAll(reg: Registry, kind: string, params: map<string, OptionValue>): map<string, OptionValue> {
    map key | key in params :: Sealed(reg, kind, key, params[key])
  }

  /** Options passed through otherwise unchanged are as plain as they were written. */
  lemma PassedThroughIsPlain(reg: Registry, c: Component, kind: string, params: map<string, OptionValue>)
    requires kind == "text" ==> c.inputs == []
    requires forall key :: key in params ==> !Unusable(c, kind, key, Sealed(reg, kind, key, params[key]))
    ensures PlainConfig(reg, c, kind, params, SealedAll(reg, kind, params))
  {
    hide Refers, SlotText;
    var options := SealedAll(reg, kind, params);
    forall key | key in options && !Verbatim(kind, key) && PlainParams(reg, params)
      ensures NamedIn(options[key]) == {}
    {
      assert !Unusable(c, kind, key, options[key]) && (params[key].Text? ==> NamesNoNode(reg, params[key].text));
      if options[key].Text? { assert FieldTexts(options[key]) == [options[key].text]; }
    }
    forall key | key in options && c.inputs == [] && SlotFree(params) ensures NoSlots(options[key]) {
      assert !Unusable(c, kind, key, options[key]);
    }
    if "value" in options { assert !Unusable(c, kind, "value", options["value"]); }
  }

  lemma BaseIsPlain(reg: Registry, base: string)
    requires PlainRegistry(reg) && IsBase(reg, base)
    ensures PlainName(base)
  {
    if base in BUILT_IN_BASES {
      BuiltInIsPlain(base);
    } else {
      hide BUILT_IN_KINDS, PlainConfig, IsSink, Reserved, PlainName;
    }
  }

  lemma BuiltInIsPlain(base: string)
    requires base in BUILT_IN_BASES
    ensures PlainName(base)
  {
    assert base != "" && base[0] != 'S';
  }

  // --------------------------------------------------------------------- fresh ids

  /** A finite set cannot contain |set| + 1 different candidates. */
  lemma {:induction false} CandidatesRunOut(used: set<Id>, base: string, k: nat)
    requires forall j :: 0 <= j < k ==> Candidate(base, j) in used
    ensures k <= |used|
  {
    if k > 0 {
      var last := Candidate(base, k - 1);
      forall j | 0 <= j < k - 1
        ensures Candidate(base, j) in used - {last}
      {
        if Candidate(base, j) == last { CandidateInjective(base, j, k - 1); }
      }
      CandidatesRunOut(used - {last}, base, k - 1);
    }
  }
}
