/** For which schemas the generated type covers every payload that the checker accepts. */
module ContractSoundness {
  import opened Prelude
  import opened ContractSchema
  import opened ContractMeaning
  import opened ContractTypes

  // ---- the names in a type ----

  predicate HasName(t: TypeTerm, name: string) {
    match t
    case TypeName(n) => n == name
    case TypeList(terms) => exists i :: 0 <= i < |terms| && HasName(terms[i], name)
    case OtherTerm => false
  }

  /** Some term, at any depth, admits every value. */
  predicate HasFree(t: TypeTerm) {
    match t
    case TypeName(n) => !KnownName(n)
    case TypeList(terms) => exists i :: 0 <= i < |terms| && HasFree(terms[i])
    case OtherTerm => true
  }

  /** The name stands where it can govern a value: alone or directly in the list. */
  predicate OnTop(t: TypeTerm, name: string) {
    t == TypeName(name) || (t.TypeList? && TypeName(name) in t.terms)
  }

  /** Some name in the type is the kind of the value. */
  predicate KindNamed(t: TypeTerm, v: Value) {
    match v
    case Null => HasName(t, "null")
    case Bool(_) => HasName(t, "boolean")
    case Num(isInt, _) => HasName(t, "number") || (isInt && HasName(t, "integer"))
    case Str(_) => HasName(t, "string")
    case List(_) => HasName(t, "array")
    case Dict(_) => HasName(t, "object")
  }

  /** A type matches a value through a term that admits everything, or through the name of its kind. */
  lemma {:induction false} MatchIff(t: TypeTerm, v: Value)
    ensures MatchesType(t, v) <==> HasFree(t) || KindNamed(t, v)
  {
    if t.TypeList? {
      forall i | 0 <= i < |t.terms|
        ensures MatchesType(t.terms[i], v) <==> HasFree(t.terms[i]) || KindNamed(t.terms[i], v)
      {
        MatchIff(t.terms[i], v);
      }
      KindOfList(t, v);
    }
  }

  lemma KindOfList(t: TypeTerm, v: Value)
    requires t.TypeList?
    ensures KindNamed(t, v) <==> exists i :: 0 <= i < |t.terms| && KindNamed(t.terms[i], v)
  {
  }

  /** The type of the value's kind contains it. */
  ghost predicate KindInhabited(s: Schema, v: Value) {
    match v
    case List(_) => Inhabits(v, TypeAs(s, TypeName("array")))
    case Dict(_) => Inhabits(v, TypeAs(s, TypeName("object")))
    case _ => true
  }

  lemma NameInhabited(s: Schema, name: string, v: Value)
    ensures Inhabits(v, TypeAs(s, TypeName(name))) <==>
      !KnownName(name) || (KindTyped(TypeName(name), v) && KindInhabited(s, v))
  {
  }

  /** As in the generated code, where every number fits the type of integers. */
  predicate KindTyped(t: TypeTerm, v: Value) {
    KindNamed(t, v) || (v.Num? && HasName(t, "integer"))
  }

  lemma KindTypedOfList(t: TypeTerm, v: Value)
    requires t.TypeList?
    ensures KindTyped(t, v) <==> exists i :: 0 <= i < |t.terms| && KindTyped(t.terms[i], v)
  {
  }

  lemma {:induction false} InhabitIff(s: Schema, t: TypeTerm, v: Value)
    ensures Inhabits(v, TypeAs(s, t)) <==> HasFree(t) || (KindTyped(t, v) && KindInhabited(s, v))
    decreases t
  {
    hide KindInhabited, KindTyped;
    match t {
      case TypeName(name) => NameInhabited(s, name, v);
      case OtherTerm =>
      case TypeList(terms) =>
        var parts := TypeAs(s, t).parts;
        forall i | 0 <= i < |terms|
          ensures Inhabits(v, parts[i]) <==> HasFree(terms[i]) || (KindTyped(terms[i], v) && KindInhabited(s, v))
        {
          InhabitIff(s, terms[i], v);
        }
        KindTypedOfList(t, v);
    }
  }

  /** Without such terms, a value is governed by the name of its kind exactly if the name is on top. */
  lemma GovernedIff(t: TypeTerm, name: string, v: Value)
    requires !HasFree(t) && ((name == "object" && v.Dict?) || (name == "array" && v.List?))
    ensures Governs(Some(t), name, v) <==> OnTop(t, name)
  {
    if t.TypeList? {
      PrimaryTypeGoverns(Some(t), v, name);
      LeadsIsFirst(t.terms, name, v);
      forall i | 0 <= i < |t.terms| && t.terms[i].TypeName? ensures KnownName(t.terms[i].name) {
        assert !HasFree(t.terms[i]);
      }
      KnownLeads(t.terms, name);
    }
  }

  // ---- which schemas accept something, and which types contain everything ----

  /** Some payload satisfies the schema. */
  ghost predicate Satisfiable(s: Schema)
    decreases s, 1
  {
    if s.literals.Some? then
      exists i, v :: 0 <= i < |s.literals.value| && v in Variants(s.literals.value[i]) && Admits(s, v)
    else s.typ == None || SatisfiableAs(s, s.typ.value)
  }

  /** Only a minimum above one, for booleans, and the properties of governed objects can rule everything out. */
  ghost predicate SatisfiableAs(s: Schema, t: TypeTerm)
    decreases s, 0, 1
  {
    HasFree(t) || HasName(t, "null") || HasName(t, "string") || HasName(t, "integer") || HasName(t, "number") ||
    HasName(t, "array") ||
    (HasName(t, "boolean") && (s.minimum.Some? ==> s.minimum.value <= 1.0)) ||
    (HasName(t, "object") && (OnTop(t, "object") ==> RequiredSatisfiable(s)))
  }

  /** Every required key may occur, and some value is accepted for it. */
  ghost predicate RequiredSatisfiable(s: Schema)
    decreases s, 0, 0
  {
    forall i :: 0 <= i < |s.required| ==>
      (s.required[i] !in KeysOf(PropertiesOf(s)) ==> !s.closed) &&
      (s.properties.Table? ==>
        forall j :: 0 <= j < |s.properties.list| && s.properties.list[j].key == s.required[i] ==>
          Satisfiable(s.properties.list[j].schema))
  }

  /** Every value has the generated type. */
  predicate AdmitsAll(s: Schema)
    decreases s, 1
  {
    s.literals == None && (s.typ.Some? ==> HasFree(s.typ.value) || AdmitsKinds(s, s.typ.value))
  }

  /** All six kinds are named, and neither items nor properties narrow them. */
  predicate AdmitsKinds(s: Schema, t: TypeTerm)
    decreases s, 0
  {
    HasName(t, "null") && HasName(t, "boolean") && HasName(t, "string") &&
    (HasName(t, "number") || HasName(t, "integer")) && HasName(t, "array") && HasName(t, "object") &&
    (s.items.Some? ==> AdmitsAll(s.items.value)) &&
    (s.properties.Table? ==>
      forall i :: 0 <= i < |s.properties.list| ==>
        s.properties.list[i].key !in s.required && AdmitsAll(s.properties.list[i].schema))
  }

  // ---- the condition ----

  /**
   * The generated type promises more than the checker checks: a variant of an enum literal has no
   * literal's type; or objects or arrays are accepted whose parts lack the types that are promised.
   * The parts are checked only where the name of the kind stands on top of the type.
   */
  ghost predicate Overpromises(s: Schema)
    decreases s, 1
  {
    if s.literals.Some? then !EnumFits(s, s.literals.value)
    else
      s.typ.Some? && !HasFree(s.typ.value) &&
      (ObjectsOverpromised(s, s.typ.value) || ArraysOverpromised(s, s.typ.value))
  }

  ghost predicate ObjectsOverpromised(s: Schema, t: TypeTerm)
    decreases s, 0
  {
    HasName(t, "object") && s.properties.Table? &&
    if OnTop(t, "object") then
      RequiredSatisfiable(s) &&
      exists i :: 0 <= i < |s.properties.list| && Overpromises(s.properties.list[i].schema)
    else
      exists i :: 0 <= i < |s.properties.list| &&
        (s.properties.list[i].key in s.required || !AdmitsAll(s.properties.list[i].schema))
  }

  ghost predicate ArraysOverpromised(s: Schema, t: TypeTerm)
    decreases s, 0
  {
    HasName(t, "array") && s.items.Some? &&
    if OnTop(t, "array") then Overpromises(s.items.value) else !AdmitsAll(s.items.value)
  }

  // ---- objects and arrays of the generated type ----

  /** The entry under the key of a property has the generated type of the property. */
  ghost predicate FieldFits(s: Schema, i: nat, entries: map<string, Value>)
    requires s.properties.Table? && i < |s.properties.list|
  {
    var p := s.properties.list[i];
    if p.key in entries then Inhabits(entries[p.key], TypeOf(p.schema)) else p.key !in s.required
  }

  lemma ObjectInhabited(s: Schema, v: Value)
    requires v.Dict?
    ensures Inhabits(v, TypeAs(s, TypeName("object"))) <==>
      (s.properties.Table? ==> forall i :: 0 <= i < |s.properties.list| ==> FieldFits(s, i, v.entries))
  {
    var t := TypeAs(s, TypeName("object"));
    if s.properties.Table? {
      var fields := FieldsOf(s);
      assert t == TsObject(fields);
      forall i | 0 <= i < |fields|
        ensures FieldFits(s, i, v.entries) <==>
          if fields[i].key in v.entries then Inhabits(v.entries[fields[i].key], fields[i].typ) else fields[i].optional
      {
        assert fields[i].key == s.properties.list[i].key;
      }
    }
  }

  lemma ArrayInhabited(s: Schema, v: Value)
    requires v.List?
    ensures Inhabits(v, TypeAs(s, TypeName("array"))) <==>
      (s.items.Some? ==> forall i :: 0 <= i < |v.items| ==> Inhabits(v.items[i], TypeOf(s.items.value)))
  {
    var t := TypeAs(s, TypeName("array"));
    assert t == TsArray(if s.items.Some? then TypeOf(s.items.value) else TsUnknown);
  }

  // ---- types of everything ----

  lemma {:induction false} AllInhabit(s: Schema, v: Value)
    requires AdmitsAll(s)
    ensures Inhabits(v, TypeOf(s))
    decreases s
  {
    hide Inhabits, KindInhabited;
    if s.typ.Some? {
      InhabitIff(s, s.typ.value, v);
      if !HasFree(s.typ.value) { AllOfKind(s, s.typ.value, v); }
    } else {
      UnknownInhabited(v);
    }
  }

  lemma UnknownInhabited(v: Value)
    ensures Inhabits(v, TsUnknown)
  {
  }

  lemma {:induction false} AllOfKind(s: Schema, t: TypeTerm, v: Value)
    requires AdmitsKinds(s, t)
    ensures KindInhabited(s, v)
    decreases s, 0
  {
    if v.Dict? {
      if s.properties.Table? {
        forall i | 0 <= i < |s.properties.list| ensures FieldFits(s, i, v.entries) {
          var p := s.properties.list[i];
          if p.key in v.entries { AllInhabit(p.schema, v.entries[p.key]); }
        }
      }
      ObjectInhabited(s, v);
    } else if v.List? {
      if s.items.Some? {
        forall i | 0 <= i < |v.items| ensures Inhabits(v.items[i], TypeOf(s.items.value)) {
          AllInhabit(s.items.value, v.items[i]);
        }
      }
      ArrayInhabited(s, v);
    }
  }

  // ---- soundness ----

  /** What is accepted shows that its schema can be satisfied. */
  lemma {:induction false} AcceptedSatisfies(s: Schema, v: Value)
    requires Satisfies(s, v)
    ensures Satisfiable(s)
    decreases s, 1
  {
    if s.literals.Some? {
      EnumAccepts(s, s.literals.value, v);
    } else if s.typ.Some? {
      MatchIff(s.typ.value, v);
      if v.Dict? && !HasFree(s.typ.value) && OnTop(s.typ.value, "object") {
        GovernedIff(s.typ.value, "object", v);
        AcceptedRequired(s, v.entries);
      }
    }
  }

  lemma {:induction false} AcceptedRequired(s: Schema, entries: map<string, Value>)
    requires ObjectSatisfied(s, entries)
    ensures RequiredSatisfiable(s)
    decreases s, 0
  {
    if s.properties.Table? {
      forall i, j | 0 <= i < |s.required| && 0 <= j < |s.properties.list| && s.properties.list[j].key == s.required[i]
        ensures Satisfiable(s.properties.list[j].schema)
      {
        assert PropertiesOf(s)[j] == s.properties.list[j];
        AcceptedSatisfies(s.properties.list[j].schema, entries[s.required[i]]);
      }
    }
  }

  lemma {:induction false} ObjectCovered(s: Schema, t: TypeTerm, v: Value)
    requires s.literals == None && s.typ == Some(t) && !HasFree(t) && !ObjectsOverpromised(s, t)
    requires v.Dict? && Satisfies(s, v)
    ensures KindInhabited(s, v)
    decreases s, 0
  {
    MatchIff(t, v);
    if s.properties.Table? {
      GovernedIff(t, "object", v);
      if OnTop(t, "object") { AcceptedRequired(s, v.entries); }
      forall i | 0 <= i < |s.properties.list| ensures FieldFits(s, i, v.entries) {
        var p := s.properties.list[i];
        assert PropertiesOf(s)[i] == p;
        if p.key in v.entries {
          if OnTop(t, "object") { Sound(p.schema, v.entries[p.key]); } else { AllInhabit(p.schema, v.entries[p.key]); }
        }
      }
    }
    ObjectInhabited(s, v);
  }

  lemma {:induction false} ArrayCovered(s: Schema, t: TypeTerm, v: Value)
    requires s.literals == None && s.typ == Some(t) && !HasFree(t) && !ArraysOverpromised(s, t)
    requires v.List? && Satisfies(s, v)
    ensures KindInhabited(s, v)
    decreases s, 0
  {
    MatchIff(t, v);
    if s.items.Some? {
      GovernedIff(t, "array", v);
      forall i | 0 <= i < |v.items| ensures Inhabits(v.items[i], TypeOf(s.items.value)) {
        if OnTop(t, "array") { Sound(s.items.value, v.items[i]); } else { AllInhabit(s.items.value, v.items[i]); }
      }
    }
    ArrayInhabited(s, v);
  }

  /** Every payload that satisfies a schema which does not overpromise has the generated type. */
  lemma {:induction false} Sound(s: Schema, v: Value)
    requires !Overpromises(s) && Satisfies(s, v)
    ensures Inhabits(v, TypeOf(s))
    decreases s, 2
  {
    hide Inhabits, KindInhabited, Governs;
    if s.literals.Some? {
      EnumSound(s, s.literals.value, v);
    } else if s.typ.Some? {
      var t := s.typ.value;
      MatchIff(t, v);
      InhabitIff(s, t, v);
      if !HasFree(t) { KindCovered(s, t, v); }
    } else {
      UnknownInhabited(v);
    }
  }

  lemma {:induction false} KindCovered(s: Schema, t: TypeTerm, v: Value)
    requires s.literals == None && s.typ == Some(t) && !HasFree(t) && Satisfies(s, v)
    requires !ObjectsOverpromised(s, t) && !ArraysOverpromised(s, t)
    ensures KindInhabited(s, v)
    decreases s, 1
  {
    if v.Dict? { ObjectCovered(s, t, v); } else if v.List? { ArrayCovered(s, t, v); }
  }

  /** Said of the checker itself. */
  lemma AcceptedPayloadHasType(s: Schema, v: Value)
    requires !Overpromises(s) && ValidateNode(s, v, []).Accepted?
    ensures Inhabits(v, TypeOf(s))
  {
    ValidIff(s, v, []);
    Sound(s, v);
  }

  // ---- payloads that show the converse ----

  /** As in a JSON object, no key occurs twice among the properties. */
  predicate WellFormed(s: Schema)
    decreases s
  {
    (s.items.Some? ==> WellFormed(s.items.value)) &&
    (s.properties.Table? ==>
      (forall i, j :: 0 <= i < j < |s.properties.list| ==> s.properties.list[i].key != s.properties.list[j].key) &&
      forall i :: 0 <= i < |s.properties.list| ==> WellFormed(s.properties.list[i].schema))
  }

  lemma {:induction false} FreshString(literals: seq<Value>) returns (v: Value)
    ensures v.Str? && !OfSome(v, literals)
  {
    var n := LongestString(literals);
    v := Str(seq(n + 1, i => 'a'));
    forall i | 0 <= i < |literals| ensures !OfLiteral(v, literals[i]) {
      if literals[i].Str? { assert |literals[i].s| <= n; }
    }
  }

  lemma {:induction false} LongestString(literals: seq<Value>) returns (n: nat)
    ensures forall i :: 0 <= i < |literals| && literals[i].Str? ==> |literals[i].s| <= n
  {
    if literals == [] {
      n := 0;
    } else {
      var init, last := literals[..|literals| - 1], literals[|literals| - 1];
      n := LongestString(init);
      assert forall i :: 0 <= i < |init| ==> literals[i] == init[i];
      if last.Str? && |last.s| > n { n := |last.s|; }
    }
  }

  /** A value outside the generated type. */
  lemma {:induction false} Outsider(s: Schema) returns (v: Value)
    requires !AdmitsAll(s)
    ensures !Inhabits(v, TypeOf(s))
    decreases s, 1
  {
    hide Inhabits, KindInhabited;
    if s.literals.Some? {
      v := FreshString(s.literals.value);
      LiteralInhabited(s, s.literals.value, v);
    } else {
      var t := s.typ.value;
      v := KindOutsider(s, t);
      InhabitIff(s, t, v);
    }
  }

  lemma {:induction false} KindOutsider(s: Schema, t: TypeTerm) returns (v: Value)
    requires !AdmitsKinds(s, t)
    ensures !KindTyped(t, v) || !KindInhabited(s, v)
    decreases s, 0
  {
    if !HasName(t, "null") { v := Null; }
    else if !HasName(t, "boolean") { v := Bool(true); }
    else if !HasName(t, "string") { v := Str(""); }
    else if !HasName(t, "number") && !HasName(t, "integer") { v := Num(true, 0.0); }
    else if !HasName(t, "array") { v := List([]); }
    else if !HasName(t, "object") { v := Dict(map[]); }
    else if s.items.Some? && !AdmitsAll(s.items.value) {
      v := ArrayOutsider(s);
    } else {
      var i :| 0 <= i < |s.properties.list| &&
        (s.properties.list[i].key in s.required || !AdmitsAll(s.properties.list[i].schema));
      v := ObjectOutsider(s, i);
    }
  }

  lemma {:induction false} ArrayOutsider(s: Schema) returns (v: Value)
    requires s.items.Some? && !AdmitsAll(s.items.value)
    ensures v.List? && !KindInhabited(s, v)
    decreases s, 0, 0
  {
    var w := Outsider(s.items.value);
    v := List([w]);
    assert v.items[0] == w;
    ArrayInhabited(s, v);
  }

  lemma {:induction false} ObjectOutsider(s: Schema, i: nat) returns (v: Value)
    requires s.properties.Table? && i < |s.properties.list|
    requires s.properties.list[i].key in s.required || !AdmitsAll(s.properties.list[i].schema)
    ensures v.Dict? && !KindInhabited(s, v)
    decreases s, 0, 0
  {
    var p := s.properties.list[i];
    if p.key in s.required {
      v := Dict(map[]);
    } else {
      var w := Outsider(p.schema);
      v := Dict(map[p.key := w]);
    }
    assert !FieldFits(s, i, v.entries);
    ObjectInhabited(s, v);
  }

  /** A payload that satisfies the schema. */
  lemma {:induction false} Example(s: Schema) returns (v: Value)
    requires WellFormed(s) && Satisfiable(s)
    ensures Satisfies(s, v)
    decreases s, 1
  {
    if s.literals.Some? {
      var i, w :| 0 <= i < |s.literals.value| && w in Variants(s.literals.value[i]) && Admits(s, w);
      v := w;
      EnumAccepts(s, s.literals.value, v);
    } else if s.typ == None {
      v := Null;
    } else {
      v := KindExample(s, s.typ.value);
    }
  }

  lemma {:induction false} KindExample(s: Schema, t: TypeTerm) returns (v: Value)
    requires WellFormed(s) && SatisfiableAs(s, t) && s.typ == Some(t) && s.literals == None
    ensures Satisfies(s, v)
    decreases s, 0, 2
  {
    if HasFree(t) || HasName(t, "null") { v := Null; }
    else if HasName(t, "string") { v := Str(""); }
    else if HasName(t, "integer") || HasName(t, "number") {
      v := Num(true, if s.minimum.Some? then (s.minimum.value.Floor + 1) as real else 0.0);
    } else if HasName(t, "array") { v := List([]); }
    else if HasName(t, "boolean") && (s.minimum.Some? ==> s.minimum.value <= 1.0) { v := Bool(true); }
    else if OnTop(t, "object") {
      var entries := Filled(s, |s.required|);
      v := Dict(entries);
      assert ObjectSatisfied(s, entries);
    } else {
      v := Dict(map[]);
      GovernedIff(t, "object", v);
    }
    MatchIff(t, v);
  }

  /** The first `n` required keys have accepted values, and every entry may occur. */
  ghost predicate FilledUpTo(s: Schema, n: nat, entries: map<string, Value>)
    requires n <= |s.required|
  {
    (forall i :: 0 <= i < n ==> s.required[i] in entries) &&
    (s.closed ==> forall k :: k in entries ==> k in KeysOf(PropertiesOf(s))) &&
    PropertiesSatisfied(s, 0, entries)
  }

  lemma FilledOneMore(s: Schema, n: nat, entries: map<string, Value>, v: Value)
    requires n < |s.required| && FilledUpTo(s, n, entries)
    requires s.required[n] !in KeysOf(PropertiesOf(s)) ==> !s.closed
    requires forall i :: 0 <= i < |PropertiesOf(s)| && PropertiesOf(s)[i].key == s.required[n] ==>
      Satisfies(PropertiesOf(s)[i].schema, v)
    ensures FilledUpTo(s, n + 1, entries[s.required[n] := v])
  {
  }

  lemma {:induction false} Filled(s: Schema, n: nat) returns (entries: map<string, Value>)
    requires WellFormed(s) && RequiredSatisfiable(s) && n <= |s.required|
    ensures FilledUpTo(s, n, entries)
    decreases s, 0, 1, n
  {
    if n == 0 {
      entries := map[];
    } else {
      entries := Filled(s, n - 1);
      var v := ValueFor(s, s.required[n - 1]);
      FilledOneMore(s, n - 1, entries, v);
      entries := entries[s.required[n - 1] := v];
    }
  }

  /** A value that is accepted under a required key. */
  lemma {:induction false} ValueFor(s: Schema, key: string) returns (v: Value)
    requires WellFormed(s) && RequiredSatisfiable(s) && key in s.required
    ensures forall i :: 0 <= i < |PropertiesOf(s)| && PropertiesOf(s)[i].key == key ==>
      Satisfies(PropertiesOf(s)[i].schema, v)
    decreases s, 0, 0
  {
    var r :| 0 <= r < |s.required| && s.required[r] == key;
    v := Null;
    if i :| 0 <= i < |PropertiesOf(s)| && PropertiesOf(s)[i].key == key {
      assert PropertiesOf(s) == s.properties.list;
      v := Example(s.properties.list[i].schema);
    }
  }

  /** A payload that satisfies a schema which overpromises, outside its generated type. */
  lemma {:induction false} Counterexample(s: Schema) returns (v: Value)
    requires WellFormed(s) && Overpromises(s)
    ensures Satisfies(s, v) && !Inhabits(v, TypeOf(s))
    decreases s, 1
  {
    hide Inhabits, KindInhabited;
    if s.literals.Some? {
      v := VariantSlipsThrough(s, s.literals.value);
    } else {
      var t := s.typ.value;
      if ObjectsOverpromised(s, t) {
        v := ObjectCounterexample(s, t);
      } else {
        v := ArrayCounterexample(s, t);
      }
      InhabitIff(s, t, v);
    }
  }

  lemma {:induction false} ArrayCounterexample(s: Schema, t: TypeTerm) returns (v: Value)
    requires WellFormed(s) && s.literals == None && s.typ == Some(t) && !HasFree(t) && ArraysOverpromised(s, t)
    ensures v.List? && Satisfies(s, v) && !KindInhabited(s, v)
    decreases s, 0
  {
    var w: Value;
    if OnTop(t, "array") { w := Counterexample(s.items.value); } else { w := Outsider(s.items.value); }
    v := List([w]);
    assert v.items[0] == w;
    GovernedIff(t, "array", v);
    MatchIff(t, v);
    ArrayInhabited(s, v);
  }

  lemma {:induction false} ObjectCounterexample(s: Schema, t: TypeTerm) returns (v: Value)
    requires WellFormed(s) && s.literals == None && s.typ == Some(t) && !HasFree(t) && ObjectsOverpromised(s, t)
    ensures v.Dict? && Satisfies(s, v) && !KindInhabited(s, v)
    decreases s, 0, 1
  {
    hide KindInhabited, ObjectSatisfied, RequiredSatisfiable;
    if OnTop(t, "object") {
      var i :| 0 <= i < |s.properties.list| && Overpromises(s.properties.list[i].schema);
      v := PropertyCounterexample(s, i);
      ObjectAccepted(s, t, v);
    } else {
      var i :| 0 <= i < |s.properties.list| &&
        (s.properties.list[i].key in s.required || !AdmitsAll(s.properties.list[i].schema));
      v := ObjectOutsider(s, i);
      ObjectAccepted(s, t, v);
    }
  }

  /** An object is accepted if its parts are, or if the name that would make the checker look at them is not on top. */
  lemma ObjectAccepted(s: Schema, t: TypeTerm, v: Value)
    requires s.literals == None && s.typ == Some(t) && !HasFree(t) && HasName(t, "object") && v.Dict?
    requires OnTop(t, "object") ==> ObjectSatisfied(s, v.entries)
    ensures Satisfies(s, v)
  {
    GovernedIff(t, "object", v);
    MatchIff(t, v);
  }

  lemma {:induction false} PropertyCounterexample(s: Schema, i: nat) returns (v: Value)
    requires WellFormed(s) && RequiredSatisfiable(s) && s.properties.Table? && i < |s.properties.list|
    requires Overpromises(s.properties.list[i].schema)
    ensures v.Dict? && ObjectSatisfied(s, v.entries) && !KindInhabited(s, v)
    decreases s, 0, 0
  {
    var w := Counterexample(s.properties.list[i].schema);
    var entries := Filled(s, |s.required|);
    v := Dict(entries[s.properties.list[i].key := w]);
    FilledWith(s, i, entries, w);
    assert !FieldFits(s, i, v.entries);
    ObjectInhabited(s, v);
  }

  /** Another accepted value may stand under the key of a property. */
  lemma FilledWith(s: Schema, i: nat, entries: map<string, Value>, w: Value)
    requires WellFormed(s) && s.properties.Table? && i < |s.properties.list|
    requires FilledUpTo(s, |s.required|, entries) && Satisfies(s.properties.list[i].schema, w)
    ensures ObjectSatisfied(s, entries[s.properties.list[i].key := w])
  {
    var list, all := PropertiesOf(s), entries[s.properties.list[i].key := w];
    assert list == s.properties.list;
    forall j | 0 <= j < |list| && list[j].key in all ensures Satisfies(list[j].schema, all[list[j].key]) {
      if list[j].key == list[i].key { assert j == i; }
    }
  }

  /** The generated type covers every accepted payload exactly when the schema does not overpromise. */
  lemma SoundIff(s: Schema)
    requires WellFormed(s)
    ensures TypeCovers(s) <==> !Overpromises(s)
  {
    if Overpromises(s) {
      var v := Counterexample(s);
      ValidIff(s, v, []);
    } else {
      forall v | ValidateNode(s, v, []).Accepted? ensures Inhabits(v, TypeOf(s)) {
        AcceptedPayloadHasType(s, v);
      }
    }
  }

  // ---- an example ----

  /** A name inside a nested type list never governs, so the checker skips what the type demands. */
  lemma NestedListMixup(s: Schema)
    requires s == PLAIN.(typ := Some(TypeList([TypeList([TypeName("object")])])), required := ["a"],
      properties := Table([Property("a", PLAIN)]))
    ensures ValidateNode(s, Dict(map[]), []).Accepted? && !Inhabits(Dict(map[]), TypeOf(s))
  {
    var v := Dict(map[]);
    var inner := TypeList([TypeName("object")]);
    assert MatchesType(inner, v) by {
      assert MatchesType(inner.terms[0], v);
    }
    assert MatchesType(s.typ.value.terms[0], v);
    assert FieldsOf(s)[0].key == "a" && s.required[0] == "a";
    assert TypeAs(s, TypeName("object")) == TsObject(FieldsOf(s));
    assert !Inhabits(v, TypeAs(s, inner.terms[0]));
    assert !Inhabits(v, TypeAs(s, inner));
  }
}
