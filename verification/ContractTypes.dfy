/** The TypeScript types generated from the contract schemas, against what the checker accepts. */
module ContractTypes {
  import opened Prelude
  import opened ContractSchema
  import opened ContractMeaning

  datatype Ts =
    | TsString
    | TsNumber
    | TsBoolean
    | TsNull
    | TsUnknown
    | TsRecord
    | TsLiteral(value: Value)
    | TsUnion(parts: seq<Ts>)
    | TsArray(item: Ts)
    | TsObject(fields: seq<Field>)

  datatype Field = Field(key: string, optional: bool, typ: Ts)

  /**
   * The value has the type of the literal: booleans and numbers are different things, and an object
   * may have further members.
   */
  predicate OfLiteral(v: Value, l: Value)
    decreases l
  {
    match (v, l)
    case (Null, Null) => true
    case (Bool(x), Bool(y)) => x == y
    case (Num(_, x), Num(_, y)) => x == y
    case (Str(s), Str(t)) => s == t
    case (List(xs), List(ys)) => |xs| == |ys| && forall i :: 0 <= i < |ys| ==> OfLiteral(xs[i], ys[i])
    case (Dict(m), Dict(n)) => forall k :: k in n ==> k in m && OfLiteral(m[k], n[k])
    case _ => false
  }

  /** The value has the type; objects may have further members. */
  ghost predicate Inhabits(v: Value, t: Ts)
    decreases t
  {
    match t
    case TsString => v.Str?
    case TsNumber => v.Num?
    case TsBoolean => v.Bool?
    case TsNull => v.Null?
    case TsUnknown => true
    case TsRecord => v.Dict?
    case TsLiteral(l) => OfLiteral(v, l)
    case TsUnion(parts) => exists i :: 0 <= i < |parts| && Inhabits(v, parts[i])
    case TsArray(item) => v.List? && forall i :: 0 <= i < |v.items| ==> Inhabits(v.items[i], item)
    case TsObject(fields) =>
      v.Dict? && forall i :: 0 <= i < |fields| ==>
        if fields[i].key in v.entries then Inhabits(v.entries[fields[i].key], fields[i].typ) else fields[i].optional
  }

  // ---- the translation ----

  function LiteralTypes(literals: seq<Value>): (r: seq<Ts>)
    ensures |r| == |literals| && forall i :: 0 <= i < |r| ==> r[i] == TsLiteral(literals[i])
  {
    seq(|literals|, i requires 0 <= i < |literals| => TsLiteral(literals[i]))
  }

  /** The type of a schema, from its enum if there is one, else from its type. */
  function TypeOf(s: Schema): Ts
    decreases s, 2, 0
  {
    if s.literals.Some? then TsUnion(LiteralTypes(s.literals.value))
    else if s.typ.Some? then TypeAs(s, s.typ.value)
    else TsUnknown
  }

  /** The type of a schema without an enum, its "type" keyword replaced by `t`. */
  function TypeAs(s: Schema, t: TypeTerm): Ts
    decreases s, 1, t
  {
    match t
    case TypeList(terms) => TsUnion(seq(|terms|, i requires 0 <= i < |terms| => TypeAs(s, terms[i])))
    case OtherTerm => TsUnknown
    case TypeName(name) =>
      if name == "string" then TsString
      else if name == "integer" || name == "number" then TsNumber
      else if name == "boolean" then TsBoolean
      else if name == "null" then TsNull
      else if name == "array" then TsArray(if s.items.Some? then TypeOf(s.items.value) else TsUnknown)
      else if name == "object" then if s.properties.Table? then TsObject(FieldsOf(s)) else TsRecord
      else TsUnknown
  }

  function FieldsOf(s: Schema): (r: seq<Field>)
    requires s.properties.Table?
    ensures |r| == |s.properties.list|
    decreases s, 0, 0
  {
    seq(|s.properties.list|, i requires 0 <= i < |s.properties.list| =>
      Field(s.properties.list[i].key, s.properties.list[i].key !in s.required, TypeOf(s.properties.list[i].schema)))
  }

  /** The generator: members and union parts are appended one by one. */
  method TsTypeExpr(s: Schema) returns (t: Ts)
    ensures t == TypeOf(s)
    decreases s, 2, 0
  {
    if s.literals.Some? {
      return TsUnion(LiteralTypes(s.literals.value));
    }
    if s.typ == None {
      return TsUnknown;
    }
    t := TsTypeAs(s, s.typ.value);
  }

  method TsTypeAs(s: Schema, term: TypeTerm) returns (t: Ts)
    ensures t == TypeAs(s, term)
    decreases s, 1, term
  {
    match term {
      case OtherTerm => t := TsUnknown;
      case TypeList(terms) =>
        var parts := [];
        for i := 0 to |terms|
          invariant |parts| == i && forall j :: 0 <= j < i ==> parts[j] == TypeAs(s, terms[j])
        {
          var part := TsTypeAs(s, terms[i]);
          parts := parts + [part];
        }
        assert parts == TypeAs(s, term).parts;
        t := TsUnion(parts);
      case TypeName(name) =>
        if name == "array" && s.items.Some? {
          var item := TsTypeExpr(s.items.value);
          t := TsArray(item);
        } else if name == "object" && s.properties.Table? {
          t := TsObjectBody(s);
        } else {
          t := TypeAs(s, term);
        }
    }
  }

  method TsObjectBody(s: Schema) returns (t: Ts)
    requires s.properties.Table?
    ensures t == TsObject(FieldsOf(s))
    decreases s, 0, 0
  {
    var parts := [];
    for i := 0 to |s.properties.list|
      invariant |parts| == i && forall j :: 0 <= j < i ==> parts[j] == FieldsOf(s)[j]
    {
      var p := s.properties.list[i];
      var child := TsTypeExpr(p.schema);
      parts := parts + [Field(p.key, p.key !in s.required, child)];
    }
    assert parts == FieldsOf(s);
    t := TsObject(parts);
  }

  // ---- literal types ----

  /** No objects at any depth. */
  predicate NoDicts(l: Value) {
    match l
    case List(items) => forall i :: 0 <= i < |items| ==> NoDicts(items[i])
    case Dict(_) => false
    case _ => true
  }

  /** The value without the difference between integers and floats. */
  function Plain(v: Value): Value {
    match v
    case Num(_, x) => Num(true, x)
    case List(items) => List(seq(|items|, i requires 0 <= i < |items| => Plain(items[i])))
    case _ => v
  }

  /** A literal without objects has itself as its only value, up to the spelling of numbers. */
  lemma {:induction false} LiteralIsItself(v: Value, l: Value)
    requires NoDicts(l)
    ensures OfLiteral(v, l) <==> Plain(v) == Plain(l)
    decreases l
  {
    if v.List? && l.List? && |v.items| == |l.items| {
      forall i | 0 <= i < |l.items| ensures OfLiteral(v.items[i], l.items[i]) <==> Plain(v.items[i]) == Plain(l.items[i]) {
        LiteralIsItself(v.items[i], l.items[i]);
      }
      if Plain(v) == Plain(l) {
        forall i | 0 <= i < |l.items| ensures Plain(v.items[i]) == Plain(l.items[i]) {
          assert Plain(v).items[i] == Plain(l).items[i];
        }
      }
    }
    if v.List? && l.List? && |v.items| != |l.items| {
      assert |Plain(v).items| != |Plain(l).items|;
    }
  }

  /** Each field asks for the entry of the literal under its key, and there is one for each entry. */
  ghost predicate FieldsFor(fields: seq<Field>, entries: map<string, Value>) {
    (forall i :: 0 <= i < |fields| ==>
      fields[i].key in entries && !fields[i].optional && fields[i].typ == TsLiteral(entries[fields[i].key])) &&
    forall k :: k in entries ==> exists i :: 0 <= i < |fields| && fields[i].key == k
  }

  /** The entry under the key is there and has the type of the literal's. */
  predicate EntryLike(v: Value, l: Value, k: string)
    requires v.Dict? && l.Dict? && k in l.entries
  {
    k in v.entries && OfLiteral(v.entries[k], l.entries[k])
  }

  lemma FieldLike(v: Value, l: Value, f: Field)
    requires v.Dict? && l.Dict? && f.key in l.entries && !f.optional && f.typ == TsLiteral(l.entries[f.key])
    ensures (if f.key in v.entries then Inhabits(v.entries[f.key], f.typ) else f.optional) <==> EntryLike(v, l, f.key)
  {
  }

  lemma LiteralEntries(v: Value, l: Value)
    requires l.Dict?
    ensures OfLiteral(v, l) <==> v.Dict? && forall k :: k in l.entries ==> EntryLike(v, l, k)
  {
  }

  lemma ObjectEntries(v: Value, l: Value, fields: seq<Field>)
    requires v.Dict? && l.Dict? && FieldsFor(fields, l.entries)
    ensures Inhabits(v, TsObject(fields)) <==> forall k :: k in l.entries ==> EntryLike(v, l, k)
  {
    hide EntryLike, OfLiteral;
    forall i | 0 <= i < |fields|
      ensures (if fields[i].key in v.entries then Inhabits(v.entries[fields[i].key], fields[i].typ) else fields[i].optional)
        <==> EntryLike(v, l, fields[i].key)
    {
      FieldLike(v, l, fields[i]);
    }
  }

  /** An object literal has the values of the object type with its entries as fields. */
  lemma LiteralIsObject(v: Value, l: Value, fields: seq<Field>)
    requires l.Dict? && FieldsFor(fields, l.entries)
    ensures Inhabits(v, TsLiteral(l)) <==> Inhabits(v, TsObject(fields))
  {
    LiteralEntries(v, l);
    if v.Dict? { ObjectEntries(v, l, fields); }
  }

  // ---- enums ----

  predicate OfSome(v: Value, literals: seq<Value>) {
    exists i :: 0 <= i < |literals| && OfLiteral(v, literals[i])
  }

  function BoolVariants(x: real): set<Value> {
    if x == 1.0 then {Bool(true)} else if x == 0.0 then {Bool(false)} else {}
  }

  /** All values the checker takes for `l`: at every depth, booleans may stand for numbers and numbers for booleans. */
  ghost function Variants(l: Value): set<Value>
    decreases l, 1
  {
    match l
    case Bool(_) => {Num(true, NumberOf(l)), Num(false, NumberOf(l)), l}
    case Num(_, x) => {Num(true, x), Num(false, x)} + BoolVariants(x)
    case List(items) => set xs | xs in ListVariants(l, |items|) :: List(xs)
    case Dict(entries) => set m | m in DictVariants(l, entries.Keys) :: Dict(m)
    case _ => {l}
  }

  /** The variants of the first `n` items. */
  ghost function ListVariants(l: Value, n: nat): set<seq<Value>>
    requires l.List? && n <= |l.items|
    decreases l, 0, n
  {
    if n == 0 then {[]}
    else set xs, x | xs in ListVariants(l, n - 1) && x in Variants(l.items[n - 1]) :: xs + [x]
  }

  /** The variants of the entries under `keys`. */
  ghost function DictVariants(l: Value, keys: set<string>): set<map<string, Value>>
    requires l.Dict? && keys <= l.entries.Keys
    decreases l, 0, |keys|
  {
    if keys == {} then {map[]}
    else
      var k :| k in keys;
      set m, x | m in DictVariants(l, keys - {k}) && x in Variants(l.entries[k]) :: m[k := x]
  }

  predicate EqualItems(xs: seq<Value>, ys: seq<Value>) {
    |xs| == |ys| && forall i :: 0 <= i < |xs| ==> Equal(xs[i], ys[i])
  }

  predicate EqualEntries(m: map<string, Value>, n: map<string, Value>) {
    m.Keys == n.Keys && forall k :: k in m ==> Equal(m[k], n[k])
  }

  lemma {:induction false} ListVariantsExact(xs: seq<Value>, l: Value, n: nat)
    requires l.List? && n <= |l.items|
    ensures xs in ListVariants(l, n) <==> EqualItems(xs, l.items[..n])
    decreases l, 0, n
  {
    if n > 0 {
      var ys := l.items[..n];
      assert ys[..n - 1] == l.items[..n - 1];
      if xs in ListVariants(l, n) {
        var init, x :| init in ListVariants(l, n - 1) && x in Variants(l.items[n - 1]) && xs == init + [x];
        ListVariantsExact(init, l, n - 1);
        VariantsExact(x, l.items[n - 1]);
      }
      if EqualItems(xs, ys) {
        var init, x := xs[..n - 1], xs[n - 1];
        assert EqualItems(init, ys[..n - 1]);
        ListVariantsExact(init, l, n - 1);
        VariantsExact(x, l.items[n - 1]);
        assert xs == init + [x];
      }
    }
  }

  function Restricted(m: map<string, Value>, keys: set<string>): map<string, Value> {
    map k | k in keys && k in m :: m[k]
  }

  lemma EntryAdded(init: map<string, Value>, n: map<string, Value>, keys: set<string>, k: string, x: Value)
    requires k in keys && keys <= n.Keys && EqualEntries(init, Restricted(n, keys - {k})) && Equal(x, n[k])
    ensures EqualEntries(init[k := x], Restricted(n, keys))
  {
    hide Equal;
  }

  lemma EntryRemoved(m: map<string, Value>, n: map<string, Value>, keys: set<string>, k: string)
    requires k in keys && keys <= n.Keys && EqualEntries(m, Restricted(n, keys))
    ensures k in m && EqualEntries(m - {k}, Restricted(n, keys - {k})) && Equal(m[k], n[k]) && (m - {k})[k := m[k]] == m
  {
    hide Equal;
    assert k in Restricted(n, keys);
  }

  lemma {:induction false} DictVariantsExact(m: map<string, Value>, l: Value, keys: set<string>)
    requires l.Dict? && keys <= l.entries.Keys
    ensures m in DictVariants(l, keys) <==> EqualEntries(m, Restricted(l.entries, keys))
    decreases l, 0, |keys|
  {
    if keys == {} {
      assert Restricted(l.entries, keys) == map[];
    } else {
      hide Equal, EqualEntries, Restricted, Variants;
      var n := l.entries;
      var k :| k in keys && DictVariants(l, keys) ==
        set init, x | init in DictVariants(l, keys - {k}) && x in Variants(n[k]) :: init[k := x];
      if m in DictVariants(l, keys) {
        var init, x :| init in DictVariants(l, keys - {k}) && x in Variants(n[k]) && m == init[k := x];
        DictVariantsExact(init, l, keys - {k});
        VariantsExact(x, n[k]);
        EntryAdded(init, n, keys, k, x);
      }
      if EqualEntries(m, Restricted(n, keys)) {
        EntryRemoved(m, n, keys, k);
        DictVariantsExact(m - {k}, l, keys - {k});
        VariantsExact(m[k], n[k]);
      }
    }
  }

  /** The variants of a value are exactly the values the checker takes for it, and finitely many. */
  lemma {:induction false} VariantsExact(v: Value, l: Value)
    ensures v in Variants(l) <==> Equal(v, l)
    decreases l, 1
  {
    match l {
      case List(ys) =>
        if v.List? {
          ListVariantsExact(v.items, l, |ys|);
          assert ys[..|ys|] == ys;
        }
      case Dict(n) =>
        if v.Dict? {
          DictVariantsExact(v.entries, l, n.Keys);
          assert Restricted(n, n.Keys) == n;
        }
      case _ =>
    }
  }

  /** The schema's other keywords admit the value. */
  predicate Admits(s: Schema, v: Value) {
    ValidateNode(s.(literals := None), v, []).Accepted?
  }

  /** Every variant of a literal that the schema's other keywords admit has the type of some literal. */
  ghost predicate EnumFits(s: Schema, literals: seq<Value>) {
    forall i, v :: 0 <= i < |literals| && v in Variants(literals[i]) && Admits(s, v) ==> OfSome(v, literals)
  }

  /** What is accepted: the variants of the literals that the other keywords admit. */
  lemma EnumAccepts(s: Schema, literals: seq<Value>, v: Value)
    requires s.literals == Some(literals)
    ensures Satisfies(s, v) <==> Admits(s, v) && exists i :: 0 <= i < |literals| && v in Variants(literals[i])
  {
    ValidIff(s.(literals := None), v, []);
    forall i | 0 <= i < |literals| ensures v in Variants(literals[i]) <==> Equal(v, literals[i]) {
      VariantsExact(v, literals[i]);
    }
    assert PropertiesOf(s.(literals := None)) == PropertiesOf(s);
  }

  lemma LiteralInhabited(s: Schema, literals: seq<Value>, v: Value)
    requires s.literals == Some(literals)
    ensures Inhabits(v, TypeOf(s)) <==> OfSome(v, literals)
  {
    hide OfLiteral;
    var parts := TypeOf(s).parts;
    if OfSome(v, literals) {
      var i :| 0 <= i < |literals| && OfLiteral(v, literals[i]);
      assert Inhabits(v, parts[i]);
    }
    if Inhabits(v, TypeOf(s)) {
      var i :| 0 <= i < |parts| && Inhabits(v, parts[i]);
      assert OfLiteral(v, literals[i]);
    }
  }

  /** The generated type covers every payload that the checker accepts. */
  ghost predicate TypeCovers(s: Schema) {
    forall v :: ValidateNode(s, v, []).Accepted? ==> Inhabits(v, TypeOf(s))
  }

  lemma EnumSound(s: Schema, literals: seq<Value>, v: Value)
    requires s.literals == Some(literals) && EnumFits(s, literals) && Satisfies(s, v)
    ensures Inhabits(v, TypeOf(s))
  {
    EnumAccepts(s, literals, v);
    LiteralInhabited(s, literals, v);
  }

  /** A variant that is admitted but has the type of no literal is accepted without having the generated type. */
  lemma VariantSlipsThrough(s: Schema, literals: seq<Value>) returns (v: Value)
    requires s.literals == Some(literals) && !EnumFits(s, literals)
    ensures Satisfies(s, v) && !Inhabits(v, TypeOf(s))
  {
    var i, w :| 0 <= i < |literals| && w in Variants(literals[i]) && Admits(s, w) && !OfSome(w, literals);
    v := w;
    EnumAccepts(s, literals, v);
    LiteralInhabited(s, literals, v);
  }

  /** For every enum, the generated type covers every accepted value exactly when the enum fits. */
  lemma EnumSoundIff(s: Schema, literals: seq<Value>)
    requires s.literals == Some(literals)
    ensures TypeCovers(s) <==> EnumFits(s, literals)
  {
    if EnumFits(s, literals) {
      forall v | ValidateNode(s, v, []).Accepted? ensures Inhabits(v, TypeOf(s)) {
        ValidIff(s, v, []);
        EnumSound(s, literals, v);
      }
    } else {
      var v := VariantSlipsThrough(s, literals);
      ValidIff(s, v, []);
    }
  }

  // ---- where the types promise too much ----

  const PLAIN := Schema(None, None, None, [], NoTable, false, None)

  /** The checker takes true for the literal 1; the generated type does not. */
  lemma EnumMixup(s: Schema)
    requires s == PLAIN.(literals := Some([Num(true, 1.0)]))
    ensures ValidateNode(s, Bool(true), []).Accepted? && !Inhabits(Bool(true), TypeOf(s))
  {
    assert Equal(Bool(true), s.literals.value[0]);
  }
}
