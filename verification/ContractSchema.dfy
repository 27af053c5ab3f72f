/** The local contract checker: which JSON payloads it accepts for a schema. */
module ContractSchema {
  import opened Prelude

  /** A decoded JSON value; integers and floats are told apart, as the program's decoder does. */
  datatype Value =
    | Null
    | Bool(b: bool)
    | Num(isInt: bool, value: real)
    | Str(s: string)
    | List(items: seq<Value>)
    | Dict(entries: map<string, Value>)

  /** The "type" keyword: a name, a list of further terms, or any other JSON value. */
  datatype TypeTerm = TypeName(name: string) | TypeList(terms: seq<TypeTerm>) | OtherTerm

  datatype Property = Property(key: string, schema: Schema)

  datatype PropertyTable = NoTable | Table(list: seq<Property>)

  datatype Schema = Schema(
    typ: Option<TypeTerm>,
    literals: Option<seq<Value>>,
    minimum: Option<real>,
    required: seq<string>,
    properties: PropertyTable,
    closed: bool,
    items: Option<Schema>)

  datatype Step = Key(key: string) | Index(index: nat)

  datatype Fault =
    | WrongType(path: seq<Step>)
    | NotInEnum(path: seq<Step>)
    | BelowMinimum(path: seq<Step>)
    | NotAnObject(path: seq<Step>)
    | NotAnArray(path: seq<Step>)
    | MissingProperty(path: seq<Step>, key: string)
    | UnexpectedProperties(path: seq<Step>, keys: set<string>)

  datatype Verdict = Accepted | Rejected(fault: Fault)

  // ---- equality as the checker's language has it ----

  /** Booleans count as numbers. */
  predicate Numeric(v: Value) {
    v.Bool? || v.Num?
  }

  function NumberOf(v: Value): real
    requires Numeric(v)
  {
    match v
    case Bool(b) => if b then 1.0 else 0.0
    case Num(_, value) => value
  }

  /** Equality of the checker: true equals 1 and false equals 0, at every depth. */
  predicate Equal(a: Value, b: Value)
    decreases a
  {
    if Numeric(a) && Numeric(b) then NumberOf(a) == NumberOf(b)
    else
      match (a, b)
      case (Null, Null) => true
      case (Str(s), Str(t)) => s == t
      case (List(xs), List(ys)) => |xs| == |ys| && forall i :: 0 <= i < |xs| ==> Equal(xs[i], ys[i])
      case (Dict(m), Dict(n)) => m.Keys == n.Keys && forall k :: k in m ==> Equal(m[k], n[k])
      case _ => false
  }

  predicate InLiterals(v: Value, literals: seq<Value>) {
    exists i :: 0 <= i < |literals| && Equal(v, literals[i])
  }

  // ---- types ----

  predicate KnownName(name: string) {
    name == "null" || name == "object" || name == "array" || name == "string" || name == "integer" ||
    name == "number" || name == "boolean"
  }

  predicate MatchesName(name: string, v: Value) {
    if name == "null" then v.Null?
    else if name == "object" then v.Dict?
    else if name == "array" then v.List?
    else if name == "string" then v.Str?
    else if name == "integer" then v.Num? && v.isInt
    else if name == "number" then v.Num?
    else if name == "boolean" then v.Bool?
    else true
  }

  predicate MatchesType(t: TypeTerm, v: Value)
    decreases t
  {
    match t
    case TypeName(name) => MatchesName(name, v)
    case TypeList(terms) => exists i :: 0 <= i < |terms| && MatchesType(terms[i], v)
    case OtherTerm => true
  }

  /** The first name of a list that the value matches. */
  function FirstName(terms: seq<TypeTerm>, v: Value): Option<string> {
    if terms == [] then None
    else if terms[0].TypeName? && MatchesType(terms[0], v) then Some(terms[0].name)
    else FirstName(terms[1..], v)
  }

  function PrimaryType(t: Option<TypeTerm>, v: Value): Option<string> {
    match t
    case None => None
    case Some(TypeList(terms)) => FirstName(terms, v)
    case Some(TypeName(name)) => if MatchesName(name, v) then Some(name) else None
    case Some(OtherTerm) => None
  }

  // ---- the checker ----

  function ValidateNode(s: Schema, v: Value, path: seq<Step>): Verdict
    decreases s, 2, 0
  {
    if s.typ.Some? && !MatchesType(s.typ.value, v) then Rejected(WrongType(path))
    else if s.literals.Some? && !InLiterals(v, s.literals.value) then Rejected(NotInEnum(path))
    else if v.Null? then Accepted
    else if Numeric(v) && s.minimum.Some? && NumberOf(v) < s.minimum.value then Rejected(BelowMinimum(path))
    else if PrimaryType(s.typ, v) == Some("object") then ValidateObject(s, v, path)
    else if PrimaryType(s.typ, v) == Some("array") then ValidateArray(s, v, path)
    else Accepted
  }

  /** The first required key that is missing. */
  function FirstMissing(required: seq<string>, entries: map<string, Value>): Option<string> {
    if required == [] then None
    else if required[0] !in entries then Some(required[0])
    else FirstMissing(required[1..], entries)
  }

  function PropertiesOf(s: Schema): (r: seq<Property>) {
    if s.properties.Table? then s.properties.list else []
  }

  function KeysOf(properties: seq<Property>): set<string> {
    set i | 0 <= i < |properties| :: properties[i].key
  }

  function ValidateObject(s: Schema, v: Value, path: seq<Step>): Verdict
    decreases s, 1, 0
  {
    if !v.Dict? then Rejected(NotAnObject(path))
    else
      var missing := FirstMissing(s.required, v.entries);
      if missing.Some? then Rejected(MissingProperty(path, missing.value))
      else
        var unexpected := v.entries.Keys - KeysOf(PropertiesOf(s));
        if s.closed && unexpected != {} then Rejected(UnexpectedProperties(path, unexpected))
        else ValidateProperties(s, 0, v.entries, path)
  }

  /** The properties from number `i` on. */
  function ValidateProperties(s: Schema, i: nat, entries: map<string, Value>, path: seq<Step>): Verdict
    requires i <= |PropertiesOf(s)|
    decreases s, 0, |PropertiesOf(s)| - i
  {
    if i == |PropertiesOf(s)| then Accepted
    else
      assert PropertiesOf(s) == s.properties.list;
      var p := PropertiesOf(s)[i];
      var verdict := if p.key in entries then ValidateNode(p.schema, entries[p.key], path + [Key(p.key)]) else Accepted;
      if verdict.Rejected? then verdict else ValidateProperties(s, i + 1, entries, path)
  }

  function ValidateArray(s: Schema, v: Value, path: seq<Step>): Verdict
    decreases s, 1, 0
  {
    if !v.List? then Rejected(NotAnArray(path))
    else if s.items == None then Accepted
    else ValidateItems(s.items.value, v.items, 0, path)
  }

  /** The items from number `i` on. */
  function ValidateItems(s: Schema, items: seq<Value>, i: nat, path: seq<Step>): Verdict
    requires i <= |items|
    decreases s, 3, |items| - i
  {
    if i == |items| then Accepted
    else
      var verdict := ValidateNode(s, items[i], path + [Index(i)]);
      if verdict.Rejected? then verdict else ValidateItems(s, items, i + 1, path)
  }

  // ---- what a schema means ----

  /** A name governs a value when the value matches it and no earlier name of the list. */
  ghost predicate Governs(t: Option<TypeTerm>, name: string, v: Value) {
    MatchesName(name, v) &&
    match t
    case Some(TypeName(only)) => only == name
    case Some(TypeList(terms)) => exists i :: 0 <= i < |terms| && LeadsAt(terms, i, name, v)
    case _ => false
  }

  ghost predicate LeadsAt(terms: seq<TypeTerm>, i: nat, name: string, v: Value)
    requires i < |terms|
  {
    terms[i] == TypeName(name) &&
    forall j :: 0 <= j < i && terms[j].TypeName? ==> !MatchesName(terms[j].name, v)
  }

  /** The meaning of a schema, keyword by keyword, without any order of checks. */
  ghost predicate Satisfies(s: Schema, v: Value)
    decreases s
  {
    (s.typ.Some? ==> MatchesType(s.typ.value, v)) &&
    (s.literals.Some? ==> InLiterals(v, s.literals.value)) &&
    (Numeric(v) && s.minimum.Some? ==> NumberOf(v) >= s.minimum.value) &&
    (v.Dict? && Governs(s.typ, "object", v) ==>
      (forall i :: 0 <= i < |s.required| ==> s.required[i] in v.entries) &&
      (s.closed ==> forall k :: k in v.entries ==> k in KeysOf(PropertiesOf(s))) &&
      forall i :: 0 <= i < |PropertiesOf(s)| && PropertiesOf(s)[i].key in v.entries ==>
        Satisfies(PropertiesOf(s)[i].schema, v.entries[PropertiesOf(s)[i].key])) &&
    (v.List? && Governs(s.typ, "array", v) && s.items.Some? ==>
      forall i :: 0 <= i < |v.items| ==> Satisfies(s.items.value, v.items[i]))
  }
}
