/** The checker accepts exactly what satisfies the schema, and when the order of a type list matters. */
module ContractMeaning {
  import opened Prelude
  import opened ContractSchema

  lemma {:induction false} FirstNameGoverns(terms: seq<TypeTerm>, v: Value, name: string)
    ensures FirstName(terms, v) == Some(name) <==>
      MatchesName(name, v) && exists i :: 0 <= i < |terms| && LeadsAt(terms, i, name, v)
  {
    if terms != [] {
      var rest := terms[1..];
      FirstNameGoverns(rest, v, name);
      if terms[0].TypeName? && MatchesType(terms[0], v) {
        if terms[0].name == name { assert LeadsAt(terms, 0, name, v); }
      } else {
        if MatchesName(name, v) && exists i :: 0 <= i < |rest| && LeadsAt(rest, i, name, v) {
          var i :| 0 <= i < |rest| && LeadsAt(rest, i, name, v);
          forall j | 0 <= j < i + 1 && terms[j].TypeName? ensures !MatchesName(terms[j].name, v) {
            if j > 0 { assert terms[j] == rest[j - 1]; }
          }
          assert LeadsAt(terms, i + 1, name, v);
        }
        if MatchesName(name, v) && exists i :: 0 <= i < |terms| && LeadsAt(terms, i, name, v) {
          var i :| 0 <= i < |terms| && LeadsAt(terms, i, name, v);
          forall j | 0 <= j < i - 1 && rest[j].TypeName? ensures !MatchesName(rest[j].name, v) {
            assert rest[j] == terms[j + 1];
          }
          assert rest[i - 1] == terms[i];
          assert LeadsAt(rest, i - 1, name, v);
        }
      }
    }
  }

  /** The type that decides how a value is checked further is the one that governs it. */
  lemma PrimaryTypeGoverns(t: Option<TypeTerm>, v: Value, name: string)
    ensures PrimaryType(t, v) == Some(name) <==> Governs(t, name, v)
  {
    if t.Some? && t.value.TypeList? { FirstNameGoverns(t.value.terms, v, name); }
  }

  lemma {:induction false} FirstMissingNone(required: seq<string>, entries: map<string, Value>)
    ensures FirstMissing(required, entries) == None <==> forall i :: 0 <= i < |required| ==> required[i] in entries
  {
    if required != [] {
      FirstMissingNone(required[1..], entries);
      assert forall i :: 0 <= i < |required| - 1 ==> required[1..][i] == required[i + 1];
      if required[0] in entries && FirstMissing(required[1..], entries) == None {
        forall i | 0 <= i < |required| ensures required[i] in entries {
          if i > 0 { assert required[1..][i - 1] in entries; }
        }
      }
    }
  }

  ghost predicate PropertiesSatisfied(s: Schema, from: nat, entries: map<string, Value>) {
    forall i :: from <= i < |PropertiesOf(s)| && PropertiesOf(s)[i].key in entries ==>
      Satisfies(PropertiesOf(s)[i].schema, entries[PropertiesOf(s)[i].key])
  }

  lemma {:induction false} ItemsIff(s: Schema, items: seq<Value>, i: nat, path: seq<Step>)
    requires i <= |items|
    ensures ValidateItems(s, items, i, path).Accepted? <==> forall j :: i <= j < |items| ==> Satisfies(s, items[j])
    decreases s, 3, |items| - i
  {
    if i < |items| {
      ValidIff(s, items[i], path + [Index(i)]);
      ItemsIff(s, items, i + 1, path);
    }
  }

  lemma {:induction false} PropertiesIff(s: Schema, i: nat, entries: map<string, Value>, path: seq<Step>)
    requires i <= |PropertiesOf(s)|
    ensures ValidateProperties(s, i, entries, path).Accepted? <==> PropertiesSatisfied(s, i, entries)
    decreases s, 0, |PropertiesOf(s)| - i
  {
    if i < |PropertiesOf(s)| {
      assert PropertiesOf(s) == s.properties.list;
      var p := PropertiesOf(s)[i];
      if p.key in entries { ValidIff(p.schema, entries[p.key], path + [Key(p.key)]); }
      PropertiesIff(s, i + 1, entries, path);
    }
  }

  lemma NothingUnexpected(s: Schema, entries: map<string, Value>)
    ensures entries.Keys - KeysOf(PropertiesOf(s)) == {} <==> forall k :: k in entries ==> k in KeysOf(PropertiesOf(s))
  {
    if entries.Keys - KeysOf(PropertiesOf(s)) == {} {
      forall k | k in entries ensures k in KeysOf(PropertiesOf(s)) {
        assert k !in entries.Keys - KeysOf(PropertiesOf(s));
      }
    }
  }

  ghost predicate ObjectSatisfied(s: Schema, entries: map<string, Value>) {
    (forall i :: 0 <= i < |s.required| ==> s.required[i] in entries) &&
    (s.closed ==> forall k :: k in entries ==> k in KeysOf(PropertiesOf(s))) &&
    PropertiesSatisfied(s, 0, entries)
  }

  lemma {:induction false} ObjectIff(s: Schema, v: Value, path: seq<Step>)
    requires v.Dict?
    ensures ValidateObject(s, v, path).Accepted? <==> ObjectSatisfied(s, v.entries)
    decreases s, 1, 0
  {
    FirstMissingNone(s.required, v.entries);
    NothingUnexpected(s, v.entries);
    PropertiesIff(s, 0, v.entries, path);
  }

  lemma {:induction false} ArrayIff(s: Schema, v: Value, path: seq<Step>)
    requires v.List?
    ensures ValidateArray(s, v, path).Accepted? <==>
      (s.items.Some? ==> forall i :: 0 <= i < |v.items| ==> Satisfies(s.items.value, v.items[i]))
    decreases s, 1, 0
  {
    if s.items.Some? { ItemsIff(s.items.value, v.items, 0, path); }
  }

  /** The checker accepts a payload exactly when the payload satisfies the schema. */
  lemma {:induction false} ValidIff(s: Schema, v: Value, path: seq<Step>)
    ensures ValidateNode(s, v, path).Accepted? <==> Satisfies(s, v)
    decreases s, 2, 0
  {
    PrimaryTypeGoverns(s.typ, v, "object");
    PrimaryTypeGoverns(s.typ, v, "array");
    if v.Dict? {
      ObjectIff(s, v, path);
    } else if v.List? {
      ArrayIff(s, v, path);
    }
  }

  // ---- the order of a type list ----

  predicate OneOf(t: TypeTerm, name: string) {
    t.TypeName? && (t.name == name || !KnownName(t.name))
  }

  /** The name stands in the list before every name the checker does not know. */
  predicate Leads(terms: seq<TypeTerm>, name: string) {
    if terms == [] then false
    else if OneOf(terms[0], name) then terms[0].name == name
    else Leads(terms[1..], name)
  }

  /** Objects and arrays are led by the same kind of name in both lists. */
  predicate SameLead(ts: seq<TypeTerm>, us: seq<TypeTerm>) {
    Leads(ts, "object") == Leads(us, "object") && Leads(ts, "array") == Leads(us, "array")
  }

  lemma {:induction false} LeadsIsFirst(terms: seq<TypeTerm>, name: string, v: Value)
    requires (name == "object" && v.Dict?) || (name == "array" && v.List?)
    ensures FirstName(terms, v) == Some(name) <==> Leads(terms, name)
  {
    if terms != [] { LeadsIsFirst(terms[1..], name, v); }
  }

  function WithTypes(s: Schema, terms: seq<TypeTerm>): Schema {
    s.(typ := Some(TypeList(terms)))
  }

  lemma MatchesReordered(ts: seq<TypeTerm>, us: seq<TypeTerm>, v: Value)
    requires multiset(ts) == multiset(us) && MatchesType(TypeList(ts), v)
    ensures MatchesType(TypeList(us), v)
  {
    var i :| 0 <= i < |ts| && MatchesType(ts[i], v);
    SameMembers(ts, us, ts[i]);
    var j :| 0 <= j < |us| && us[j] == ts[i];
    assert MatchesType(us[j], v);
  }

  lemma GovernedAlike(ts: seq<TypeTerm>, us: seq<TypeTerm>, name: string, v: Value)
    requires SameLead(ts, us) && ((name == "object" && v.Dict?) || (name == "array" && v.List?))
    ensures Governs(Some(TypeList(ts)), name, v) <==> Governs(Some(TypeList(us)), name, v)
  {
    PrimaryTypeGoverns(Some(TypeList(ts)), v, name);
    PrimaryTypeGoverns(Some(TypeList(us)), v, name);
    LeadsIsFirst(ts, name, v);
    LeadsIsFirst(us, name, v);
  }

  lemma ReorderedAccepts(s: Schema, ts: seq<TypeTerm>, us: seq<TypeTerm>, v: Value)
    requires multiset(ts) == multiset(us) && SameLead(ts, us) && Satisfies(WithTypes(s, ts), v)
    ensures Satisfies(WithTypes(s, us), v)
  {
    MatchesReordered(ts, us, v);
    if v.Dict? { GovernedAlike(ts, us, "object", v); }
    if v.List? { GovernedAlike(ts, us, "array", v); }
    assert PropertiesOf(WithTypes(s, ts)) == PropertiesOf(WithTypes(s, us));
  }

  /** Accepts no object without the key "a" and no array with an item in it, once these are governed. */
  const STRICT := Schema(None, None, None, ["a"], NoTable, false, Some(Schema(Some(TypeName("null")), None, None, [], NoTable, false, None)))

  lemma StrictTellsApart(ts: seq<TypeTerm>, us: seq<TypeTerm>, name: string, v: Value)
    requires (name == "object" && v == Dict(map[])) || (name == "array" && v == List([Bool(true)]))
    requires MatchesType(TypeList(us), v) && Leads(ts, name) && !Leads(us, name)
    ensures !Satisfies(WithTypes(STRICT, ts), v) && Satisfies(WithTypes(STRICT, us), v)
  {
    PrimaryTypeGoverns(Some(TypeList(ts)), v, name);
    PrimaryTypeGoverns(Some(TypeList(us)), v, name);
    LeadsIsFirst(ts, name, v);
    LeadsIsFirst(us, name, v);
    assert STRICT.required[0] == "a";
    if v.List? { assert v.items[0] == Bool(true); }
  }

  lemma {:induction false} LeaderIsMember(terms: seq<TypeTerm>, name: string)
    requires Leads(terms, name)
    ensures TypeName(name) in terms
  {
    if !OneOf(terms[0], name) { LeaderIsMember(terms[1..], name); }
  }

  lemma LeaderMatches(ts: seq<TypeTerm>, us: seq<TypeTerm>, name: string, v: Value)
    requires multiset(ts) == multiset(us) && Leads(ts, name) && MatchesName(name, v)
    ensures MatchesType(TypeList(us), v)
  {
    LeaderIsMember(ts, name);
    SameMembers(ts, us, TypeName(name));
    var j :| 0 <= j < |us| && us[j] == TypeName(name);
    assert MatchesType(us[j], v);
  }

  /** Two orders with different leaders accept different payloads for some schema. */
  lemma DifferentLeadDiffers(ts: seq<TypeTerm>, us: seq<TypeTerm>, name: string) returns (v: Value)
    requires multiset(ts) == multiset(us) && (name == "object" || name == "array") && Leads(ts, name) && !Leads(us, name)
    ensures Satisfies(WithTypes(STRICT, ts), v) != Satisfies(WithTypes(STRICT, us), v)
  {
    v := if name == "object" then Dict(map[]) else List([Bool(true)]);
    LeaderMatches(ts, us, name, v);
    StrictTellsApart(ts, us, name, v);
  }

  ghost predicate OrderIrrelevant(ts: seq<TypeTerm>, us: seq<TypeTerm>) {
    forall s, v :: Satisfies(WithTypes(s, ts), v) == Satisfies(WithTypes(s, us), v)
  }

  /** Reordering a type list never changes what is accepted exactly when "object" and "array" keep their lead. */
  lemma ReorderIff(ts: seq<TypeTerm>, us: seq<TypeTerm>)
    requires multiset(ts) == multiset(us)
    ensures OrderIrrelevant(ts, us) <==> SameLead(ts, us)
  {
    if SameLead(ts, us) {
      forall s, v ensures Satisfies(WithTypes(s, ts), v) == Satisfies(WithTypes(s, us), v) {
        if Satisfies(WithTypes(s, ts), v) { ReorderedAccepts(s, ts, us, v); }
        if Satisfies(WithTypes(s, us), v) { ReorderedAccepts(s, us, ts, v); }
      }
    } else {
      var name := if Leads(ts, "object") != Leads(us, "object") then "object" else "array";
      var v: Value;
      if Leads(ts, name) { v := DifferentLeadDiffers(ts, us, name); } else { v := DifferentLeadDiffers(us, ts, name); }
      assert Satisfies(WithTypes(STRICT, ts), v) != Satisfies(WithTypes(STRICT, us), v);
    }
  }

  predicate AllNamesKnown(terms: seq<TypeTerm>) {
    forall i :: 0 <= i < |terms| && terms[i].TypeName? ==> KnownName(terms[i].name)
  }

  lemma {:induction false} KnownLeads(terms: seq<TypeTerm>, name: string)
    requires AllNamesKnown(terms)
    ensures Leads(terms, name) <==> TypeName(name) in terms
  {
    if terms != [] {
      assert forall i :: 0 <= i < |terms| - 1 ==> terms[1..][i] == terms[i + 1];
      assert KnownNameAt(terms, 0);
      KnownLeads(terms[1..], name);
      assert terms == [terms[0]] + terms[1..];
    }
  }

  predicate KnownNameAt(terms: seq<TypeTerm>, i: nat)
    requires i < |terms|
  {
    terms[i].TypeName? ==> KnownName(terms[i].name)
  }

  /** With known names only, the order of a type list never matters. */
  lemma KnownNamesReorder(ts: seq<TypeTerm>, us: seq<TypeTerm>)
    requires multiset(ts) == multiset(us) && AllNamesKnown(ts)
    ensures OrderIrrelevant(ts, us)
  {
    forall i | 0 <= i < |us| && us[i].TypeName? ensures KnownName(us[i].name) {
      SameMembers(us, ts, us[i]);
    }
    KnownLeads(ts, "object");
    KnownLeads(us, "object");
    KnownLeads(ts, "array");
    KnownLeads(us, "array");
    LeadersAlike(ts, us, "object");
    LeadersAlike(ts, us, "array");
    ReorderIff(ts, us);
  }

  lemma LeadersAlike(ts: seq<TypeTerm>, us: seq<TypeTerm>, name: string)
    requires multiset(ts) == multiset(us)
    ensures TypeName(name) in ts <==> TypeName(name) in us
  {
    if TypeName(name) in ts { SameMembers(ts, us, TypeName(name)); }
    if TypeName(name) in us { SameMembers(us, ts, TypeName(name)); }
  }

  /** An unknown name in the list makes the order matter: in front of "object" it switches the object checks off. */
  lemma UnknownNameMatters(known: TypeTerm, unknown: TypeTerm)
    requires known == TypeName("object") && unknown == TypeName("file")
    ensures multiset([known, unknown]) == multiset([unknown, known]) && !OrderIrrelevant([known, unknown], [unknown, known])
  {
    assert Leads([known, unknown], "object") && !Leads([unknown, known], "object");
    assert multiset([known, unknown]) == multiset{known, unknown} == multiset([unknown, known]);
    ReorderIff([known, unknown], [unknown, known]);
  }
}
