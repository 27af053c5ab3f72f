/** Which fault the checker reports, and where: the first one in its order of keywords and of parts. */
module ContractFaults {
  import opened Prelude
  import opened ContractSchema
  import opened ContractMeaning

  ghost predicate ObjectAt(s: Schema, v: Value) {
    v.Dict? && Governs(s.typ, "object", v)
  }

  ghost predicate ArrayAt(s: Schema, v: Value) {
    v.List? && Governs(s.typ, "array", v)
  }

  predicate Declared(s: Schema, key: string) {
    exists i :: 0 <= i < |PropertiesOf(s)| && PropertiesOf(s)[i].key == key
  }

  /** The `i`-th required key is missing and no earlier one is. */
  predicate FirstGap(required: seq<string>, entries: map<string, Value>, i: nat) {
    i < |required| && required[i] !in entries && forall j :: 0 <= j < i ==> required[j] in entries
  }

  /** The keyword that the fault names is violated by the value itself, not by a part of it. */
  ghost predicate Violated(s: Schema, v: Value, f: Fault) {
    match f
    case WrongType(_) => s.typ.Some? && !MatchesType(s.typ.value, v)
    case NotInEnum(_) => s.literals.Some? && !InLiterals(v, s.literals.value)
    case BelowMinimum(_) => Numeric(v) && s.minimum.Some? && NumberOf(v) < s.minimum.value
    case NotAnObject(_) => false
    case NotAnArray(_) => false
    case MissingProperty(_, key) =>
      ObjectAt(s, v) && exists i: nat :: FirstGap(s.required, v.entries, i) && s.required[i] == key
    case UnexpectedProperties(_, keys) =>
      ObjectAt(s, v) && s.closed && keys != {} && forall k :: k in keys <==> k in v.entries && !Declared(s, k)
  }

  /** Types come before enums, enums before minimums, then missing and unexpected properties. */
  function Rank(f: Fault): nat {
    match f
    case WrongType(_) => 0
    case NotInEnum(_) => 1
    case BelowMinimum(_) => 2
    case MissingProperty(_, _) => 3
    case UnexpectedProperties(_, _) => 4
    case _ => 5
  }

  ghost predicate NoneBelow(s: Schema, v: Value, rank: nat) {
    forall g :: Violated(s, v, g) ==> rank <= Rank(g)
  }

  /** The properties before the `i`-th are satisfied where they are present. */
  ghost predicate EarlierSatisfied(s: Schema, entries: map<string, Value>, i: nat)
    requires i <= |PropertiesOf(s)|
  {
    forall j :: 0 <= j < i && PropertiesOf(s)[j].key in entries ==>
      Satisfies(PropertiesOf(s)[j].schema, entries[PropertiesOf(s)[j].key])
  }

  ghost predicate EarlierItemsSatisfied(s: Schema, items: seq<Value>, i: nat)
    requires i <= |items|
  {
    forall j :: 0 <= j < i ==> Satisfies(s, items[j])
  }

  /** Along `steps`, nothing is wrong on the way or in earlier parts, and the fault is the first at their end. */
  ghost predicate Reports(s: Schema, v: Value, steps: seq<Step>, f: Fault)
    decreases |steps|
  {
    if steps == [] then Violated(s, v, f) && NoneBelow(s, v, Rank(f))
    else
      NoneBelow(s, v, 5) &&
      match steps[0]
      case Key(k) =>
        ObjectAt(s, v) && k in v.entries &&
        exists i :: 0 <= i < |PropertiesOf(s)| && PropertiesOf(s)[i].key == k && EarlierSatisfied(s, v.entries, i) &&
          Reports(PropertiesOf(s)[i].schema, v.entries[k], steps[1..], f)
      case Index(i) =>
        ArrayAt(s, v) && s.items.Some? && i < |v.items| && EarlierItemsSatisfied(s.items.value, v.items, i) &&
        Reports(s.items.value, v.items[i], steps[1..], f)
  }

  // ---- faults of the value itself ----

  lemma {:induction false} GapIsFirst(required: seq<string>, entries: map<string, Value>, i: nat)
    requires FirstGap(required, entries, i)
    ensures FirstMissing(required, entries) == Some(required[i])
    decreases i
  {
    if i > 0 {
      assert required[0] in entries;
      forall j | 0 <= j < i - 1 ensures required[1..][j] in entries {
        assert required[j + 1] in entries;
      }
      GapIsFirst(required[1..], entries, i - 1);
    }
  }

  lemma {:induction false} MissingIsGap(required: seq<string>, entries: map<string, Value>) returns (i: nat)
    requires FirstMissing(required, entries).Some?
    ensures FirstGap(required, entries, i) && FirstMissing(required, entries) == Some(required[i])
  {
    i := 0;
    if required[0] in entries {
      i := MissingIsGap(required[1..], entries);
      i := i + 1;
      forall j | 0 <= j < i ensures required[j] in entries {
        if j > 0 { assert required[1..][j - 1] in entries; }
      }
    }
  }

  /** A required key is missing exactly when the fault says so. */
  lemma MissingIff(s: Schema, v: Value, path: seq<Step>, key: string)
    requires ObjectAt(s, v)
    ensures Violated(s, v, MissingProperty(path, key)) <==> FirstMissing(s.required, v.entries) == Some(key)
  {
    if FirstMissing(s.required, v.entries) == Some(key) {
      var i := MissingIsGap(s.required, v.entries);
    }
    forall i: nat | FirstGap(s.required, v.entries, i) ensures FirstMissing(s.required, v.entries) == Some(s.required[i]) {
      GapIsFirst(s.required, v.entries, i);
    }
  }

  lemma DeclaredKeys(s: Schema, k: string)
    ensures Declared(s, k) <==> k in KeysOf(PropertiesOf(s))
  {
  }

  lemma UnexpectedIff(s: Schema, v: Value, path: seq<Step>, keys: set<string>)
    requires ObjectAt(s, v)
    ensures Violated(s, v, UnexpectedProperties(path, keys)) <==>
      s.closed && keys != {} && keys == v.entries.Keys - KeysOf(PropertiesOf(s))
  {
    hide Declared, KeysOf;
    forall k ensures Declared(s, k) <==> k in KeysOf(PropertiesOf(s)) {
      DeclaredKeys(s, k);
    }
  }

  /** What the checker finds at the value itself, before it looks at the parts. */
  function OwnVerdict(s: Schema, v: Value, path: seq<Step>): Verdict {
    if s.typ.Some? && !MatchesType(s.typ.value, v) then Rejected(WrongType(path))
    else if s.literals.Some? && !InLiterals(v, s.literals.value) then Rejected(NotInEnum(path))
    else if Numeric(v) && s.minimum.Some? && NumberOf(v) < s.minimum.value then Rejected(BelowMinimum(path))
    else if v.Dict? && PrimaryType(s.typ, v) == Some("object") then
      var missing := FirstMissing(s.required, v.entries);
      var unexpected := v.entries.Keys - KeysOf(PropertiesOf(s));
      if missing.Some? then Rejected(MissingProperty(path, missing.value))
      else if s.closed && unexpected != {} then Rejected(UnexpectedProperties(path, unexpected))
      else Accepted
    else Accepted
  }

  /** The own fault is the one of least rank. */
  lemma OwnRejected(s: Schema, v: Value, path: seq<Step>)
    requires OwnVerdict(s, v, path).Rejected?
    ensures var f := OwnVerdict(s, v, path).fault;
      f.path == path && Violated(s, v, f) && NoneBelow(s, v, Rank(f))
  {
    hide MatchesType, InLiterals, FirstMissing, PrimaryType, Governs, KeysOf, Declared;
    var f := OwnVerdict(s, v, path).fault;
    PrimaryTypeGoverns(s.typ, v, "object");
    if ObjectAt(s, v) {
      if f.MissingProperty? { MissingIff(s, v, path, f.key); }
      if f.UnexpectedProperties? { UnexpectedIff(s, v, path, f.keys); }
    }
    forall g | Violated(s, v, g) ensures Rank(f) <= Rank(g) {
      if g.MissingProperty? { MissingIff(s, v, g.path, g.key); }
    }
  }

  lemma NotViolated(s: Schema, v: Value, path: seq<Step>, g: Fault)
    requires OwnVerdict(s, v, path).Accepted?
    ensures !Violated(s, v, g)
  {
    hide MatchesType, InLiterals, FirstMissing, PrimaryType, Governs, KeysOf, Declared;
    PrimaryTypeGoverns(s.typ, v, "object");
    if ObjectAt(s, v) {
      if g.MissingProperty? { MissingIff(s, v, g.path, g.key); }
      if g.UnexpectedProperties? { UnexpectedIff(s, v, g.path, g.keys); }
    }
  }

  lemma OwnAccepted(s: Schema, v: Value, path: seq<Step>)
    requires OwnVerdict(s, v, path).Accepted?
    ensures NoneBelow(s, v, 5)
  {
    hide Violated, OwnVerdict;
    forall g ensures Violated(s, v, g) ==> 5 <= Rank(g) {
      NotViolated(s, v, path, g);
    }
  }

  lemma NothingViolated(s: Schema, v: Value, path: seq<Step>)
    requires NoneBelow(s, v, 5)
    ensures OwnVerdict(s, v, path).Accepted?
  {
    hide Violated, NoneBelow, OwnVerdict;
    if OwnVerdict(s, v, path).Rejected? {
      OwnRejected(s, v, path);
      LowRank(s, v, OwnVerdict(s, v, path).fault);
    }
  }

  lemma LowRank(s: Schema, v: Value, f: Fault)
    requires Violated(s, v, f)
    ensures !NoneBelow(s, v, 5)
  {
    assert Rank(f) < 5;
  }

  /** Two own faults of least rank differ in their path only. */
  lemma LeastIsOwn(s: Schema, v: Value, f: Fault)
    requires Violated(s, v, f) && NoneBelow(s, v, Rank(f))
    ensures OwnVerdict(s, v, f.path) == Rejected(f)
  {
    hide MatchesType, InLiterals, FirstMissing, PrimaryType, Governs, KeysOf, Declared;
    LowRank(s, v, f);
    if OwnVerdict(s, v, f.path).Accepted? {
      OwnAccepted(s, v, f.path);
    } else {
      OwnRejected(s, v, f.path);
      SameRank(s, v, f, OwnVerdict(s, v, f.path).fault);
    }
  }

  lemma SameRank(s: Schema, v: Value, f: Fault, g: Fault)
    requires Violated(s, v, f) && Violated(s, v, g) && f.path == g.path
    requires NoneBelow(s, v, Rank(f)) && NoneBelow(s, v, Rank(g))
    ensures f == g
  {
    hide MatchesType, InLiterals, FirstMissing, Governs, KeysOf, Declared;
    assert Rank(f) == Rank(g);
    if f.MissingProperty? {
      MissingIff(s, v, f.path, f.key);
      MissingIff(s, v, g.path, g.key);
    }
    if f.UnexpectedProperties? {
      UnexpectedIff(s, v, f.path, f.keys);
      UnexpectedIff(s, v, g.path, g.keys);
    }
  }

  // ---- the checker in terms of the own faults ----

  /** What the checker finds in the parts. */
  ghost function PartsVerdict(s: Schema, v: Value, path: seq<Step>): Verdict {
    if ObjectAt(s, v) then ValidateProperties(s, 0, v.entries, path)
    else if ArrayAt(s, v) && s.items.Some? then ValidateItems(s.items.value, v.items, 0, path)
    else Accepted
  }

  lemma ChecksOwnFirst(s: Schema, v: Value, path: seq<Step>)
    ensures OwnVerdict(s, v, path).Rejected? ==> ValidateNode(s, v, path) == OwnVerdict(s, v, path)
    ensures OwnVerdict(s, v, path).Accepted? ==> ValidateNode(s, v, path) == PartsVerdict(s, v, path)
  {
    hide MatchesType, InLiterals, FirstMissing, Governs, KeysOf, ValidateProperties, ValidateItems, PrimaryType;
    PrimaryTypeGoverns(s.typ, v, "object");
    PrimaryTypeGoverns(s.typ, v, "array");
    GoverningMatches(s.typ, v);
  }

  lemma GoverningMatches(t: Option<TypeTerm>, v: Value)
    ensures Governs(t, "object", v) ==> v.Dict?
    ensures Governs(t, "array", v) ==> v.List?
  {
  }

  /** Satisfied properties are passed over. */
  lemma {:induction false} PassProperties(s: Schema, j: nat, i: nat, entries: map<string, Value>, path: seq<Step>)
    requires j <= i <= |PropertiesOf(s)| && EarlierSatisfied(s, entries, i)
    ensures ValidateProperties(s, j, entries, path) == ValidateProperties(s, i, entries, path)
    decreases i - j
  {
    if j < i {
      var p := PropertiesOf(s)[j];
      if p.key in entries { ValidIff(p.schema, entries[p.key], path + [Key(p.key)]); }
      PassProperties(s, j + 1, i, entries, path);
    }
  }

  lemma {:induction false} PassItems(s: Schema, items: seq<Value>, j: nat, i: nat, path: seq<Step>)
    requires j <= i <= |items| && EarlierItemsSatisfied(s, items, i)
    ensures ValidateItems(s, items, j, path) == ValidateItems(s, items, i, path)
    decreases i - j
  {
    if j < i {
      ValidIff(s, items[j], path + [Index(j)]);
      PassItems(s, items, j + 1, i, path);
    }
  }

  /** The first property that is not satisfied. */
  lemma {:induction false} FaultyProperty(s: Schema, j: nat, entries: map<string, Value>, path: seq<Step>) returns (i: nat)
    requires j <= |PropertiesOf(s)| && EarlierSatisfied(s, entries, j)
    requires ValidateProperties(s, j, entries, path).Rejected?
    ensures i < |PropertiesOf(s)| && EarlierSatisfied(s, entries, i) && PropertiesOf(s)[i].key in entries
    ensures var p := PropertiesOf(s)[i];
      ValidateNode(p.schema, entries[p.key], path + [Key(p.key)]) == ValidateProperties(s, j, entries, path)
    decreases |PropertiesOf(s)| - j
  {
    var p := PropertiesOf(s)[j];
    if p.key in entries && ValidateNode(p.schema, entries[p.key], path + [Key(p.key)]).Rejected? {
      i := j;
    } else {
      if p.key in entries { ValidIff(p.schema, entries[p.key], path + [Key(p.key)]); }
      i := FaultyProperty(s, j + 1, entries, path);
    }
  }

  lemma {:induction false} FaultyItem(s: Schema, items: seq<Value>, j: nat, path: seq<Step>) returns (i: nat)
    requires j <= |items| && EarlierItemsSatisfied(s, items, j) && ValidateItems(s, items, j, path).Rejected?
    ensures i < |items| && EarlierItemsSatisfied(s, items, i)
    ensures ValidateNode(s, items[i], path + [Index(i)]) == ValidateItems(s, items, j, path)
    decreases |items| - j
  {
    if ValidateNode(s, items[j], path + [Index(j)]).Rejected? {
      i := j;
    } else {
      ValidIff(s, items[j], path + [Index(j)]);
      i := FaultyItem(s, items, j + 1, path);
    }
  }

  lemma ReportsAtKey(s: Schema, v: Value, i: nat, rest: seq<Step>, f: Fault)
    requires NoneBelow(s, v, 5) && ObjectAt(s, v) && i < |PropertiesOf(s)| && PropertiesOf(s)[i].key in v.entries
    requires EarlierSatisfied(s, v.entries, i)
    requires Reports(PropertiesOf(s)[i].schema, v.entries[PropertiesOf(s)[i].key], rest, f)
    ensures Reports(s, v, [Key(PropertiesOf(s)[i].key)] + rest, f)
  {
    hide NoneBelow, Violated, Governs, EarlierSatisfied;
    assert ([Key(PropertiesOf(s)[i].key)] + rest)[1..] == rest;
  }

  lemma ReportsAtIndex(s: Schema, v: Value, i: nat, rest: seq<Step>, f: Fault)
    requires NoneBelow(s, v, 5) && ArrayAt(s, v) && s.items.Some? && i < |v.items|
    requires EarlierItemsSatisfied(s.items.value, v.items, i) && Reports(s.items.value, v.items[i], rest, f)
    ensures Reports(s, v, [Index(i)] + rest, f)
  {
    hide NoneBelow, Violated, Governs, EarlierItemsSatisfied;
    assert ([Index(i)] + rest)[1..] == rest;
  }

  /** A rejection leads along steps to the first fault. */
  lemma {:induction false} RejectionReports(s: Schema, v: Value, path: seq<Step>) returns (steps: seq<Step>)
    requires ValidateNode(s, v, path).Rejected?
    ensures var f := ValidateNode(s, v, path).fault; f.path == path + steps && Reports(s, v, steps, f)
    decreases v
  {
    hide Violated, NoneBelow, OwnVerdict, ValidateNode, ValidateProperties, ValidateItems, Governs, Reports;
    hide EarlierSatisfied, EarlierItemsSatisfied;
    ChecksOwnFirst(s, v, path);
    var f := ValidateNode(s, v, path).fault;
    if OwnVerdict(s, v, path).Rejected? {
      steps := [];
      OwnReports(s, v, path);
      assert path + [] == path;
    } else {
      OwnAccepted(s, v, path);
      if ObjectAt(s, v) {
        NoneEarlier(s, v.entries);
        var i := FaultyProperty(s, 0, v.entries, path);
        var p := PropertiesOf(s)[i];
        var rest := RejectionReports(p.schema, v.entries[p.key], path + [Key(p.key)]);
        steps := [Key(p.key)] + rest;
        ReportsAtKey(s, v, i, rest, f);
        assert path + steps == path + [Key(p.key)] + rest;
      } else {
        NoItemEarlier(s.items.value, v.items);
        var i := FaultyItem(s.items.value, v.items, 0, path);
        var rest := RejectionReports(s.items.value, v.items[i], path + [Index(i)]);
        steps := [Index(i)] + rest;
        ReportsAtIndex(s, v, i, rest, f);
        assert path + steps == path + [Index(i)] + rest;
      }
    }
  }

  lemma OwnReports(s: Schema, v: Value, path: seq<Step>)
    requires OwnVerdict(s, v, path).Rejected?
    ensures var f := OwnVerdict(s, v, path).fault; f.path == path && Reports(s, v, [], f)
  {
    hide OwnVerdict, Violated, NoneBelow;
    OwnRejected(s, v, path);
  }

  lemma NoneEarlier(s: Schema, entries: map<string, Value>)
    ensures EarlierSatisfied(s, entries, 0)
  {
  }

  lemma NoItemEarlier(s: Schema, items: seq<Value>)
    ensures EarlierItemsSatisfied(s, items, 0)
  {
  }

  /** What is the first fault along its steps is what the checker reports. */
  lemma {:induction false} ReportsRejected(s: Schema, v: Value, path: seq<Step>, steps: seq<Step>, f: Fault)
    requires Reports(s, v, steps, f) && f.path == path + steps
    ensures ValidateNode(s, v, path) == Rejected(f)
    decreases |steps|
  {
    hide Violated, NoneBelow, OwnVerdict, ValidateNode, ValidateProperties, ValidateItems, Governs;
    hide EarlierSatisfied, EarlierItemsSatisfied;
    ChecksOwnFirst(s, v, path);
    if steps == [] {
      assert path + [] == path;
      LeastIsOwn(s, v, f);
    } else {
      NothingViolated(s, v, path);
      assert path + steps == path + [steps[0]] + steps[1..];
      match steps[0] {
        case Key(k) =>
          var i :| 0 <= i < |PropertiesOf(s)| && PropertiesOf(s)[i].key == k && EarlierSatisfied(s, v.entries, i) &&
            Reports(PropertiesOf(s)[i].schema, v.entries[k], steps[1..], f);
          PassProperties(s, 0, i, v.entries, path);
          ReportsRejected(PropertiesOf(s)[i].schema, v.entries[k], path + [Key(k)], steps[1..], f);
          PropertyStep(s, i, v.entries, path, f);
        case Index(i) =>
          PassItems(s.items.value, v.items, 0, i, path);
          ReportsRejected(s.items.value, v.items[i], path + [Index(i)], steps[1..], f);
          ItemStep(s.items.value, v.items, i, path, f);
          NotBoth(s, v);
      }
    }
  }

  lemma NotBoth(s: Schema, v: Value)
    requires ArrayAt(s, v)
    ensures !v.Dict?
  {
  }

  lemma PropertyStep(s: Schema, i: nat, entries: map<string, Value>, path: seq<Step>, f: Fault)
    requires i < |PropertiesOf(s)| && PropertiesOf(s)[i].key in entries
    requires var p := PropertiesOf(s)[i]; ValidateNode(p.schema, entries[p.key], path + [Key(p.key)]) == Rejected(f)
    ensures ValidateProperties(s, i, entries, path) == Rejected(f)
  {
    hide ValidateNode;
  }

  lemma ItemStep(s: Schema, items: seq<Value>, i: nat, path: seq<Step>, f: Fault)
    requires i < |items| && ValidateNode(s, items[i], path + [Index(i)]) == Rejected(f)
    ensures ValidateItems(s, items, i, path) == Rejected(f)
  {
    hide ValidateNode;
  }

  /** The checker reports a fault exactly when it is the first one, at the place its path leads to. */
  lemma ReportedIff(s: Schema, v: Value, path: seq<Step>, f: Fault)
    ensures ValidateNode(s, v, path) == Rejected(f) <==>
      exists steps :: f.path == path + steps && Reports(s, v, steps, f)
  {
    hide Reports, ValidateNode;
    if ValidateNode(s, v, path) == Rejected(f) {
      var steps := RejectionReports(s, v, path);
    }
    forall steps | f.path == path + steps && Reports(s, v, steps, f) ensures ValidateNode(s, v, path) == Rejected(f) {
      ReportsRejected(s, v, path, steps, f);
    }
  }
}
