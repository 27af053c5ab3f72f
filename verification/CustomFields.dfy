/** The custom fields of tasks: what is stored when they are set, and what reading them back gives. */
module CustomFields {
  import opened Prelude
  import opened ContractSchema

  type TaskId = nat

  datatype Definition = Definition(id: nat, key: string, fieldType: string, regex: Option<string>, required: bool, default: Value)

  datatype Refusal = UnknownKeys(keys: set<string>) | InvalidValue(key: string) | MissingRequired(keys: set<string>)

  /** One stored value per task and definition. */
  type Rows = map<(TaskId, nat), Value>

  function RowOf(rows: Rows, task: TaskId, id: nat): Option<Value> {
    if (task, id) in rows then Some(rows[(task, id)]) else None
  }

  /** Keys and ids name definitions. */
  predicate Named(defs: seq<Definition>) {
    forall i, j :: 0 <= i < j < |defs| ==> defs[i].key != defs[j].key && defs[i].id != defs[j].id
  }

  predicate HasKey(defs: seq<Definition>, key: string) {
    exists i :: 0 <= i < |defs| && defs[i].key == key
  }

  predicate HasId(defs: seq<Definition>, id: nat) {
    exists i :: 0 <= i < |defs| && defs[i].id == id
  }

  /** No stored value is null: null is stored as no row at all. */
  ghost predicate NoNulls(rows: Rows) {
    forall k :: k in rows ==> rows[k] != Null
  }

  // ---- reading back ----

  /** The value of a field: the stored one, or else the default. */
  function FieldValue(rows: Rows, task: TaskId, d: Definition): Value {
    match RowOf(rows, task, d.id)
    case Some(value) => value
    case None => d.default
  }

  ghost predicate ReadsBack(defs: seq<Definition>, rows: Rows, task: TaskId, values: map<string, Value>) {
    (forall key :: key in values <==> HasKey(defs, key)) &&
    forall i :: 0 <= i < |defs| ==> defs[i].key in values && values[defs[i].key] == FieldValue(rows, task, defs[i])
  }

  // ---- what setting the fields wants ----

  /** The value a field would have: the given one, else the stored one, else the default. */
  function Effective(d: Definition, row: Option<Value>, given: map<string, Value>): Value {
    if d.key in given then given[d.key]
    else match row
      case Some(value) => value
      case None => d.default
  }

  function Stored(v: Value): Option<Value> {
    if v == Null then None else Some(v)
  }

  /** The row after an update: only the fields that are given change. */
  function UpdatedRow(d: Definition, row: Option<Value>, given: map<string, Value>): Option<Value> {
    if d.key in given then Stored(given[d.key]) else row
  }

  /** The payload names known fields only, with values their definitions accept. */
  ghost predicate Acceptable(defs: seq<Definition>, accepts: (Definition, Value) -> bool, given: map<string, Value>) {
    forall key :: key in given ==>
      exists i :: 0 <= i < |defs| && defs[i].key == key && (given[key] == Null || accepts(defs[i], given[key]))
  }

  ghost predicate Complete(defs: seq<Definition>, rows: Rows, task: TaskId, given: map<string, Value>) {
    forall i :: 0 <= i < |defs| && defs[i].required ==> Effective(defs[i], RowOf(rows, task, defs[i].id), given) != Null
  }

  /** All unknown keys are named, or else some value that is not accepted. */
  ghost predicate RefusedValues(
      defs: seq<Definition>, accepts: (Definition, Value) -> bool, given: map<string, Value>, refusal: Refusal)
  {
    match refusal
    case UnknownKeys(keys) => keys != {} && forall key :: key in keys <==> key in given && !HasKey(defs, key)
    case InvalidValue(key) =>
      (forall k :: k in given ==> HasKey(defs, k)) && key in given && given[key] != Null &&
      forall i :: 0 <= i < |defs| && defs[i].key == key ==> !accepts(defs[i], given[key])
    case MissingRequired(_) => false
  }

  /** One of the first `n` definitions has the key and requires a value where there is none. */
  ghost predicate EmptyAt(defs: seq<Definition>, n: nat, effective: map<string, Value>, key: string)
    requires n <= |defs|
  {
    exists i :: 0 <= i < n && defs[i].key == key && defs[i].required && key in effective && effective[key] == Null
  }

  /** Missing fields are named last, and then all of them. */
  ghost predicate Refused(
      defs: seq<Definition>, accepts: (Definition, Value) -> bool, rows: Rows, task: TaskId, given: map<string, Value>,
      refusal: Refusal)
  {
    if refusal.MissingRequired? then
      Acceptable(defs, accepts, given) && refusal.keys != {} &&
      forall key :: key in refusal.keys <==> LeftEmpty(defs, rows, task, given, key)
    else RefusedValues(defs, accepts, given, refusal)
  }

  ghost predicate LeftEmpty(defs: seq<Definition>, rows: Rows, task: TaskId, given: map<string, Value>, key: string) {
    exists i :: 0 <= i < |defs| && defs[i].key == key && defs[i].required &&
      Effective(defs[i], RowOf(rows, task, defs[i].id), given) == Null
  }

  /** Nothing but the rows of this task for these definitions differs. */
  ghost predicate OthersKept(defs: seq<Definition>, before: Rows, after: Rows, task: TaskId) {
    forall t, id :: t != task || !HasId(defs, id) ==> RowOf(after, t, id) == RowOf(before, t, id)
  }

  ghost predicate Created(defs: seq<Definition>, before: Rows, after: Rows, task: TaskId, given: map<string, Value>) {
    OthersKept(defs, before, after, task) &&
    forall i :: 0 <= i < |defs| ==> RowOf(after, task, defs[i].id) == Stored(Effective(defs[i], None, given))
  }

  ghost predicate Updated(defs: seq<Definition>, before: Rows, after: Rows, task: TaskId, given: map<string, Value>) {
    OthersKept(defs, before, after, task) &&
    forall i :: 0 <= i < |defs| ==>
      RowOf(after, task, defs[i].id) == UpdatedRow(defs[i], RowOf(before, task, defs[i].id), given)
  }

  /** The fields without an effective value are those that would be left empty. */
  lemma EmptyIsLeft(
      defs: seq<Definition>, rows: Rows, task: TaskId, given: map<string, Value>, effective: map<string, Value>)
    requires forall i :: 0 <= i < |defs| ==>
      defs[i].key in effective && effective[defs[i].key] == Effective(defs[i], RowOf(rows, task, defs[i].id), given)
    ensures forall key :: EmptyAt(defs, |defs|, effective, key) <==> LeftEmpty(defs, rows, task, given, key)
  {
    hide Effective, RowOf;
  }

  // ---- the store ----

  class FieldStore {
    const defs: seq<Definition>
    const accepts: (Definition, Value) -> bool
    var rows: Rows

    ghost predicate Valid()
      reads this
    {
      Named(defs) && NoNulls(rows)
    }

    constructor (defs: seq<Definition>, accepts: (Definition, Value) -> bool)
      requires Named(defs)
      ensures Valid() && this.defs == defs && this.accepts == accepts && rows == map[]
    {
      this.defs, this.accepts, rows := defs, accepts, map[];
    }

    method Find(key: string) returns (d: Option<Definition>)
      ensures d == None <==> !HasKey(defs, key)
      ensures d.Some? ==> d.value.key == key && d.value in defs
    {
      for i := 0 to |defs|
        invariant forall j :: 0 <= j < i ==> defs[j].key != key
      {
        if defs[i].key == key {
          return Some(defs[i]);
        }
      }
      return None;
    }

    /** Unknown keys come first, then values their definitions do not accept. */
    method CheckValues(given: map<string, Value>) returns (refusal: Option<Refusal>)
      requires Valid()
      ensures refusal == None <==> Acceptable(defs, accepts, given)
      ensures refusal.Some? ==> RefusedValues(defs, accepts, given, refusal.value)
    {
      var known := set i | 0 <= i < |defs| :: defs[i].key;
      var unknown := given.Keys - known;
      forall key | key in given ensures key in unknown <==> !HasKey(defs, key) {
      }
      if unknown != {} {
        var key :| key in unknown;
        assert key in given && !HasKey(defs, key);
        return Some(UnknownKeys(unknown));
      }
      assert forall key :: key in given ==> HasKey(defs, key) by {
        forall key | key in given ensures HasKey(defs, key) {
          assert key !in unknown;
        }
      }
      var rest := given.Keys;
      while rest != {}
        invariant rest <= given.Keys
        invariant forall key :: key in given && key !in rest ==>
          exists i :: 0 <= i < |defs| && defs[i].key == key && (given[key] == Null || accepts(defs[i], given[key]))
        decreases rest
      {
        var key :| key in rest;
        var d := Find(key);
        var k :| 0 <= k < |defs| && defs[k] == d.value;
        if given[key] != Null && !accepts(d.value, given[key]) {
          assert forall i :: 0 <= i < |defs| && defs[i].key == key ==> defs[i] == d.value;
          return Some(InvalidValue(key));
        }
        rest := rest - {key};
      }
      return None;
    }

    /** The required fields that would be left without a value. */
    method MissingKeys(effective: map<string, Value>) returns (missing: set<string>)
      requires forall i :: 0 <= i < |defs| ==> defs[i].key in effective
      ensures missing == {} <==> forall i :: 0 <= i < |defs| && defs[i].required ==> effective[defs[i].key] != Null
      ensures forall key :: key in missing <==> EmptyAt(defs, |defs|, effective, key)
    {
      missing := {};
      for i := 0 to |defs|
        invariant missing == {} <==> forall j :: 0 <= j < i && defs[j].required ==> effective[defs[j].key] != Null
        invariant forall key :: key in missing <==> EmptyAt(defs, i, effective, key)
      {
        if defs[i].required && effective[defs[i].key] == Null {
          missing := missing + {defs[i].key};
        }
      }
    }

    method EffectiveValues(task: TaskId, given: map<string, Value>) returns (effective: map<string, Value>)
      requires Valid()
      ensures forall i :: 0 <= i < |defs| ==>
        defs[i].key in effective && effective[defs[i].key] == Effective(defs[i], RowOf(rows, task, defs[i].id), given)
    {
      effective := map[];
      for i := 0 to |defs|
        invariant forall j :: 0 <= j < i ==>
          defs[j].key in effective && effective[defs[j].key] == Effective(defs[j], RowOf(rows, task, defs[j].id), given)
      {
        var current := RowOf(rows, task, defs[i].id);
        var value :=
          if defs[i].key in given then given[defs[i].key]
          else if current.Some? then current.value
          else defs[i].default;
        effective := effective[defs[i].key := value];
      }
    }

    /** The fields of a new task: given values, else defaults. */
    method SetForCreate(task: TaskId, given: map<string, Value>) returns (refusal: Option<Refusal>)
      requires Valid() && forall id :: RowOf(rows, task, id) == None
      modifies this
      ensures Valid()
      ensures refusal == None <==> Acceptable(defs, accepts, given) && Complete(defs, old(rows), task, given)
      ensures if refusal == None then Created(defs, old(rows), rows, task, given) else rows == old(rows)
      ensures refusal.Some? ==> Refused(defs, accepts, old(rows), task, given, refusal.value)
    {
      refusal := CheckValues(given);
      if refusal.Some? {
        return;
      }
      var effective := EffectiveValues(task, given);
      var missing := MissingKeys(effective);
      if missing != {} {
        EmptyIsLeft(defs, rows, task, given, effective);
        return Some(MissingRequired(missing));
      }
      for i := 0 to |defs|
        invariant Valid() && OthersKept(defs[..i], old(rows), rows, task)
        invariant forall j :: 0 <= j < i ==> RowOf(rows, task, defs[j].id) == Stored(Effective(defs[j], None, given))
      {
        if effective[defs[i].key] != Null {
          rows := rows[(task, defs[i].id) := effective[defs[i].key]];
        }
        KeptOneMore(defs, i, old(rows), rows, task);
      }
      assert defs[..|defs|] == defs;
    }

    /** An update: given values replace or delete rows, the other rows stay. */
    method SetForUpdate(task: TaskId, given: map<string, Value>) returns (refusal: Option<Refusal>)
      requires Valid()
      modifies this
      ensures Valid()
      ensures refusal == None <==> Acceptable(defs, accepts, given) && Complete(defs, old(rows), task, given)
      ensures if refusal == None then Updated(defs, old(rows), rows, task, given) else rows == old(rows)
      ensures refusal.Some? ==> Refused(defs, accepts, old(rows), task, given, refusal.value)
    {
      refusal := CheckValues(given);
      if refusal.Some? {
        return;
      }
      var effective := EffectiveValues(task, given);
      var missing := MissingKeys(effective);
      if missing != {} {
        EmptyIsLeft(defs, rows, task, given, effective);
        return Some(MissingRequired(missing));
      }
      var rest := given.Keys;
      UpdateStarts(defs, rows, task, given);
      while rest != {}
        invariant Valid() && rest <= given.Keys && Midway(defs, old(rows), rows, task, given, rest)
        decreases rest
      {
        var key :| key in rest;
        var d := Find(key);
        ghost var now := rows;
        WriteRow(task, d.value.id, given[key]);
        UpdateGoesOn(defs, old(rows), now, rows, task, given, rest, d.value);
        rest := rest - {key};
      }
    }

    /** Stores the value, or deletes the row when it is null. */
    method WriteRow(task: TaskId, id: nat, value: Value)
      requires Valid()
      modifies this
      ensures Valid() && RowOf(rows, task, id) == Stored(value)
      ensures forall t, other :: t != task || other != id ==> RowOf(rows, t, other) == RowOf(old(rows), t, other)
    {
      if value == Null {
        if (task, id) in rows {
          rows := rows - {(task, id)};
        }
      } else {
        rows := rows[(task, id) := value];
      }
    }

    method DefaultValues() returns (defaults: map<string, Value>)
      requires Valid()
      ensures forall key :: key in defaults <==> HasKey(defs, key)
      ensures forall j :: 0 <= j < |defs| ==> defs[j].key in defaults && defaults[defs[j].key] == defs[j].default
    {
      defaults := map[];
      for i := 0 to |defs|
        invariant forall key :: key in defaults <==> HasKey(defs[..i], key)
        invariant forall j :: 0 <= j < i ==> defs[j].key in defaults && defaults[defs[j].key] == defs[j].default
      {
        defaults := defaults[defs[i].key := defs[i].default];
        KeysOneMore(defs, i);
      }
      assert defs[..|defs|] == defs;
    }

    /** The values of several tasks: the defaults, overlaid with what is stored. */
    method ReadBack(tasks: set<TaskId>) returns (values: map<TaskId, map<string, Value>>)
      requires Valid()
      ensures values.Keys == tasks
      ensures forall t :: t in tasks ==> ReadsBack(defs, rows, t, values[t])
    {
      hide Overlaid, ReadsBack, HasKey, HasId, Named;
      var defaults := DefaultValues();
      values := map t | t in tasks :: defaults;
      var rest := rows.Keys;
      forall t | t in tasks ensures Overlaid(defs, rows, t, values[t], rest) {
        OverlayStarts(defs, rows, t, defaults);
      }
      while rest != {}
        invariant values.Keys == tasks && rest <= rows.Keys
        invariant forall t :: t in tasks ==> Overlaid(defs, rows, t, values[t], rest)
        decreases rest
      {
        var row :| row in rest;
        var d := FindById(row.1);
        ghost var before := values;
        if row.0 in tasks && d.Some? {
          values := values[row.0 := values[row.0][d.value.key := rows[row]]];
        }
        forall t | t in tasks ensures Overlaid(defs, rows, t, values[t], rest - {row}) {
          OverlayGoesOn(defs, rows, t, before[t], values[t], rest, row, d);
        }
        rest := rest - {row};
      }
      forall t | t in tasks ensures ReadsBack(defs, rows, t, values[t]) {
        OverlayEnds(defs, rows, t, values[t]);
      }
    }

    method FindById(id: nat) returns (d: Option<Definition>)
      ensures d == None <==> !HasId(defs, id)
      ensures d.Some? ==> d.value.id == id && d.value in defs
    {
      for i := 0 to |defs|
        invariant forall j :: 0 <= j < i ==> defs[j].id != id
      {
        if defs[i].id == id {
          return Some(defs[i]);
        }
      }
      return None;
    }
  }

  /** An update after some of the given keys: those in `rest` are still to be written. */
  ghost predicate Midway(defs: seq<Definition>, before: Rows, now: Rows, task: TaskId, given: map<string, Value>,
      rest: set<string>)
  {
    OthersKept(defs, before, now, task) &&
    forall i :: 0 <= i < |defs| ==> RowOf(now, task, defs[i].id) == MidwayRow(defs[i], before, task, given, rest)
  }

  function MidwayRow(d: Definition, before: Rows, task: TaskId, given: map<string, Value>, rest: set<string>): Option<Value> {
    if d.key in rest then RowOf(before, task, d.id) else UpdatedRow(d, RowOf(before, task, d.id), given)
  }

  lemma UpdateStarts(defs: seq<Definition>, rows: Rows, task: TaskId, given: map<string, Value>)
    ensures Midway(defs, rows, rows, task, given, given.Keys)
  {
  }

  lemma UpdateGoesOn(defs: seq<Definition>, before: Rows, now: Rows, after: Rows, task: TaskId, given: map<string, Value>,
      rest: set<string>, d: Definition)
    requires Named(defs) && Midway(defs, before, now, task, given, rest) && d in defs && d.key in rest && d.key in given
    requires RowOf(after, task, d.id) == Stored(given[d.key])
    requires forall t, other :: t != task || other != d.id ==> RowOf(after, t, other) == RowOf(now, t, other)
    ensures Midway(defs, before, after, task, given, rest - {d.key})
  {
    var k :| 0 <= k < |defs| && defs[k] == d;
    forall t, id | t != task || !HasId(defs, id) ensures RowOf(after, t, id) == RowOf(before, t, id) {
      if id == d.id { assert HasId(defs, id); }
    }
    forall i | 0 <= i < |defs|
      ensures RowOf(after, task, defs[i].id) == MidwayRow(defs[i], before, task, given, rest - {d.key})
    {
      assert i != k ==> defs[i].key != d.key && defs[i].id != d.id;
    }
  }

  /** The values of a task while the rows in `rest` are still to be overlaid. */
  ghost predicate Overlaid(defs: seq<Definition>, rows: Rows, t: TaskId, values: map<string, Value>, rest: set<(TaskId, nat)>) {
    (forall key :: key in values <==> HasKey(defs, key)) &&
    forall i :: 0 <= i < |defs| ==> defs[i].key in values && values[defs[i].key] == OverlaidValue(defs[i], rows, t, rest)
  }

  function OverlaidValue(d: Definition, rows: Rows, t: TaskId, rest: set<(TaskId, nat)>): Value {
    if (t, d.id) in rest then d.default else FieldValue(rows, t, d)
  }

  lemma OverlayStarts(defs: seq<Definition>, rows: Rows, t: TaskId, defaults: map<string, Value>)
    requires forall key :: key in defaults <==> HasKey(defs, key)
    requires forall j :: 0 <= j < |defs| ==> defs[j].key in defaults && defaults[defs[j].key] == defs[j].default
    ensures Overlaid(defs, rows, t, defaults, rows.Keys)
  {
  }

  lemma OverlayEnds(defs: seq<Definition>, rows: Rows, t: TaskId, values: map<string, Value>)
    requires Overlaid(defs, rows, t, values, {})
    ensures ReadsBack(defs, rows, t, values)
  {
  }

  lemma OverlayGoesOn(defs: seq<Definition>, rows: Rows, t: TaskId, before: map<string, Value>, after: map<string, Value>,
      rest: set<(TaskId, nat)>, row: (TaskId, nat), d: Option<Definition>)
    requires Named(defs) && Overlaid(defs, rows, t, before, rest) && row in rows
    requires d == None <==> !HasId(defs, row.1)
    requires d.Some? ==> d.value in defs && d.value.id == row.1
    requires after == if row.0 == t && d.Some? then before[d.value.key := rows[row]] else before
    ensures Overlaid(defs, rows, t, after, rest - {row})
  {
    if d.Some? {
      var k :| 0 <= k < |defs| && defs[k] == d.value;
      assert HasKey(defs, d.value.key);
      forall i | 0 <= i < |defs| && i != k ensures defs[i].key != d.value.key && defs[i].id != row.1 {
      }
    } else {
      forall i | 0 <= i < |defs| ensures defs[i].id != row.1 {
      }
    }
  }

  lemma KeysOneMore(defs: seq<Definition>, i: nat)
    requires i < |defs|
    ensures forall key :: HasKey(defs[..i + 1], key) <==> HasKey(defs[..i], key) || key == defs[i].key
  {
    forall key ensures HasKey(defs[..i + 1], key) <==> HasKey(defs[..i], key) || key == defs[i].key {
      if HasKey(defs[..i], key) {
        var j :| 0 <= j < i && defs[..i][j].key == key;
        assert defs[..i + 1][j].key == key;
      }
      if HasKey(defs[..i + 1], key) {
        var j :| 0 <= j < i + 1 && defs[..i + 1][j].key == key;
        if j < i { assert defs[..i][j].key == key; }
      }
      assert defs[..i + 1][i].key == defs[i].key;
    }
  }

  lemma KeptOneMore(defs: seq<Definition>, i: nat, before: Rows, after: Rows, task: TaskId)
    requires i < |defs|
    requires forall t, id :: t != task || !(HasId(defs[..i], id) || id == defs[i].id) ==> RowOf(after, t, id) == RowOf(before, t, id)
    ensures OthersKept(defs[..i + 1], before, after, task)
  {
    forall id | HasId(defs[..i], id) || id == defs[i].id ensures HasId(defs[..i + 1], id) {
      if HasId(defs[..i], id) {
        var j :| 0 <= j < i && defs[..i][j].id == id;
        assert defs[..i + 1][j].id == id;
      } else {
        assert defs[..i + 1][i].id == id;
      }
    }
  }

  // ---- what an accepted change means for reading back ----

  /** A given value reads back, a given null reads back as the default, and so does a field not given on creation. */
  lemma CreatedReadsBack(defs: seq<Definition>, before: Rows, after: Rows, task: TaskId, given: map<string, Value>, i: nat)
    requires Created(defs, before, after, task, given) && i < |defs|
    ensures FieldValue(after, task, defs[i]) ==
      if defs[i].key in given && given[defs[i].key] != Null then given[defs[i].key] else defs[i].default
  {
  }

  /** An update changes what is read back at the keys it names only; null there brings the default back. */
  lemma UpdatedReadsBack(defs: seq<Definition>, before: Rows, after: Rows, task: TaskId, given: map<string, Value>, i: nat)
    requires Updated(defs, before, after, task, given) && i < |defs|
    ensures FieldValue(after, task, defs[i]) ==
      if defs[i].key !in given then FieldValue(before, task, defs[i])
      else if given[defs[i].key] == Null then defs[i].default
      else given[defs[i].key]
  {
  }

  /** Other tasks read back as before, whatever is set. */
  lemma OtherTasksReadBack(defs: seq<Definition>, before: Rows, after: Rows, task: TaskId, other: TaskId, i: nat)
    requires OthersKept(defs, before, after, task) && other != task && i < |defs|
    ensures FieldValue(after, other, defs[i]) == FieldValue(before, other, defs[i])
  {
    assert RowOf(after, other, defs[i].id) == RowOf(before, other, defs[i].id);
  }

  /** After an accepted change every required field of the task has a value. */
  lemma RequiredFieldsHaveValues(defs: seq<Definition>, before: Rows, after: Rows, task: TaskId, given: map<string, Value>, i: nat)
    requires Complete(defs, before, task, given) && i < |defs| && defs[i].required
    requires Updated(defs, before, after, task, given) ||
      (Created(defs, before, after, task, given) && forall id :: RowOf(before, task, id) == None)
    ensures FieldValue(after, task, defs[i]) != Null
  {
    assert Effective(defs[i], RowOf(before, task, defs[i].id), given) != Null;
  }
}
