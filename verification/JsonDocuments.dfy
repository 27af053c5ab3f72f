/** The reader on the file of a valid document, against decoding the document and picking its entries. */
module JsonDocuments {
  import opened Prelude
  import opened JsonDecoder
  import opened JsonPrefix
  import opened JsonStream
  import opened JsonText
  import opened JsonChunking
  import opened JsonMembers
  import opened JsonSafety
  import opened JsonCuts
  import opened JsonGaps
  import opened JsonObjectGaps

  function ObjectsOf(items: seq<Json>): seq<Json> {
    Filter(items, (v: Json) => v.JObject?)
  }

  /** The value of the last member with this key, as a dictionary lookup returns it. */
  function Lookup(members: seq<Member>, key: seq<nat>): Option<Json> {
    if members == [] then None
    else if members[|members| - 1].key == key then Some(members[|members| - 1].value)
    else Lookup(members[..|members| - 1], key)
  }

  /** The entries of a decoded index: the objects of the array, or of the array under "skills". */
  function CoerceEntries(payload: Json): seq<Json> {
    match payload
    case JArray(items) => ObjectsOf(items)
    case JObject(members) =>
      var skills := Lookup(members, SKILLS);
      if skills.Some? && skills.value.JArray? then ObjectsOf(skills.value.items) else []
    case _ => []
  }

  /** The `k`-th member is the last one with the key. */
  ghost predicate LastUnder(members: seq<Member>, k: nat, key: seq<nat>) {
    k < |members| && members[k].key == key && forall j :: k < j < |members| ==> members[j].key != key
  }

  lemma {:induction false} LookupFindsLast(members: seq<Member>, key: seq<nat>, v: Json)
    ensures Lookup(members, key) == Some(v) <==> exists k: nat :: LastUnder(members, k, key) && members[k].value == v
    decreases |members|
  {
    if members != [] {
      var n := |members| - 1;
      var init := members[..n];
      if members[n].key == key {
        assert LastUnder(members, n, key);
      } else {
        LookupFindsLast(init, key, v);
        if k: nat :| LastUnder(init, k, key) && init[k].value == v {
          assert LastUnder(members, k, key);
        }
        if k: nat :| LastUnder(members, k, key) && members[k].value == v {
          assert LastUnder(init, k, key) && init[k] == members[k];
        }
      }
    }
  }

  /** Coercion keeps the objects of an array, or of the array that is the last value under "skills", and nothing else. */
  lemma CoercedIff(payload: Json, x: Json)
    ensures x in CoerceEntries(payload) <==>
      x.JObject? &&
      ((payload.JArray? && x in payload.items) ||
      (payload.JObject? && exists k: nat ::
        LastUnder(payload.members, k, SKILLS) && payload.members[k].value.JArray? && x in payload.members[k].value.items))
  {
    if payload.JObject? {
      var skills := Lookup(payload.members, SKILLS);
      if skills.Some? { LookupFindsLast(payload.members, SKILLS, skills.value); }
      if k: nat :| LastUnder(payload.members, k, SKILLS) {
        LookupFindsLast(payload.members, SKILLS, payload.members[k].value);
      }
    }
  }

  // ---- every way of reading a document ----

  /** Arrays: however the file is split, the reader picks from the decoded document. */
  lemma ArrayDocumentRead(t: string, items: seq<Json>, chunks: Chunks)
    requires LoadDocument(t).Got? && LoadDocument(t).value == JArray(items) && Smooth(chunks) && chunks.text == t
    ensures Returned(ReadTop(chunks)) == if AllObjects(items) then Some(items) else None
  {
    ReadTextPicks(t);
    DocumentStart(t);
    ReadTopSame(chunks);
  }

  /** Long numbers among the decoded members of an accepted object are those the reader comes across. */
  lemma DocumentClean(t: string, members: seq<Member>)
    requires LoadDocument(t).Got? && LoadDocument(t).value == JObject(members) && Streamed(members).Some?
    ensures StartsWith(t, '{') && NoMultiDigit(t, Start(t) + 1) == NoLongNumbers(members)
  {
    DocumentStart(t);
    var i := SkipJson(t, 0);
    assert Start(t) == i by {
      ValueIsVisible(t, i);
      SkipAgrees(t, 0);
    }
    ObjectClean(t, i + 1);
  }

  /**
   * Objects: the reader agrees with the decoded document for every smooth split of the file exactly
   * when it refuses the document anyway or no member has a number of several digits as its value.
   */
  lemma ObjectDocumentRead(t: string, members: seq<Member>)
    requires LoadDocument(t).Got? && LoadDocument(t).value == JObject(members)
    ensures (forall chunks: Chunks :: Smooth(chunks) && chunks.text == t ==> Returned(ReadTop(chunks)) == Streamed(members)) <==>
      (Streamed(members) == None || NoLongNumbers(members))
  {
    hide ReadTop, ReadText, NoMultiDigit, NoLongNumbers, Streamed;
    ReadTextPicks(t);
    ChunkingIrrelevant(t);
    if Streamed(members).Some? { DocumentClean(t, members); }
  }

  /** The numbers directly among the members leave every chunking harmless. */
  predicate ShortNumbers(payload: Json) {
    payload.JObject? ==> NoLongNumbers(payload.members)
  }

  /**
   * The reader agrees with the decoded document for every split of the file, smooth or not, exactly
   * when it refuses the document anyway, or the text is tight and has no long number among its members.
   */
  lemma DocumentReadIff(t: string)
    requires LoadDocument(t).Got?
    ensures (forall chunks: Chunks :: chunks.text == t ==> Returned(ReadTop(chunks)) == Picked(LoadDocument(t).value)) <==>
      (Picked(LoadDocument(t).value) == None || (TightText(t) && ShortNumbers(LoadDocument(t).value)))
  {
    hide ReadTop, ReadText, Streamed, NoLongNumbers, NoMultiDigit, TightObject, TightArray;
    var payload := LoadDocument(t).value;
    ReadTextPicks(t);
    DocumentStart(t);
    ChunkingIff(t);
    if payload.JObject? && Streamed(payload.members).Some? { DocumentClean(t, payload.members); }
  }

  // ---- agreement with the coercion of the whole document ----

  lemma {:induction false} AllObjectsKept(items: seq<Json>)
    requires AllObjects(items)
    ensures ObjectsOf(items) == items
  {
    if items != [] {
      AllObjectsKept(items[1..]);
      assert items == [items[0]] + items[1..];
    }
  }

  /** Each "skills" member is an array of objects, or is the last member and no array at all. */
  predicate SkillsFit(members: seq<Member>) {
    forall i :: 0 <= i < |members| && members[i].key == SKILLS ==>
      if members[i].value.JArray? then AllObjects(members[i].value.items) else i == |members| - 1
  }

  lemma {:induction false} StreamedWhenFit(members: seq<Member>)
    ensures Streamed(members).Some? <==> SkillsFit(members)
  {
    if members != [] {
      var rest := members[1..];
      StreamedWhenFit(rest);
      assert forall i :: 0 <= i < |rest| ==> rest[i] == members[i + 1];
      if SkillsFit(rest) && Streamed(members).Some? {
        forall i | 0 <= i < |members| && members[i].key == SKILLS
          ensures if members[i].value.JArray? then AllObjects(members[i].value.items) else i == |members| - 1
        {
          if i > 0 { assert rest[i - 1] == members[i]; }
        }
      }
      if SkillsFit(members) {
        forall i | 0 <= i < |rest| && rest[i].key == SKILLS
          ensures if rest[i].value.JArray? then AllObjects(rest[i].value.items) else i == |rest| - 1
        {
          assert rest[i] == members[i + 1];
        }
        assert members[0].key == SKILLS && !members[0].value.JArray? ==> |members| == 1;
      }
    }
  }

  predicate NoSkills(members: seq<Member>) {
    forall i :: 0 <= i < |members| ==> members[i].key != SKILLS
  }

  /** Of several "skills" members, all but the last are empty arrays. */
  predicate EarlierEmpty(members: seq<Member>) {
    forall i, j :: 0 <= i < j < |members| && members[i].key == SKILLS && members[j].key == SKILLS ==>
      members[i].value == JArray([])
  }

  lemma {:induction false} LookupWithout(members: seq<Member>)
    requires NoSkills(members)
    ensures Lookup(members, SKILLS) == None && Streamed(members) == Some([])
  {
    if members != [] {
      LookupWithout(members[..|members| - 1]);
      assert NoSkills(members[1..]);
      LookupWithout(members[1..]);
    }
  }

  lemma {:induction false} LookupSkipsFirst(members: seq<Member>)
    requires members != []
    ensures Lookup(members, SKILLS) ==
      if Lookup(members[1..], SKILLS).Some? then Lookup(members[1..], SKILLS)
      else if members[0].key == SKILLS then Some(members[0].value) else None
  {
    if |members| > 1 {
      var init := members[..|members| - 1];
      LookupSkipsFirst(init);
      assert members[1..][..|members| - 2] == init[1..];
    }
  }

  lemma {:induction false} SomeLookup(members: seq<Member>)
    ensures Lookup(members, SKILLS).Some? <==> !NoSkills(members)
  {
    if members != [] {
      var init, last := members[..|members| - 1], members[|members| - 1];
      SomeLookup(init);
      if last.key != SKILLS && NoSkills(init) { assert NoSkills(members); }
      if last.key != SKILLS && !NoSkills(init) {
        var i :| 0 <= i < |init| && init[i].key == SKILLS;
        assert members[i].key == SKILLS;
      }
    }
  }

  lemma EarlierEmptyStep(m: Member, rest: seq<Member>)
    ensures EarlierEmpty([m] + rest) ==
      (EarlierEmpty(rest) && (m.key == SKILLS && !NoSkills(rest) ==> m.value == JArray([])))
  {
    hide EarlierEmpty, NoSkills;
    if EarlierEmpty([m] + rest) { EmptyBehind(m, rest); }
    if EarlierEmpty(rest) && (m.key == SKILLS && !NoSkills(rest) ==> m.value == JArray([])) { EmptyBefore(m, rest); }
  }

  lemma EmptyBehind(m: Member, rest: seq<Member>)
    requires EarlierEmpty([m] + rest)
    ensures EarlierEmpty(rest) && (m.key == SKILLS && !NoSkills(rest) ==> m.value == JArray([]))
  {
    var members := [m] + rest;
    assert forall i :: 0 <= i < |rest| ==> rest[i] == members[i + 1];
    if m.key == SKILLS && !NoSkills(rest) {
      var j :| 0 <= j < |rest| && rest[j].key == SKILLS;
      assert members[j + 1].key == SKILLS && members[0] == m;
    }
  }

  lemma EmptyBefore(m: Member, rest: seq<Member>)
    requires EarlierEmpty(rest) && (m.key == SKILLS && !NoSkills(rest) ==> m.value == JArray([]))
    ensures EarlierEmpty([m] + rest)
  {
    var members := [m] + rest;
    forall i, j | 0 <= i < j < |members| && members[i].key == SKILLS && members[j].key == SKILLS
      ensures members[i].value == JArray([])
    {
      assert rest[j - 1].key == SKILLS;
      if i > 0 { assert rest[i - 1] == members[i]; }
    }
  }

  /**
   * Streaming collects every "skills" array and the coercion takes the last one, so streaming gives
   * at least as much, and the same exactly if the earlier ones are empty.
   */
  lemma {:induction false} StreamedAgainstCoerced(members: seq<Member>)
    requires Streamed(members).Some?
    ensures |CoerceEntries(JObject(members))| <= |Streamed(members).value|
    ensures Streamed(members).value == CoerceEntries(JObject(members)) <==> EarlierEmpty(members)
  {
    if members != [] {
      var m, rest := members[0], members[1..];
      assert members == [m] + rest;
      LookupSkipsFirst(members);
      SomeLookup(rest);
      EarlierEmptyStep(m, rest);
      if m.key == SKILLS && !m.value.JArray? {
        assert rest == [];
      } else {
        StreamedAgainstCoerced(rest);
        if m.key == SKILLS {
          AllObjectsKept(m.value.items);
          FirstSkills(m.value.items, rest);
        }
      }
    }
  }

  lemma FirstSkills(items: seq<Json>, rest: seq<Member>)
    requires Streamed(rest).Some?
    ensures NoSkills(rest) ==> items + Streamed(rest).value == items && EarlierEmpty(rest)
    ensures items == [] ==> items + Streamed(rest).value == Streamed(rest).value
  {
    if NoSkills(rest) {
      LookupWithout(rest);
      assert items + [] == items;
    }
  }

  /** Streaming the document and coercing it as a whole agree on this index. */
  predicate FittingIndex(payload: Json) {
    match payload
    case JArray(items) => AllObjects(items)
    case JObject(members) => SkillsFit(members) && EarlierEmpty(members)
    case _ => false
  }

  /**
   * On a document, the streaming read equals decoding everything and coercing it exactly when: the
   * array holds objects only; or each "skills" member of the object is an array of objects, the last
   * member of all may be no array, and of several "skills" members all but the last are empty.
   */
  lemma PickedIsCoerced(payload: Json)
    ensures Picked(payload) == Some(CoerceEntries(payload)) <==> FittingIndex(payload)
  {
    if payload.JArray? {
      if AllObjects(payload.items) { AllObjectsKept(payload.items); }
    } else if payload.JObject? {
      StreamedWhenFit(payload.members);
      if SkillsFit(payload.members) { StreamedAgainstCoerced(payload.members); }
    }
  }

  /**
   * A fitting index without long numbers among its members is read exactly as whole-document parsing
   * followed by the coercion: for every smooth split of the file, and for every split at all if its
   * text is tight.
   */
  lemma IndexRead(t: string, chunks: Chunks)
    requires LoadDocument(t).Got? && chunks.text == t && (Smooth(chunks) || TightText(t))
    requires FittingIndex(LoadDocument(t).value) && ShortNumbers(LoadDocument(t).value)
    ensures Returned(ReadTop(chunks)) == Some(CoerceEntries(LoadDocument(t).value))
  {
    hide ReadTop, Picked, NoLongNumbers, TightText, FittingIndex;
    PickedIsCoerced(LoadDocument(t).value);
    if Smooth(chunks) {
      SmoothDocumentRead(t, chunks);
    } else {
      DocumentReadIff(t);
    }
  }

  lemma SmoothDocumentRead(t: string, chunks: Chunks)
    requires LoadDocument(t).Got? && chunks.text == t && Smooth(chunks) && ShortNumbers(LoadDocument(t).value)
    requires Picked(LoadDocument(t).value).Some?
    ensures Returned(ReadTop(chunks)) == Picked(LoadDocument(t).value)
  {
    hide ReadTop, Streamed;
    var payload := LoadDocument(t).value;
    if payload.JArray? {
      ArrayDocumentRead(t, payload.items, chunks);
    } else {
      ObjectDocumentRead(t, payload.members);
    }
  }

  /** The whole text of a document in one chunk. */
  lemma OneChunk(t: string) returns (chunks: Chunks)
    requires LoadDocument(t).Got?
    ensures chunks.text == t
  {
    ValueIsVisible(t, SkipJson(t, 0));
    var cuts := [0, |t|];
    assert forall i: nat :: i < 2 ==> StepsUp(cuts, i);
    chunks := Split(t, cuts);
  }

  /**
   * A valid document is read as whole-document parsing followed by the coercion for every split of the
   * file exactly when it is a fitting index, its text is tight, and it has no long numbers among its members.
   */
  lemma IndexReadIff(t: string)
    requires LoadDocument(t).Got?
    ensures (forall chunks: Chunks :: chunks.text == t ==>
        Returned(ReadTop(chunks)) == Some(CoerceEntries(LoadDocument(t).value))) <==>
      (FittingIndex(LoadDocument(t).value) && TightText(t) && ShortNumbers(LoadDocument(t).value))
  {
    hide ReadTop, ReadText, Picked, NoLongNumbers, TightText, FittingIndex, CoerceEntries;
    PickedIsCoerced(LoadDocument(t).value);
    DocumentReadIff(t);
    ReadTextPicks(t);
    var chunks := OneChunk(t);
    NeverOtherEntries(chunks);
  }
}
