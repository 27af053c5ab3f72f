/** Reading a complete text member by member, against the decoded document. */
module JsonMembers {
  import opened Prelude
  import opened JsonDecoder
  import opened JsonPrefix
  import opened JsonStream
  import opened JsonText
  import opened JsonChunking

  /** What streaming over the members yields: every "skills" array counts, and each must hold objects only. */
  function Streamed(members: seq<Member>): Option<seq<Json>> {
    if members == [] then Some([])
    else
      var m := members[0];
      var rest := Streamed(members[1..]);
      if m.key != SKILLS then rest
      else if m.value.JArray? then
        if AllObjects(m.value.items) && rest.Some? then Some(m.value.items + rest.value) else None
      else if |members| == 1 then Some([]) else None
  }

  // ---- white space and first characters ----

  lemma {:induction false} SpaceThenSpace(t: string, i: nat, k: nat)
    requires i <= |t| && k == SkipJson(t, i)
    ensures SkipSpace(t, i) == SkipSpace(t, k)
    decreases |t| - i
  {
    if i < k { SpaceThenSpace(t, i + 1, k); }
  }

  lemma SkipAgrees(t: string, i: nat)
    requires i <= |t| && (SkipJson(t, i) < |t| ==> !IsSpace(t[SkipJson(t, i)]))
    ensures SkipSpace(t, i) == SkipJson(t, i)
  {
    SpaceThenSpace(t, i, SkipJson(t, i));
  }

  lemma AfterElementIsVisible(t: string, e: nat, closer: char)
    requires e <= |t| && !AfterElement(t, e, closer).Neither? && (closer == ']' || closer == '}')
    ensures SkipSpace(t, e) == SkipJson(t, e) < |t|
    ensures t[SkipSpace(t, e)] == if AfterElement(t, e, closer).Closed? then closer else ','
  {
    SkipAgrees(t, e);
  }

  // ---- arrays ----

  lemma TextArraySkips(t: string, i: nat, j: nat)
    requires i <= |t| && j <= |t| && SkipSpace(t, i) == SkipSpace(t, j)
    ensures TextArray(t, i) == TextArray(t, j)
  {
    assert TextArrayRound(t, i) == TextArrayRound(t, j);
  }

  function ArrayResult(items: seq<Json>, end: nat): Whole {
    if AllObjects(items) then Whole(items, end) else Broken
  }

  lemma ArrayResultStep(v: Json, rest: seq<Json>, end: nat)
    ensures ArrayResult([v] + rest, end) == if v.JObject? then Joined([v], ArrayResult(rest, end)) else Broken
  {
    var items := [v] + rest;
    if v.JObject? && AllObjects(rest) {
      assert forall i :: 0 <= i < |items| ==> items[i].JObject?;
    }
    if AllObjects(items) {
      assert items[0] == v;
      assert forall i :: 0 <= i < |rest| ==> rest[i] == items[i + 1];
    }
  }

  lemma TextArrayAfter(t: string, e: nat)
    requires e <= |t| && !AfterElement(t, e, ']').Neither?
    requires AfterElement(t, e, ']').More? ==> ParseValue(t, AfterElement(t, e, ']').start).Got?
    ensures var next := AfterElement(t, e, ']');
      TextArray(t, e) == if next.Closed? then Whole([], next.end) else TextArray(t, next.start)
  {
    var next := AfterElement(t, e, ']');
    AfterElementIsVisible(t, e, ']');
    var j := SkipSpace(t, e);
    if next.More? {
      SpaceThenSpace(t, j + 1, next.start);
      TextArraySkips(t, j + 1, next.start);
      assert TextArrayRound(t, e) == Onward([], j + 1);
      JoinedNothing(TextArray(t, j + 1));
    }
  }

  lemma {:induction false} ElementsRead(t: string, i: nat)
    requires i <= |t| && ParseElements(t, i).Got?
    ensures TextArray(t, i) == ArrayResult(ParseElements(t, i).value, ParseElements(t, i).end)
    decreases |t| - i
  {
    ValueIsVisible(t, i);
    var v, e := ParseValue(t, i).value, ParseValue(t, i).end;
    var next := AfterElement(t, e, ']');
    assert TextArrayRound(t, i) == if v.JObject? then Onward([v], e) else Halt(Broken);
    TextArrayAfter(t, e);
    if next.More? {
      ElementsRead(t, next.start);
      var rest := ParseElements(t, next.start);
      ArrayResultStep(v, rest.value, rest.end);
    } else {
      ArrayResultStep(v, [], next.end);
      assert [v] + [] == [v];
    }
  }

  lemma ArrayRead(t: string, i: nat)
    requires i <= |t| && ParseArray(t, SkipJson(t, i)).Got?
    ensures TextArray(t, i) == ArrayResult(ParseArray(t, SkipJson(t, i)).value, ParseArray(t, SkipJson(t, i)).end)
  {
    var j := SkipJson(t, i);
    if t[j] == ']' {
      SkipAgrees(t, i);
    } else {
      ValueIsVisible(t, j);
      SkipAgrees(t, i);
      TextArraySkips(t, i, j);
      ElementsRead(t, j);
    }
  }

  // ---- objects ----

  lemma TextObjectSkips(t: string, i: nat, j: nat)
    requires i <= |t| && j <= |t| && SkipSpace(t, i) == SkipSpace(t, j)
    ensures TextObject(t, i) == TextObject(t, j)
    ensures NoMultiDigit(t, i) == NoMultiDigit(t, j)
  {
    assert TextReadKey(t, i) == TextReadKey(t, j);
    assert TextObjectRound(t, i) == TextObjectRound(t, j);
  }

  lemma KeyRead(t: string, i: nat)
    requires i <= |t| && ParseKey(t, i).Got? && ParseKey(t, i).end < |t| && !IsSpace(t[ParseKey(t, i).end])
    ensures TextReadKey(t, i).KeyAt? && TextReadKey(t, i).codes == ParseKey(t, i).value
    ensures SkipSpace(t, TextReadKey(t, i).start) == ParseKey(t, i).end
  {
    var e := ScanString(t, i + 1).end;
    var j := SkipJson(t, e);
    assert SkipSpace(t, i) == i;
    SkipAgrees(t, e);
    SkipAgrees(t, j + 1);
  }

  /** What the loop does with a member: keep the objects of a "skills" array, drop any other value. */
  function MemberRoundText(t: string, m: Member, start: nat, e: nat): TextRound
    requires start < e <= |t|
  {
    if m.key != SKILLS then TextAfter(t, [], e)
    else if m.value.JArray? then TextAfterArray(t, start, ArrayResult(m.value.items, e))
    else Onward([], e)
  }

  lemma ValueRead(t: string, pos: nat, m: Member, start: nat, e: nat)
    requires pos <= |t| && SkipSpace(t, pos) == start && ParseValue(t, start) == Got(m.value, e)
    ensures m.key != SKILLS ==> TextOtherRound(t, pos) == MemberRoundText(t, m, start, e)
    ensures m.key == SKILLS ==> TextSkillsRound(t, pos) == MemberRoundText(t, m, start, e)
  {
    ValueKind(t, start);
    if t[start] == '[' { ArrayRead(t, start + 1); }
  }

  lemma MemberRead(t: string, i: nat, m: Member, start: nat, e: nat)
    requires i <= |t| && ParseKey(t, i) == Got(m.key, start) && ParseValue(t, start) == Got(m.value, e)
    ensures TextObjectRound(t, i) == MemberRoundText(t, m, start, e)
    ensures MemberClean(t, i) == !LongNumber(m.value)
  {
    ValueIsVisible(t, start);
    KeyRead(t, i);
    ValueRead(t, TextReadKey(t, i).start, m, start, e);
  }

  lemma NoValueAtComma(t: string, j: nat)
    requires j < |t| && t[j] == ','
    ensures ParseValue(t, j).Bad?
  {
    if ParseValue(t, j).Got? { ValueIsVisible(t, j); }
  }

  function ObjectResult(members: seq<Member>, end: nat): Whole {
    match Streamed(members)
    case Some(entries) => Whole(entries, end)
    case None => Broken
  }

  /** What one member contributes; `last` says whether the brace follows it. */
  function OneMember(m: Member, last: bool, rest: Whole): Whole {
    if m.key != SKILLS then rest
    else if m.value.JArray? then if AllObjects(m.value.items) then Joined(m.value.items, rest) else Broken
    else if last then rest else Broken
  }

  lemma ObjectResultStep(m: Member, rest: seq<Member>, end: nat)
    ensures ObjectResult([m] + rest, end) == OneMember(m, rest == [], ObjectResult(rest, end))
  {
    assert ([m] + rest)[1..] == rest;
  }

  lemma TextAfterRead(t: string, entries: seq<Json>, e: nat)
    requires e <= |t| && !AfterElement(t, e, '}').Neither?
    ensures var next, j := AfterElement(t, e, '}'), SkipSpace(t, e);
      j < |t| &&
      (next.Closed? ==> TextAfter(t, entries, e) == Halt(Whole(entries, next.end))) &&
      (next.More? ==> TextAfter(t, entries, e) == Onward(entries, j + 1) && next.start == SkipJson(t, j + 1))
  {
    AfterElementIsVisible(t, e, '}');
  }

  /** Directly after a "skills" member that is no array only the closing brace is accepted. */
  lemma NoCommaAllowed(t: string, e: nat)
    requires e <= |t| && !AfterElement(t, e, '}').Neither?
    ensures var next := AfterElement(t, e, '}');
      TextObject(t, e) == if next.Closed? then Whole([], next.end) else Broken
  {
    AfterElementIsVisible(t, e, '}');
    var j := SkipSpace(t, e);
    if t[j] == ',' { NoValueAtComma(t, j); }
    assert TextReadKey(t, e) == if t[j] == '}' then EndAt(j + 1) else NoTextKey;
  }

  /** One member read by the loop, and the comma or brace after it. */
  lemma MemberRound(t: string, i: nat, m: Member, start: nat, e: nat)
    requires i <= |t| && ParseKey(t, i) == Got(m.key, start) && ParseValue(t, start) == Got(m.value, e)
    requires !AfterElement(t, e, '}').Neither?
    ensures var next := AfterElement(t, e, '}');
      var after := if next.Closed? then Whole([], next.end) else TextObject(t, next.start);
      TextObject(t, i) == OneMember(m, next.Closed?, after)
  {
    var next := AfterElement(t, e, '}');
    MemberRead(t, i, m, start, e);
    assert TextObject(t, i) == RoundResult(t, MemberRoundText(t, m, start, e));
    if m.key == SKILLS && !m.value.JArray? {
      NoCommaAllowed(t, e);
      JoinedNothing(TextObject(t, e));
    } else {
      MemberGoesOn(t, if m.key == SKILLS then m.value.items else [], e);
      JoinedNothing(if next.Closed? then Whole([], next.end) else TextObject(t, next.start));
    }
  }

  function RoundResult(t: string, r: TextRound): Whole
    requires r.Onward? ==> r.pos <= |t|
  {
    match r
    case Halt(outcome) => outcome
    case Onward(entries, pos) => Joined(entries, TextObject(t, pos))
  }

  lemma MemberCloses(t: string, entries: seq<Json>, e: nat)
    requires e <= |t| && AfterElement(t, e, '}').Closed?
    ensures RoundResult(t, TextAfter(t, entries, e)) == Joined(entries, Whole([], AfterElement(t, e, '}').end))
  {
    TextAfterRead(t, entries, e);
    assert entries + [] == entries;
  }

  lemma MemberContinues(t: string, entries: seq<Json>, e: nat, j: nat, start: nat)
    requires e <= |t| && AfterElement(t, e, '}') == More(start) && j == SkipSpace(t, e)
    ensures j < |t| && start == SkipJson(t, j + 1) && TextAfter(t, entries, e) == Onward(entries, j + 1)
  {
    TextAfterRead(t, entries, e);
  }

  lemma MemberJoins(t: string, entries: seq<Json>, r: TextRound, j: nat, start: nat)
    requires r == Onward(entries, j + 1) && j < |t| && start <= |t| && TextObject(t, j + 1) == TextObject(t, start)
    ensures RoundResult(t, r) == Joined(entries, TextObject(t, start))
  {
  }

  /** What an element and the comma or brace after it lead to. */
  lemma MemberGoesOn(t: string, entries: seq<Json>, e: nat)
    requires e <= |t| && !AfterElement(t, e, '}').Neither?
    ensures var next := AfterElement(t, e, '}');
      RoundResult(t, TextAfter(t, entries, e)) ==
      Joined(entries, if next.Closed? then Whole([], next.end) else TextObject(t, next.start))
  {
    var next := AfterElement(t, e, '}');
    if next.More? {
      var j := SkipSpace(t, e);
      MemberContinues(t, entries, e, j, next.start);
      TextSpaceAfterComma(t, j, next.start);
      MemberJoins(t, entries, TextAfter(t, entries, e), j, next.start);
    } else {
      MemberCloses(t, entries, e);
    }
  }

  lemma JoinedNothing(w: Whole)
    ensures Joined([], w) == w
  {
    assert w.Whole? ==> [] + w.entries == w.entries;
  }

  lemma TextSpaceAfterComma(t: string, j: nat, start: nat)
    requires j < |t| && start == SkipJson(t, j + 1)
    ensures TextObject(t, j + 1) == TextObject(t, start) && NoMultiDigit(t, j + 1) == NoMultiDigit(t, start)
  {
    SpaceThenSpace(t, j + 1, start);
    TextObjectSkips(t, j + 1, start);
  }

  lemma {:induction false} MembersRead(t: string, i: nat)
    requires i <= |t| && ParseMembers(t, i).Got?
    ensures TextObject(t, i) == ObjectResult(ParseMembers(t, i).value, ParseMembers(t, i).end)
    decreases |t| - i
  {
    var start := ParseKey(t, i).end;
    var m := Member(ParseKey(t, i).value, ParseValue(t, start).value);
    var e := ParseValue(t, start).end;
    var next := AfterElement(t, e, '}');
    MemberRound(t, i, m, start, e);
    if next.More? {
      MembersRead(t, next.start);
      var rest := ParseMembers(t, next.start);
      ObjectResultStep(m, rest.value, rest.end);
    } else {
      ObjectResultStep(m, [], next.end);
      assert [m] + [] == [m];
    }
  }

  lemma ObjectRead(t: string, i: nat)
    requires i <= |t| && ParseObject(t, SkipJson(t, i)).Got?
    ensures TextObject(t, i) == ObjectResult(ParseObject(t, SkipJson(t, i)).value, ParseObject(t, SkipJson(t, i)).end)
  {
    var j := SkipJson(t, i);
    if t[j] == '}' {
      SkipAgrees(t, i);
    } else {
      SpaceThenSpace(t, i, j);
      TextObjectSkips(t, i, j);
      MembersRead(t, j);
    }
  }

  // ---- documents ----

  /** What the reader makes of a decoded document. */
  function Picked(payload: Json): Option<seq<Json>> {
    match payload
    case JArray(items) => if AllObjects(items) then Some(items) else None
    case JObject(members) => Streamed(members)
    case _ => None
  }

  /** On every valid document, reading the complete text is picking from the decoded document. */
  lemma ReadTextPicks(t: string)
    requires LoadDocument(t).Got?
    ensures ReadText(t) == Picked(LoadDocument(t).value)
  {
    hide TextArray, TextObject;
    var i := SkipJson(t, 0);
    ValueIsVisible(t, i);
    SkipAgrees(t, 0);
    if t[i] == '[' {
      ArrayRead(t, i + 1);
    } else if t[i] == '{' {
      ObjectRead(t, i + 1);
    }
  }

  // ---- numbers among the members of a document ----

  predicate NoLongNumbers(members: seq<Member>) {
    forall i :: 0 <= i < |members| ==> !LongNumber(members[i].value)
  }

  lemma NoLongNumbersStep(m: Member, rest: seq<Member>)
    ensures NoLongNumbers([m] + rest) == (!LongNumber(m.value) && NoLongNumbers(rest))
  {
    var members := [m] + rest;
    assert members[0] == m && forall i :: 0 <= i < |rest| ==> rest[i] == members[i + 1];
  }

  lemma NoMultiDigitStep(t: string, i: nat, r: TextRound)
    requires i <= |t| && TextObjectRound(t, i) == r
    ensures NoMultiDigit(t, i) == (MemberClean(t, i) && (r.Halt? || NoMultiDigit(t, r.pos)))
  {
  }

  lemma CleanAtBrace(t: string, e: nat)
    requires e <= |t| && AfterElement(t, e, '}').Closed?
    ensures NoMultiDigit(t, e)
  {
    AfterElementIsVisible(t, e, '}');
    assert TextReadKey(t, e) == EndAt(SkipSpace(t, e) + 1);
  }

  lemma CleanAfter(t: string, entries: seq<Json>, e: nat)
    requires e <= |t| && !AfterElement(t, e, '}').Neither?
    ensures var r, next := TextAfter(t, entries, e), AfterElement(t, e, '}');
      (r.Halt? || NoMultiDigit(t, r.pos)) == (next.Closed? || NoMultiDigit(t, next.start))
  {
    var next := AfterElement(t, e, '}');
    if next.More? {
      var j := SkipSpace(t, e);
      MemberContinues(t, entries, e, j, next.start);
      TextSpaceAfterComma(t, j, next.start);
    } else {
      TextAfterRead(t, entries, e);
    }
  }

  lemma MemberRoundClean(t: string, i: nat, m: Member, start: nat, e: nat)
    requires i <= |t| && ParseKey(t, i) == Got(m.key, start) && ParseValue(t, start) == Got(m.value, e)
    requires !AfterElement(t, e, '}').Neither?
    requires m.key == SKILLS ==>
      if m.value.JArray? then AllObjects(m.value.items) else AfterElement(t, e, '}').Closed?
    ensures var next := AfterElement(t, e, '}');
      NoMultiDigit(t, i) == (!LongNumber(m.value) && (next.Closed? || NoMultiDigit(t, next.start)))
  {
    MemberRead(t, i, m, start, e);
    NoMultiDigitStep(t, i, MemberRoundText(t, m, start, e));
    if m.key == SKILLS && !m.value.JArray? {
      CleanAtBrace(t, e);
    } else {
      CleanAfter(t, if m.key == SKILLS then m.value.items else [], e);
    }
  }

  lemma {:induction false} MembersClean(t: string, i: nat)
    requires i <= |t| && ParseMembers(t, i).Got? && Streamed(ParseMembers(t, i).value).Some?
    ensures NoMultiDigit(t, i) == NoLongNumbers(ParseMembers(t, i).value)
    decreases |t| - i
  {
    var start := ParseKey(t, i).end;
    var m := Member(ParseKey(t, i).value, ParseValue(t, start).value);
    var next := AfterElement(t, ParseValue(t, start).end, '}');
    var rest := if next.More? then ParseMembers(t, next.start).value else [];
    assert ParseMembers(t, i).value == [m] + rest;
    assert ([m] + rest)[1..] == rest;
    MemberRoundClean(t, i, m, start, ParseValue(t, start).end);
    NoLongNumbersStep(m, rest);
    if next.More? {
      MembersClean(t, next.start);
    }
  }

  lemma DocumentStart(t: string)
    requires LoadDocument(t).Got?
    ensures StartsWith(t, '[') == LoadDocument(t).value.JArray?
    ensures StartsWith(t, '{') == LoadDocument(t).value.JObject?
  {
    ValueIsVisible(t, SkipJson(t, 0));
    SkipAgrees(t, 0);
  }

  lemma ObjectClean(t: string, i: nat)
    requires i <= |t| && ParseObject(t, SkipJson(t, i)).Got? && Streamed(ParseObject(t, SkipJson(t, i)).value).Some?
    ensures NoMultiDigit(t, i) == NoLongNumbers(ParseObject(t, SkipJson(t, i)).value)
  {
    var j := SkipJson(t, i);
    if t[j] == '}' {
      SkipAgrees(t, i);
      assert TextReadKey(t, i) == EndAt(j + 1);
    } else {
      MembersClean(t, j);
      SpaceThenSpace(t, i, j);
      TextObjectSkips(t, i, j);
    }
  }
}
