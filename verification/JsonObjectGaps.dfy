/** Objects under every chunking: how much white space the reader tolerates, and where. */
module JsonObjectGaps {
  import opened Prelude
  import opened JsonDecoder
  import opened JsonPrefix
  import opened JsonStream
  import opened JsonText
  import opened JsonChunking
  import opened JsonMembers
  import opened JsonSafety
  import opened JsonCuts
  import opened JsonGaps

  // ---- the condition ----

  predicate NextIs(t: string, pos: nat, c: char)
    requires pos <= |t|
  {
    var p := SkipSpace(t, pos);
    p < |t| && t[p] == c
  }

  /** If `c` comes next, at most `k` white-space characters stand before it. */
  predicate Near(t: string, pos: nat, c: char, k: nat)
    requires pos <= |t|
  {
    NextIs(t, pos, c) ==> SkipSpace(t, pos) <= pos + k
  }

  /** Behind a member whose end the reader looks for: a missed brace is looked for once more. */
  predicate TightAfter(t: string, pos: nat)
    requires pos <= |t|
  {
    Near(t, pos, ',', 1) && Near(t, pos, '}', 3)
  }

  /** Behind a "skills" value that was decoded in one go, the next key or the brace is expected at once. */
  predicate TightEnd(t: string, pos: nat)
    requires pos <= |t|
  {
    !NextIs(t, pos, ',') && Near(t, pos, '}', 1)
  }

  /** The array at `q` may be decoded in one go. */
  predicate HiddenFits(t: string, q: nat)
    requires q <= |t|
  {
    ParseValue(t, q).Got? && TightEnd(t, ParseValue(t, q).end)
  }

  /** The array whose bracket is at `q` may be read entry by entry. */
  predicate StreamedFits(t: string, q: nat)
    requires q < |t|
  {
    TightArray(t, q + 1) &&
    match TextArray(t, q + 1)
    case Broken => true
    case Whole(_, end) => TightAfter(t, end)
  }

  /** The value of "skills" from behind the colon on; two white-space characters can hide a bracket. */
  predicate TightSkills(t: string, pos: nat)
    requires pos <= |t|
  {
    var q := SkipSpace(t, pos);
    NextIs(t, pos, '[') ==> StreamedFits(t, q) && (q <= pos + 1 || HiddenFits(t, q))
  }

  predicate TightOther(t: string, pos: nat)
    requires pos <= |t|
  {
    match ParseValue(t, SkipSpace(t, pos))
    case Bad => true
    case Got(_, end) => TightAfter(t, end)
  }

  /** The end of the string that is read as a key. */
  function KeyEnd(t: string, pos: nat): (e: nat)
    requires pos <= |t| && TextReadKey(t, pos).KeyAt?
    ensures SkipSpace(t, pos) < e < TextReadKey(t, pos).start
    ensures SkipSpace(t, e) + 1 == TextReadKey(t, pos).start
  {
    ParseValue(t, SkipSpace(t, pos)).end
  }

  /**
   * The member at `pos` tolerates every chunking: at most two white-space characters before its
   * colon, and little enough white space around its value; or one before the closing brace.
   */
  predicate TightMember(t: string, pos: nat)
    requires pos <= |t|
  {
    match TextReadKey(t, pos)
    case NoTextKey => true
    case EndAt(_) => SkipSpace(t, pos) <= pos + 1
    case KeyAt(codes, start) =>
      SkipSpace(t, KeyEnd(t, pos)) <= KeyEnd(t, pos) + 2 &&
      if codes == SKILLS then TightSkills(t, start) else TightOther(t, start)
  }

  predicate TightObject(t: string, pos: nat)
    requires pos <= |t|
    decreases |t| - pos
  {
    TightMember(t, pos) &&
    match TextObjectRound(t, pos)
    case Halt(_) => true
    case Onward(_, next) => TightObject(t, next)
  }

  // ---- tight objects ----

  /** A look ends in the buffer, and two looks get over three white-space characters. */
  lemma LookGetsOn(a: Chunks, n: nat, pos: nat)
    requires At(a, n, pos) && SkipSpace(a.text, pos) < |a.text|
    ensures var s, q := Look(a, n, pos), SkipSpace(a.text, pos);
      s.pos < a.cuts[s.read] && SkipSpace(a.text, s.pos) == q &&
      (s.pos < q ==> pos < s.pos && IsSpace(a.text[s.pos])) &&
      (s.pos < q && pos < a.cuts[n] ==> pos + 1 < s.pos)
  {
    var q := SkipSpace(a.text, pos);
    SkipOnceOn(a, n, pos);
    var once := SkipOnce(a, n, pos);
    SkipOnceOn(a, once.read, once.pos);
    SpotInText(a, n, pos, Look(a, n, pos));
  }

  lemma ColonTight(a: Chunks, codes: seq<nat>, k: nat, e: nat)
    requires At(a, k, e) && NextIs(a.text, e, ':') && SkipSpace(a.text, e) <= e + 2
    ensures SameKey(Colon(a, codes, k, e), TextColon(a.text, codes, e))
  {
    LookGetsOn(a, k, e);
    var s := Look(a, k, e);
    SkipOnceOn(a, s.read, s.pos);
  }

  lemma KeyTight(a: Chunks, n: nat, pos: nat)
    requires At(a, n, pos) && TightMember(a.text, pos) && !TextReadKey(a.text, pos).NoTextKey?
    ensures SameKey(ReadKey(a, n, pos), TextReadKey(a.text, pos))
  {
    var t, p := a.text, SkipSpace(a.text, pos);
    if TextReadKey(t, pos).EndAt? {
      NarrowGapSeen(a, n, pos);
    } else {
      LookGetsOn(a, n, pos);
      var s := Look(a, n, pos);
      ValueFromChunks(a, s.read, s.pos);
      var r := DecodeValue(a, s.read, s.pos);
      assert t[p] != '}';
      ColonTight(a, TextReadKey(t, pos).codes, r.read, r.end);
    }
  }

  /**
   * Reading on after round `x` comes to what reading on after round `r` comes to: the same character
   * is next, or the closing brace was missed and is found by the next look.
   */
  ghost predicate OnTrack(a: Chunks, x: Round, r: TextRound) {
    match r
    case Halt(Broken) => false
    case Halt(Whole(entries, end)) =>
      SameRound(x, r) || (x.GoOn? && x.entries == entries && At(a, x.read, x.pos) && EndsAt(a, x.read, x.pos, end))
    case Onward(entries, p) =>
      x.GoOn? && x.entries == entries && x.pos <= |a.text| && p <= |a.text| &&
      SkipSpace(a.text, x.pos) == SkipSpace(a.text, p) && (x.pos == p || !NextIs(a.text, p, '}'))
  }

  ghost predicate EndsAt(a: Chunks, n: nat, pos: nat, end: nat)
    requires At(a, n, pos)
  {
    ReadObject(a, n, pos).Entries? && ReadObject(a, n, pos).entries == [] && ReadObject(a, n, pos).end == end
  }

  /** The brace that the next look shows ends the object. */
  lemma BraceEnds(a: Chunks, n: nat, pos: nat)
    requires At(a, n, pos) && NextIs(a.text, pos, '}') && Look(a, n, pos).pos == SkipSpace(a.text, pos)
    ensures EndsAt(a, n, pos, SkipSpace(a.text, pos) + 1)
  {
    LookGetsOn(a, n, pos);
    var s := Look(a, n, pos);
    assert ReadKey(a, n, pos) == Ended(s.pos + 1, s.read);
    assert ObjectRound(a, n, pos) == Stop(Entries([], s.pos + 1, s.read));
  }

  lemma AfterBraceOnTrack(a: Chunks, entries: seq<Json>, n: nat, pos: nat)
    requires At(a, n, pos) && NextIs(a.text, pos, '}') && SkipSpace(a.text, pos) <= pos + 3
    ensures OnTrack(a, AfterMember(a, entries, n, pos), TextAfter(a.text, entries, pos))
  {
    LookGetsOn(a, n, pos);
    var s, q := Look(a, n, pos), SkipSpace(a.text, pos);
    if s.pos < q {
      LookGetsOn(a, s.read, s.pos);
      BraceEnds(a, s.read, s.pos);
    }
  }

  lemma AfterOnTrack(a: Chunks, entries: seq<Json>, n: nat, pos: nat)
    requires At(a, n, pos) && TightAfter(a.text, pos)
    ensures OnTrack(a, AfterMember(a, entries, n, pos), TextAfter(a.text, entries, pos))
  {
    hide ReadObject;
    if NextIs(a.text, pos, '}') {
      AfterBraceOnTrack(a, entries, n, pos);
    } else if NextIs(a.text, pos, ',') {
      NarrowGapSeen(a, n, pos);
    } else {
      SpotInText(a, n, pos, Look(a, n, pos));
    }
  }

  lemma OtherOnTrack(a: Chunks, n: nat, pos: nat)
    requires At(a, n, pos) && TightOther(a.text, pos) && !LongNumberAt(a.text, SkipSpace(a.text, pos))
    requires TextOtherRound(a.text, pos) != Halt(Broken)
    ensures OnTrack(a, OtherRound(a, n, pos), TextOtherRound(a.text, pos))
  {
    hide AfterMember, TextAfter, OnTrack;
    ValueFromChunks(a, n, pos);
    var r := DecodeValue(a, n, pos);
    ShortIsExact(a.text, SkipSpace(a.text, pos), r);
    AfterOnTrack(a, [], r.read, r.end);
  }

  /** The bracket is seen, and the array is read entry by entry. */
  lemma StreamedOnTrack(a: Chunks, s: Spot)
    requires At(a, s.read, s.pos) && Sees(a, s, '[') && StreamedFits(a.text, s.pos)
    requires TextSkillsArray(a.text, s.pos) != Halt(Broken)
    ensures OnTrack(a, SkillsArray(a, s), TextSkillsArray(a.text, s.pos))
  {
    hide ReadArray, TextArray, TightArray, AfterMember, TextAfter, OnTrack;
    SkillsStreams(a, s);
    TextSkillsStreams(a.text, s.pos);
    TightArraySame(a, s.read, s.pos + 1);
    var o := ReadArray(a, s.read, s.pos + 1);
    AfterOnTrack(a, o.entries, o.read, o.end);
  }

  lemma DecodedOnTrack(a: Chunks, items: seq<Json>, n: nat, pos: nat)
    requires At(a, n, pos) && TightEnd(a.text, pos)
    ensures OnTrack(a, GoOn(items, pos, n), TextAfter(a.text, items, pos))
  {
    if NextIs(a.text, pos, '}') {
      NarrowGapSeen(a, n, pos);
      BraceEnds(a, n, pos);
    }
  }

  /** The bracket at `q` is hidden behind white space, and the array is decoded in one go. */
  lemma HiddenOnTrack(a: Chunks, s: Spot, q: nat)
    requires At(a, s.read, s.pos) && s.pos < a.cuts[s.read] && !Sees(a, s, '[')
    requires q == SkipSpace(a.text, s.pos) && q < |a.text| && a.text[q] == '[' && HiddenFits(a.text, q)
    requires TextSkillsArray(a.text, q) != Halt(Broken)
    ensures OnTrack(a, SkillsValue(a, s), TextSkillsArray(a.text, q))
  {
    hide TextArray, TextAfter, OnTrack;
    ValueFromChunks(a, s.read, s.pos);
    ValueKind(a.text, q);
    ArrayRead(a.text, q + 1);
    TextSkillsStreams(a.text, q);
    var r := DecodeValue(a, s.read, s.pos);
    DecodedOnTrack(a, r.value.items, r.read, r.end);
  }

  lemma DroppedOnTrack(a: Chunks, s: Spot, q: nat)
    requires At(a, s.read, s.pos) && s.pos < a.cuts[s.read] && q == SkipSpace(a.text, s.pos)
    requires q < |a.text| && a.text[q] != '[' && !LongNumberAt(a.text, q)
    requires !Sees(a, s, '[') && TextSkillsValue(a.text, q) != Halt(Broken)
    ensures OnTrack(a, SkillsValue(a, s), TextSkillsValue(a.text, q))
  {
    ValueFromChunks(a, s.read, s.pos);
    ValueKind(a.text, q);
    ShortIsExact(a.text, q, DecodeValue(a, s.read, s.pos));
  }

  lemma SkillsOnTrack(a: Chunks, n: nat, pos: nat)
    requires At(a, n, pos) && TightSkills(a.text, pos) && !LongNumberAt(a.text, SkipSpace(a.text, pos))
    requires TextSkillsRound(a.text, pos) != Halt(Broken)
    ensures OnTrack(a, SkillsRound(a, n, pos), TextSkillsRound(a.text, pos))
  {
    hide OnTrack, StreamedFits, HiddenFits, TextSkillsArray, SkillsArray, SkillsValue;
    var q := SkipSpace(a.text, pos);
    assert q < |a.text|;
    LookGetsOn(a, n, pos);
    var s := Look(a, n, pos);
    if Sees(a, s, '[') {
      StreamedOnTrack(a, s);
    } else if a.text[q] == '[' {
      if q <= pos + 1 { NarrowGapSeen(a, n, pos); }
      HiddenOnTrack(a, s, q);
    } else {
      DroppedOnTrack(a, s, q);
    }
  }

  lemma RoundOnTrack(a: Chunks, n: nat, pos: nat)
    requires At(a, n, pos) && TightMember(a.text, pos) && MemberClean(a.text, pos)
    requires TextObjectRound(a.text, pos) != Halt(Broken)
    ensures OnTrack(a, ObjectRound(a, n, pos), TextObjectRound(a.text, pos))
  {
    hide ReadKey, TextReadKey, SkillsRound, OtherRound, TextSkillsRound, TextOtherRound, ReadObject;
    KeyTight(a, n, pos);
    var key := ReadKey(a, n, pos);
    if key.Key? {
      if key.codes == SKILLS { SkillsOnTrack(a, key.read, key.start); } else { OtherOnTrack(a, key.read, key.start); }
    }
  }

  /** Where no brace comes next, it does not matter how much of the white space has been skipped. */
  lemma TightObjectSkips(t: string, i: nat, j: nat)
    requires i <= |t| && j <= |t| && SkipSpace(t, i) == SkipSpace(t, j) && !NextIs(t, i, '}')
    ensures TightObject(t, i) == TightObject(t, j)
  {
    assert TextReadKey(t, i) == TextReadKey(t, j) && !TextReadKey(t, i).EndAt?;
    assert TextObjectRound(t, i) == TextObjectRound(t, j);
  }

  /** A tight object without long numbers is read alike whatever the chunks. */
  lemma {:induction false} TightObjectSame(a: Chunks, n: nat, pos: nat)
    requires At(a, n, pos) && TextObject(a.text, pos).Whole?
    requires TightObject(a.text, pos) && NoMultiDigit(a.text, pos)
    ensures Same(ReadObject(a, n, pos), TextObject(a.text, pos))
    decreases |a.text| - pos
  {
    RoundOnTrack(a, n, pos);
    var t, x, r := a.text, ObjectRound(a, n, pos), TextObjectRound(a.text, pos);
    if r.Onward? {
      if x.pos != r.pos {
        TextObjectSkips(t, x.pos, r.pos);
        TightObjectSkips(t, r.pos, x.pos);
      }
      TightObjectSame(a, x.read, x.pos);
    } else if x.GoOn? {
      assert x.entries + [] == x.entries;
    }
  }

  // ---- chunkings that break the others ----

  function TwoInside(t: string, c: nat): Chunks
    requires 0 < c && c + 2 < |t|
  {
    var cuts := [0, c, c + 1, c + 2, |t|];
    assert forall i: nat :: i < 5 ==> StepsUp(cuts, i);
    Split(t, cuts)
  }

  function ThreeInside(t: string, c: nat): Chunks
    requires 0 < c && c + 3 < |t|
  {
    var cuts := [0, c, c + 1, c + 2, c + 3, |t|];
    assert forall i: nat :: i < 6 ==> StepsUp(cuts, i);
    Split(t, cuts)
  }

  /** One character in a chunk of its own from `c` on, and another from `e` on. */
  function OneInTwoPlaces(t: string, c: nat, e: nat): Chunks
    requires 0 < c && c + 1 < e && e + 1 < |t|
  {
    var cuts := [0, c, c + 1, e, e + 1, |t|];
    assert forall i: nat :: i < 6 ==> StepsUp(cuts, i);
    Split(t, cuts)
  }

  /** `k` white-space characters come next. */
  predicate Spaces(t: string, pos: nat, k: nat) {
    pos + k <= |t| && forall i :: pos <= i < pos + k ==> IsSpace(t[i])
  }

  lemma GapSpaces(t: string, pos: nat, k: nat)
    requires pos <= |t| && pos + k <= SkipSpace(t, pos)
    ensures Spaces(t, pos, k)
  {
    SkippedIsSpace(t, pos, |t|);
  }

  /** From a chunk boundary on, a look sees no more than the white space after a chunk of one character. */
  lemma LookStuck(a: Chunks, n: nat, pos: nat)
    requires n + 2 <= Count(a) && a.cuts[n] == pos && a.cuts[n + 1] == pos + 1 && Spaces(a.text, pos, 1)
    ensures Look(a, n, pos) == Spot(pos + 1, n + 2)
  {
    assert a.cuts[n + 1] < a.cuts[n + 2] by { assert StepsUp(a.cuts, n + 1); }
    assert SkipOnce(a, n, pos) == Spot(pos, n + 1);
    assert SkipTo(a.text, pos + 1, pos + 1) == pos + 1;
  }

  /** Likewise from one character before a boundary on. */
  lemma LookStuckLater(a: Chunks, n: nat, pos: nat)
    requires n + 2 <= Count(a) && a.cuts[n] == pos + 1 && a.cuts[n + 1] == pos + 2 && Spaces(a.text, pos, 2)
    ensures Look(a, n, pos) == Spot(pos + 2, n + 2)
  {
    assert SkipTo(a.text, pos + 1, pos + 1) == pos + 1;
    assert SkipOnce(a, n, pos) == Spot(pos + 1, n + 1);
    assert SkipTo(a.text, pos + 2, pos + 2) == pos + 2;
  }

  /** White space instead of the brace: a key is expected, and there is none. */
  lemma BraceMissed(a: Chunks, n: nat, pos: nat)
    requires At(a, n, pos) && NextIs(a.text, pos, '}') && Look(a, n, pos).pos < SkipSpace(a.text, pos)
    ensures ReadObject(a, n, pos).Invalid?
  {
    LookGetsOn(a, n, pos);
    var s := Look(a, n, pos);
    ValueFromChunks(a, s.read, s.pos);
    NoValueAtCloser(a.text, SkipSpace(a.text, pos));
    assert ReadKey(a, n, pos) == NoKey;
    assert ObjectRound(a, n, pos) == Stop(Invalid);
  }

  /** A comma that was not taken as the end of a member is no key. */
  lemma CommaMissed(a: Chunks, n: nat, pos: nat)
    requires At(a, n, pos) && NextIs(a.text, pos, ',')
    ensures ReadObject(a, n, pos).Invalid?
  {
    hide ReadObject, TextObject;
    var q := SkipSpace(a.text, pos);
    TextObjectSkips(a.text, pos, q);
    TextObjectAt(a.text, q);
    ObjectSafe(a, n, pos);
  }

  /** Reading on after the round fails. */
  ghost predicate Fails(a: Chunks, x: Round) {
    match x
    case Stop(o) => o.Invalid?
    case GoOn(_, pos, n) => At(a, n, pos) && ReadObject(a, n, pos).Invalid?
  }

  lemma FailsRead(a: Chunks, n: nat, pos: nat)
    requires At(a, n, pos) && Fails(a, ObjectRound(a, n, pos))
    ensures ReadObject(a, n, pos).Invalid?
  {
  }

  // ---- too much white space behind a member ----

  /** A chunking in which what follows the member that ends at `e` is not recognized. */
  lemma LooseAfter(t: string, e: nat) returns (a: Chunks)
    requires 0 < e <= |t| && !TightAfter(t, e)
    ensures CutAt(a, t, e) && IsSpace(t[e]) && At(a, 1, e)
    ensures forall entries :: Fails(a, AfterMember(a, entries, 1, e))
  {
    hide ReadObject;
    var q := SkipSpace(t, e);
    if NextIs(t, e, ',') {
      a := OneInside(t, e);
      GapSpaces(t, e, 2);
      LookStuck(a, 1, e);
      SkipOn(t, e, e + 1);
      CommaMissed(a, 3, e + 1);
    } else {
      a := ThreeInside(t, e);
      GapSpaces(t, e, 4);
      LookStuck(a, 1, e);
      SkipOn(t, e, e + 1);
      LookStuckLater(a, 3, e + 1);
      BraceMissed(a, 3, e + 1);
    }
  }

  lemma LooseOther(t: string, pos: nat) returns (a: Chunks, c: nat)
    requires 0 < pos <= |t| && !TightOther(t, pos)
    ensures pos < c && CutAt(a, t, c) && At(a, 1, pos) && Fails(a, OtherRound(a, 1, pos))
  {
    hide ReadObject, AfterMember, TightAfter, Fails;
    c := ParseValue(t, SkipSpace(t, pos)).end;
    a := LooseAfter(t, c);
    DecodeWithin(a, t, c, pos);
  }

  lemma LooseStreamed(t: string, q: nat) returns (a: Chunks, c: nat)
    requires 0 < q < |t| && t[q] == '[' && !StreamedFits(t, q)
    ensures q < c && CutAt(a, t, c) && At(a, 1, q) && Sees(a, Spot(q, 1), '[') && Fails(a, SkillsArray(a, Spot(q, 1)))
  {
    hide ReadArray, TextArray, ReadObject, AfterMember, TightArray, TightAfter;
    if !TightArray(t, q + 1) {
      c := WideGapBreaks(t, q + 1);
      a := OneInside(t, c);
    } else {
      c := TextArray(t, q + 1).end;
      a := LooseAfter(t, c);
      ArrayWithin(a, t, c, q + 1);
    }
    SkillsStreams(a, Spot(q, 1));
  }

  // ---- a hidden bracket ----

  lemma DecodedFails(a: Chunks, s: Spot, q: nat)
    requires At(a, s.read, s.pos) && !Sees(a, s, '[') && q == SkipSpace(a.text, s.pos)
    requires ParseValue(a.text, q).Bad?
    ensures Fails(a, SkillsValue(a, s))
  {
    ValueFromChunks(a, s.read, s.pos);
  }

  lemma CommaAfterDecoded(a: Chunks, s: Spot, q: nat)
    requires At(a, s.read, s.pos) && !Sees(a, s, '[') && q == SkipSpace(a.text, s.pos) && q < |a.text| && a.text[q] == '['
    requires ParseValue(a.text, q).Got? && NextIs(a.text, ParseValue(a.text, q).end, ',')
    ensures Fails(a, SkillsValue(a, s))
  {
    hide ReadObject;
    ValueFromChunks(a, s.read, s.pos);
    ValueKind(a.text, q);
    var r := DecodeValue(a, s.read, s.pos);
    CommaMissed(a, r.read, r.end);
  }

  /** The array ends with the chunk in which it is found behind one more skip. */
  lemma DecodedByChunk(t: string, pos: nat, q: nat, e: nat, a: Chunks)
    requires 0 < pos <= |t| && pos + 1 < q == SkipSpace(t, pos) && q < |t|
    requires ParseValue(t, q).Got? && e == ParseValue(t, q).end && e + 1 < |t|
    requires a == OneInTwoPlaces(t, pos, e)
    ensures At(a, 3, pos + 1) && DecodeValue(a, 3, pos + 1) == Found(ParseValue(t, q).value, e, 3)
  {
    GapSpaces(t, pos, 2);
    SkipOn(t, pos, pos + 1);
    ValueRestricts(t[..e], t, q);
    SkipOnceOn(a, 3, pos + 1);
    assert SkipOnce(a, 3, pos + 1) == Spot(q, 3);
  }

  /** The brace behind that array is missed. */
  lemma BraceAfterDecoded(t: string, pos: nat, q: nat, e: nat, a: Chunks)
    requires 0 < pos <= |t| && pos + 1 < q == SkipSpace(t, pos) && q < |t| && t[q] == '['
    requires ParseValue(t, q).Got? && e == ParseValue(t, q).end && NextIs(t, e, '}') && e + 1 < SkipSpace(t, e)
    requires a == OneInTwoPlaces(t, pos, e)
    ensures At(a, 3, pos + 1) && Spaces(t, pos, 2) && Fails(a, SkillsValue(a, Spot(pos + 1, 3)))
  {
    hide ReadObject, DecodeValue;
    GapSpaces(t, pos, 2);
    ValueKind(t, q);
    DecodedByChunk(t, pos, q, e, a);
    GapSpaces(t, e, 2);
    LookStuck(a, 3, e);
    BraceMissed(a, 3, e);
  }

  lemma LooseHidden(t: string, pos: nat) returns (a: Chunks)
    requires 0 < pos <= |t| && NextIs(t, pos, '[') && pos + 1 < SkipSpace(t, pos) && !HiddenFits(t, SkipSpace(t, pos))
    ensures CutAt(a, t, pos) && IsSpace(t[pos]) && At(a, 1, pos) && Fails(a, SkillsRound(a, 1, pos))
  {
    hide ReadObject, SkillsValue, SkillsArray, Fails;
    var q := SkipSpace(t, pos);
    var w := ParseValue(t, q);
    GapSpaces(t, pos, 2);
    SkipOn(t, pos, pos + 1);
    if w.Got? && !NextIs(t, w.end, ',') {
      a := OneInTwoPlaces(t, pos, w.end);
      LookStuck(a, 1, pos);
      BraceAfterDecoded(t, pos, q, w.end, a);
    } else {
      a := OneInside(t, pos);
      LookStuck(a, 1, pos);
      if w.Got? { CommaAfterDecoded(a, Spot(pos + 1, 3), q); } else { DecodedFails(a, Spot(pos + 1, 3), q); }
    }
  }

  lemma LooseSkills(t: string, pos: nat) returns (a: Chunks, c: nat)
    requires 0 < pos <= |t| && !TightSkills(t, pos)
    ensures CutAt(a, t, c) && Inside(t, pos, c) && At(a, 1, pos) && Fails(a, SkillsRound(a, 1, pos))
  {
    hide ReadObject, StreamedFits, HiddenFits, SkillsArray, SkillsValue, Fails;
    var q := SkipSpace(t, pos);
    if !StreamedFits(t, q) {
      a, c := LooseStreamed(t, q);
      FirstChunk(a, t, c, pos);
    } else {
      a := LooseHidden(t, pos);
      c := pos;
    }
  }

  // ---- a loose member ----

  lemma LooseEnd(t: string, pos: nat) returns (a: Chunks)
    requires 0 < pos <= |t| && NextIs(t, pos, '}') && pos + 1 < SkipSpace(t, pos)
    ensures CutAt(a, t, pos) && IsSpace(t[pos]) && At(a, 1, pos) && ReadObject(a, 1, pos).Invalid?
  {
    a := OneInside(t, pos);
    GapSpaces(t, pos, 2);
    LookStuck(a, 1, pos);
    BraceMissed(a, 1, pos);
  }

  /** A chunking in which the colon is looked for too early. */
  lemma LooseColon(t: string, pos: nat) returns (a: Chunks, c: nat)
    requires 0 < pos <= |t| && TextReadKey(t, pos).KeyAt? && KeyEnd(t, pos) + 2 < SkipSpace(t, KeyEnd(t, pos))
    ensures pos < c && CutAt(a, t, c) && At(a, 1, pos) && ReadKey(a, 1, pos) == NoKey
  {
    var p := SkipSpace(t, pos);
    c := KeyEnd(t, pos);
    a := TwoInside(t, c);
    GapSpaces(t, c, 3);
    LookStuck(a, 1, c);
    assert SkipTo(t, c + 2, c + 2) == c + 2;
    assert SkipOnce(a, 3, c + 1) == Spot(c + 2, 4);
    FirstChunk(a, t, c, pos);
    assert SkipSpace(t, p) == p;
    DecodeWithin(a, t, c, p);
  }

  lemma LooseMember(t: string, pos: nat) returns (a: Chunks, c: nat)
    requires 0 < pos <= |t| && !TightMember(t, pos)
    ensures CutAt(a, t, c) && Inside(t, pos, c) && At(a, 1, pos) && ReadObject(a, 1, pos).Invalid?
  {
    hide ReadObject, SkillsRound, OtherRound, TightSkills, TightOther, ReadKey;
    var key := TextReadKey(t, pos);
    if key.EndAt? {
      a := LooseEnd(t, pos);
      c := pos;
    } else {
      if SkipSpace(t, KeyEnd(t, pos)) > KeyEnd(t, pos) + 2 {
        a, c := LooseColon(t, pos);
      } else if key.codes == SKILLS {
        a, c := LooseSkills(t, key.start);
        KeyWithin(a, t, c, pos);
      } else {
        a, c := LooseOther(t, key.start);
        KeyWithin(a, t, c, pos);
      }
      FailsRead(a, 1, pos);
    }
  }

  /** An object that is not tight can be split so that the read fails. */
  lemma {:induction false} LooseObjectBreaks(t: string, pos: nat) returns (a: Chunks, c: nat)
    requires 0 < pos <= |t| && !TightObject(t, pos)
    ensures CutAt(a, t, c) && Inside(t, pos, c) && At(a, 1, pos) && ReadObject(a, 1, pos).Invalid?
    decreases |t| - pos
  {
    if !TightMember(t, pos) {
      a, c := LooseMember(t, pos);
    } else {
      var next := TextObjectRound(t, pos).pos;
      a, c := LooseObjectBreaks(t, next);
      RoundWithin(a, t, c, pos);
    }
  }

  // ---- the whole read ----

  /** The white space of the text leaves every chunking harmless. */
  predicate TightText(t: string) {
    Start(t) <= 2 &&
    (StartsWith(t, '[') ==> TightArray(t, Start(t) + 1)) &&
    (StartsWith(t, '{') ==> TightObject(t, Start(t) + 1))
  }

  /** The text is read alike whatever the chunks, unless it is refused anyway. */
  predicate ReadAlike(t: string) {
    TightText(t) && (StartsWith(t, '{') ==> NoMultiDigit(t, Start(t) + 1))
  }

  lemma TightObjectTop(a: Chunks)
    requires StartsWith(a.text, '{') && ReadText(a.text).Some? && ReadAlike(a.text)
    ensures Returned(ReadTop(a)) == ReadText(a.text)
  {
    hide ReadObject, TextObject, ReadArray, TextArray;
    FirstLook(a);
    var s := Look(a, 1, 0);
    OpensObject(a, s);
    TightObjectSame(a, s.read, s.pos + 1);
  }

  lemma LooseObjectTop(t: string) returns (a: Chunks)
    requires StartsWith(t, '{') && !TightObject(t, Start(t) + 1)
    ensures a.text == t && Returned(ReadTop(a)) == None
  {
    hide ReadObject, TightObject;
    var c: nat;
    a, c := LooseObjectBreaks(t, Start(t) + 1);
    ReadTopOfCut(a, t, c);
  }

  lemma UnlikeBreaks(t: string) returns (a: Chunks)
    requires ReadText(t).Some? && !ReadAlike(t)
    ensures a.text == t && Returned(ReadTop(a)) == None
  {
    hide ReadTop, TightArray, NoMultiDigit, TightObject;
    if Start(t) > 2 {
      a := WideStartTop(t);
    } else if StartsWith(t, '[') {
      a := WideArrayTop(t);
    } else if NoMultiDigit(t, Start(t) + 1) {
      a := LooseObjectTop(t);
    } else {
      var c := SomeCutBreaks(t);
      a := Cut(t, c);
    }
  }

  /**
   * Every chunking of a text gives the result of reading it in one piece exactly when that read fails
   * anyway, or little enough white space stands in front of everything and before commas, colons and
   * closing characters, and no member of an object has a number of several digits as its value.
   */
  lemma ChunkingIff(t: string)
    ensures (forall a: Chunks :: a.text == t ==> Returned(ReadTop(a)) == ReadText(t)) <==>
      ReadText(t) == None || ReadAlike(t)
  {
    hide ReadTop, ReadText, ReadAlike;
    if ReadText(t) == None || ReadAlike(t) {
      forall a: Chunks | a.text == t ensures Returned(ReadTop(a)) == ReadText(t) {
        NeverOtherEntries(a);
        if ReadText(t).Some? { AlikeRead(a); }
      }
    } else {
      var a := UnlikeBreaks(t);
      assert Returned(ReadTop(a)) != ReadText(t);
    }
  }

  lemma AlikeRead(a: Chunks)
    requires ReadText(a.text).Some? && ReadAlike(a.text)
    ensures Returned(ReadTop(a)) == ReadText(a.text)
  {
    hide ReadTop, TightArray, NoMultiDigit, TightObject;
    if StartsWith(a.text, '[') { TightTopSame(a); } else { TightObjectTop(a); }
  }

  /** The same of objects alone. */
  lemma ObjectChunkingIff(t: string)
    requires StartsWith(t, '{')
    ensures (forall a: Chunks :: a.text == t ==> Returned(ReadTop(a)) == ReadText(t)) <==>
      ReadText(t) == None ||
      (Start(t) <= 2 && NoMultiDigit(t, Start(t) + 1) && TightObject(t, Start(t) + 1))
  {
    hide ReadTop, ReadText, NoMultiDigit, TightObject, TightArray;
    ChunkingIff(t);
  }
}
