/** A chunk boundary inside a number of several digits makes the object reader fail. */
module JsonCuts {
  import opened Prelude
  import opened JsonDecoder
  import opened JsonPrefix
  import opened JsonStream
  import opened JsonText
  import opened JsonChunking
  import opened JsonSafety

  /** The text in two chunks. */
  function Cut(t: string, c: nat): Chunks
    requires 0 < c < |t|
  {
    var cuts := [0, c, |t|];
    assert forall i: nat :: i < 3 ==> StepsUp(cuts, i);
    Split(t, cuts)
  }

  /** The first chunk ends at position `c`. */
  ghost predicate CutAt(chunks: Chunks, t: string, c: nat) {
    chunks.text == t && Count(chunks) >= 2 && chunks.cuts[1] == c && c < |t|
  }

  lemma FirstChunk(chunks: Chunks, t: string, c: nat, p: nat)
    requires CutAt(chunks, t, c) && p <= |t| && SkipSpace(t, p) < c
    ensures At(chunks, 1, p)
    ensures SkipOnce(chunks, 1, p) == Look(chunks, 1, p) == Spot(SkipSpace(t, p), 1)
  {
    SkipOnceOn(chunks, 1, p);
    var q := SkipSpace(t, p);
    SkippedIsSpace(t, p, c);
    if SkipTo(t, p, c) == c { SkipOn(t, p, c); }
    assert SkipTo(t, q, c) == q;
  }

  /** What ends before the cut is decoded from the first chunk. */
  lemma DecodeWithin(chunks: Chunks, t: string, c: nat, pos: nat)
    requires CutAt(chunks, t, c) && pos <= |t|
    requires var r := ParseValue(t, SkipSpace(t, pos)); r.Got? && r.end <= c
    ensures At(chunks, 1, pos)
    ensures var r := ParseValue(t, SkipSpace(t, pos)); DecodeValue(chunks, 1, pos) == Found(r.value, r.end, 1)
  {
    FirstChunk(chunks, t, c, pos);
    ValueRestricts(t[..c], t, SkipSpace(t, pos));
  }

  lemma KeyWithin(chunks: Chunks, t: string, c: nat, pos: nat)
    requires CutAt(chunks, t, c)
    requires pos <= |t| && TextReadKey(t, pos).KeyAt? && TextReadKey(t, pos).start <= c
    ensures At(chunks, 1, pos)
    ensures ReadKey(chunks, 1, pos) == Key(TextReadKey(t, pos).codes, TextReadKey(t, pos).start, 1)
  {
    var p := SkipSpace(t, pos);
    FirstChunk(chunks, t, c, pos);
    assert SkipSpace(t, p) == p;
    DecodeWithin(chunks, t, c, p);
    FirstChunk(chunks, t, c, ParseValue(t, p).end);
  }

  lemma ArrayRoundWithin(chunks: Chunks, t: string, c: nat, pos: nat)
    requires CutAt(chunks, t, c)
    requires pos < c
    ensures At(chunks, 1, pos)
    ensures TextArrayRound(t, pos).Onward? && TextArrayRound(t, pos).pos <= c ==>
      ArrayRound(chunks, 1, pos) == GoOn(TextArrayRound(t, pos).entries, TextArrayRound(t, pos).pos, 1)
    ensures TextArrayRound(t, pos).Halt? && TextArrayRound(t, pos).outcome.Whole? && TextArrayRound(t, pos).outcome.end <= c ==>
      ArrayRound(chunks, 1, pos) ==
      Stop(Entries(TextArrayRound(t, pos).outcome.entries, TextArrayRound(t, pos).outcome.end, 1))
  {
    var p := SkipSpace(t, pos);
    if p < c {
      FirstChunk(chunks, t, c, pos);
      assert SkipSpace(t, p) == p;
      if ParseValue(t, p).Got? && ParseValue(t, p).end <= c { DecodeWithin(chunks, t, c, p); }
    }
  }

  lemma {:induction false} ArrayWithin(chunks: Chunks, t: string, c: nat, pos: nat)
    requires CutAt(chunks, t, c)
    requires pos <= |t| && TextArray(t, pos).Whole? && TextArray(t, pos).end <= c
    ensures At(chunks, 1, pos)
    ensures ReadArray(chunks, 1, pos) == Entries(TextArray(t, pos).entries, TextArray(t, pos).end, 1)
    decreases |t| - pos
  {
    ArrayRoundWithin(chunks, t, c, pos);
    var r := TextArrayRound(t, pos);
    if r.Onward? { ArrayWithin(chunks, t, c, r.pos); }
  }

  /** Inside the first chunk, or at its end in front of white space. */
  predicate Inside(t: string, p: nat, c: nat) {
    c < |t| && (p < c || (p == c && IsSpace(t[c])))
  }

  lemma AfterWithin(chunks: Chunks, t: string, c: nat, entries: seq<Json>, pos: nat)
    requires CutAt(chunks, t, c)
    requires pos <= |t| && TextAfter(t, entries, pos).Onward? && Inside(t, TextAfter(t, entries, pos).pos, c)
    ensures At(chunks, 1, pos)
    ensures AfterMember(chunks, entries, 1, pos) == GoOn(entries, TextAfter(t, entries, pos).pos, 1)
  {
    FirstChunk(chunks, t, c, pos);
  }

  lemma OtherWithin(chunks: Chunks, t: string, c: nat, pos: nat)
    requires CutAt(chunks, t, c)
    requires pos <= |t| && TextOtherRound(t, pos).Onward? && Inside(t, TextOtherRound(t, pos).pos, c)
    ensures At(chunks, 1, pos)
    ensures OtherRound(chunks, 1, pos) == GoOn(TextOtherRound(t, pos).entries, TextOtherRound(t, pos).pos, 1)
  {
    DecodeWithin(chunks, t, c, pos);
    AfterWithin(chunks, t, c, [], ParseValue(t, SkipSpace(t, pos)).end);
  }

  /** The round goes on like the round on the whole text, and only the first chunk has been read. */
  ghost predicate Follows(x: Round, r: TextRound) {
    r.Onward? && x == GoOn(r.entries, r.pos, 1)
  }

  lemma AfterArrayWithin(chunks: Chunks, t: string, c: nat, p: nat, w: Whole, r: TextRound)
    requires CutAt(chunks, t, c) && p < |t| && w.Whole? && p < w.end <= |t|
    requires r == TextAfterArray(t, p, w) && r.Onward? && Inside(t, r.pos, c)
    ensures At(chunks, 1, w.end)
    ensures Follows(AfterArray(chunks, p, Entries(w.entries, w.end, 1)), r)
  {
    AfterWithin(chunks, t, c, w.entries, w.end);
  }

  lemma StreamedWithin(chunks: Chunks, t: string, c: nat, p: nat, r: TextRound)
    requires CutAt(chunks, t, c) && p < c
    requires r == TextAfterArray(t, p, TextArray(t, p + 1)) && r.Onward? && Inside(t, r.pos, c)
    ensures At(chunks, 1, p + 1)
    ensures Follows(AfterArray(chunks, p, ReadArray(chunks, 1, p + 1)), r)
  {
    hide TextAfter, AfterMember;
    ArrayWithin(chunks, t, c, p + 1);
    AfterArrayWithin(chunks, t, c, p, TextArray(t, p + 1), r);
  }

  lemma SkillsArrayWithin(chunks: Chunks, t: string, c: nat, s: Spot, r: TextRound)
    requires CutAt(chunks, t, c) && s.read == 1 && s.pos < c && t[s.pos] == '['
    requires r == TextSkillsArray(t, s.pos) && r.Onward? && Inside(t, r.pos, c)
    ensures Follows(SkillsArray(chunks, s), r)
  {
    hide ReadArray, TextArray, AfterMember, TextAfter;
    SkillsStreams(chunks, s);
    TextSkillsStreams(t, s.pos);
    StreamedWithin(chunks, t, c, s.pos, r);
  }

  lemma SkillsValueWithin(chunks: Chunks, t: string, c: nat, s: Spot)
    requires CutAt(chunks, t, c) && s.read == 1 && s.pos < c && t[s.pos] != '[' && SkipSpace(t, s.pos) == s.pos
    requires var r := ParseValue(t, s.pos); r.Got? && r.end <= c
    ensures SkillsValue(chunks, s) == GoOn([], ParseValue(t, s.pos).end, 1)
  {
    DecodeWithin(chunks, t, c, s.pos);
    ValueKind(t, s.pos);
  }

  lemma SkillsWithin(chunks: Chunks, t: string, c: nat, pos: nat)
    requires CutAt(chunks, t, c)
    requires pos <= |t| && TextSkillsRound(t, pos).Onward? && Inside(t, TextSkillsRound(t, pos).pos, c)
    ensures At(chunks, 1, pos)
    ensures SkillsRound(chunks, 1, pos) == GoOn(TextSkillsRound(t, pos).entries, TextSkillsRound(t, pos).pos, 1)
  {
    var s := Spot(SkipSpace(t, pos), 1);
    FirstChunk(chunks, t, c, pos);
    assert SkipSpace(t, s.pos) == s.pos;
    if t[s.pos] == '[' {
      SkillsArrayWithin(chunks, t, c, s, TextSkillsArray(t, s.pos));
    } else {
      SkillsValueWithin(chunks, t, c, s);
    }
  }

  lemma RoundWithin(chunks: Chunks, t: string, c: nat, pos: nat)
    requires CutAt(chunks, t, c)
    requires pos <= |t| && TextObjectRound(t, pos).Onward? && Inside(t, TextObjectRound(t, pos).pos, c)
    ensures At(chunks, 1, pos)
    ensures ObjectRound(chunks, 1, pos) == GoOn(TextObjectRound(t, pos).entries, TextObjectRound(t, pos).pos, 1)
  {
    var key := TextReadKey(t, pos);
    KeyWithin(chunks, t, c, pos);
    if key.codes == SKILLS {
      SkillsWithin(chunks, t, c, key.start);
    } else {
      OtherWithin(chunks, t, c, key.start);
    }
  }

  /** Right after the first digit of a longer number. */
  lemma ShortNumber(t: string, i: nat, c: nat)
    requires i <= |t| && ParseNumber(t, i).Got? && c == NumberStart(t, i) + 1
    ensures c <= |t| && ParseNumber(t[..c], i) == Got(t[i..c], c)
  {
    var b := t[..c];
    assert NumberStart(b, i) == NumberStart(t, i);
    assert ParseNumber(b, i).end == c;
    assert b[i..c] == t[i..c];
  }

  /** A place to cut the number at `q` so that the first part is a number, too. */
  lemma ShortValue(t: string, q: nat) returns (c: nat)
    requires q <= |t| && LongNumberAt(t, q)
    ensures q < c < |t| && !IsSpace(t[q]) && t[q] != '[' && NumberChar(t[c])
    ensures ParseValue(t[..c], q).Got? && ParseValue(t[..c], q).end == c && !ParseValue(t[..c], q).value.JArray?
  {
    ValueIsVisible(t, q);
    var w := ParseValue(t, q);
    assert ParseNumber(t, q).Got? && w.value.lexeme == t[q..w.end];
    c := NumberStart(t, q) + 1;
    NumberCharsInside(t, q);
    ShortNumber(t, q, c);
    assert t[..c][q] == t[q];
  }

  lemma CutIsSmooth(t: string, c: nat)
    requires 0 < c < |t| && NumberChar(t[c])
    ensures Smooth(Cut(t, c)) && CutAt(Cut(t, c), t, c)
  {
    var chunks := Cut(t, c);
    assert Chunk(chunks, 1)[0] == t[c];
  }

  /** The value behind a key is read up to the cut, and no separator follows. */
  lemma ShortRound(chunks: Chunks, t: string, c: nat, start: nat)
    requires CutAt(chunks, t, c) && Smooth(chunks) && start <= |t| && SkipSpace(t, start) < c < |t| && NumberChar(t[c])
    requires t[SkipSpace(t, start)] != '['
    requires var r := ParseValue(t[..c], SkipSpace(t, start)); r.Got? && r.end == c && !r.value.JArray?
    ensures At(chunks, 1, start)
    ensures SkillsRound(chunks, 1, start) == GoOn([], c, 1)
    ensures OtherRound(chunks, 1, start).GoOn? && OtherRound(chunks, 1, start).pos == c
  {
    var q := SkipSpace(t, start);
    FirstChunk(chunks, t, c, start);
    assert SkipSpace(t, q) == q;
    FirstChunk(chunks, t, c, q);
    AfterSame(chunks, [], 1, c);
  }

  lemma CutMember(t: string, pos: nat) returns (c: nat)
    requires pos <= |t| && !MemberClean(t, pos)
    ensures pos < c < |t| && Smooth(Cut(t, c)) && At(Cut(t, c), 1, pos) && ReadObject(Cut(t, c), 1, pos).Invalid?
  {
    var key := TextReadKey(t, pos);
    c := ShortValue(t, SkipSpace(t, key.start));
    var chunks := Cut(t, c);
    CutIsSmooth(t, c);
    KeyWithin(chunks, t, c, pos);
    ShortRound(chunks, t, c, key.start);
    var round := ObjectRound(chunks, 1, pos);
    assert round.GoOn? && round.pos == c;
    NoKeyInNumber(chunks, round.read, c);
  }

  /** If some member has a number of several digits, a cut inside the first of them breaks the read. */
  lemma {:induction false} CutBreaks(t: string, pos: nat) returns (c: nat)
    requires pos <= |t| && !NoMultiDigit(t, pos)
    ensures pos < c < |t| && Smooth(Cut(t, c)) && At(Cut(t, c), 1, pos) && ReadObject(Cut(t, c), 1, pos).Invalid?
    decreases |t| - pos
  {
    if MemberClean(t, pos) {
      var next := TextObjectRound(t, pos).pos;
      c := CutBreaks(t, next);
      assert CutAt(Cut(t, c), t, c);
      RoundWithin(Cut(t, c), t, c, pos);
    } else {
      c := CutMember(t, pos);
    }
  }

  // ---- the whole read ----

  /** Smooth chunk boundaries do not matter unless a member of the object has a long number. */
  lemma ReadTopSame(chunks: Chunks)
    requires Smooth(chunks) && (StartsWith(chunks.text, '{') ==> NoMultiDigit(chunks.text, Start(chunks.text) + 1))
    ensures Returned(ReadTop(chunks)) == ReadText(chunks.text)
  {
    hide ReadArray, ReadObject, TextArray, TextObject, NoMultiDigit, Look, Smooth;
    var first := if Count(chunks) == 0 then 0 else 1;
    LookSettles(chunks, first, 0);
    var s := Look(chunks, first, 0);
    if StartsWith(chunks.text, '[') {
      ArraySame(chunks, s.read, s.pos + 1);
    } else if StartsWith(chunks.text, '{') {
      ObjectSame(chunks, s.read, s.pos + 1);
    }
  }

  lemma OpensObject(chunks: Chunks, s: Spot)
    requires At(chunks, s.read, s.pos) && Sees(chunks, s, '{')
    ensures ReadFrom(chunks, s) == ReadObject(chunks, s.read, s.pos + 1)
  {
    hide ReadArray, ReadObject;
  }

  lemma ReadTopOfCut(chunks: Chunks, t: string, c: nat)
    requires CutAt(chunks, t, c) && StartsWith(t, '{') && Start(t) < c
    ensures At(chunks, 1, Start(t) + 1)
    ensures ReadTop(chunks) == ReadObject(chunks, 1, Start(t) + 1)
  {
    hide ReadObject;
    FirstChunk(chunks, t, c, 0);
    OpensObject(chunks, Spot(Start(t), 1));
  }

  lemma SomeCutBreaks(t: string) returns (c: nat)
    requires !ChunkProof(t)
    ensures 0 < c < |t| && Smooth(Cut(t, c)) && Returned(ReadTop(Cut(t, c))) == None
  {
    c := CutBreaks(t, Start(t) + 1);
    assert CutAt(Cut(t, c), t, c);
    ReadTopOfCut(Cut(t, c), t, c);
  }

  /** A sufficient and necessary condition on the text for smooth chunk boundaries not to matter. */
  predicate ChunkProof(t: string) {
    ReadText(t) == None || !StartsWith(t, '{') || NoMultiDigit(t, Start(t) + 1)
  }

  /**
   * Every smooth way of splitting the text gives the result of reading it in one piece exactly when
   * that read fails anyway, the document is not an object, or no member of it has a number of more
   * than one digit as its direct value.
   */
  lemma ChunkingIrrelevant(t: string)
    ensures (forall chunks: Chunks :: Smooth(chunks) && chunks.text == t ==> Returned(ReadTop(chunks)) == ReadText(t)) <==> ChunkProof(t)
  {
    if ChunkProof(t) {
      forall chunks: Chunks | Smooth(chunks) && chunks.text == t ensures Returned(ReadTop(chunks)) == ReadText(t) {
        NeverOtherEntries(chunks);
        if ReadText(t) != None { ReadTopSame(chunks); }
      }
    } else {
      var c := SomeCutBreaks(t);
      assert Returned(ReadTop(Cut(t, c))) != ReadText(t);
    }
  }
}
