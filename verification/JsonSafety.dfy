/**
 * Any chunking at all: the reader returns what the complete text gives, or it fails.  Which
 * chunkings never fail because of white space, and one that does.
 */
module JsonSafety {
  import opened Prelude
  import opened JsonDecoder
  import opened JsonPrefix
  import opened JsonStream
  import opened JsonText
  import opened JsonChunking
  import opened JsonMembers

  lemma SpotInText(a: Chunks, n: nat, pos: nat, s: Spot)
    requires At(a, n, pos) && s == Look(a, n, pos)
    ensures SkipSpace(a.text, s.pos) == SkipSpace(a.text, pos)
    ensures !SeesNothing(a, s) ==> s.pos == SkipSpace(a.text, pos) || IsSpace(a.text[s.pos])
  {
    SkipOnceOn(a, n, pos);
    var once := SkipOnce(a, n, pos);
    SkipOnceOn(a, once.read, once.pos);
  }

  ghost predicate Safe(o: Outcome, w: Whole) {
    o == Invalid || Same(o, w)
  }

  lemma NoValueAtCloser(t: string, p: nat)
    requires p <= |t| && (p < |t| ==> t[p] == ']' || t[p] == '}' || t[p] == ',')
    ensures ParseValue(t, p).Bad?
  {
    if ParseValue(t, p).Got? { ValueIsVisible(t, p); }
  }

  // ---- arrays ----

  lemma ArrayRoundSafe(a: Chunks, n: nat, pos: nat)
    requires At(a, n, pos)
    ensures ArrayRound(a, n, pos) == Stop(Invalid) || SameRound(ArrayRound(a, n, pos), TextArrayRound(a.text, pos))
  {
    var s := Look(a, n, pos);
    SpotInText(a, n, pos, s);
    var q := SkipSpace(a.text, pos);
    ValueFromChunks(a, s.read, s.pos);
    if q == |a.text| || a.text[q] == ']' || a.text[q] == ',' { NoValueAtCloser(a.text, q); }
  }

  lemma {:induction false} ArraySafe(a: Chunks, n: nat, pos: nat)
    requires At(a, n, pos)
    ensures Safe(ReadArray(a, n, pos), TextArray(a.text, pos))
    decreases |a.text| - pos
  {
    ArrayRoundSafe(a, n, pos);
    var x := ArrayRound(a, n, pos);
    if x.GoOn? {
      ArraySafe(a, x.read, x.pos);
    }
  }

  // ---- objects ----

  lemma ColonSafe(a: Chunks, codes: seq<nat>, k: nat, e: nat)
    requires At(a, k, e)
    ensures Colon(a, codes, k, e) == NoKey || SameKey(Colon(a, codes, k, e), TextColon(a.text, codes, e))
  {
    var s := Look(a, k, e);
    SpotInText(a, k, e, s);
    SkipOnceOn(a, s.read, s.pos);
    var again := SkipOnce(a, s.read, s.pos);
  }

  lemma KeySafe(a: Chunks, n: nat, pos: nat)
    requires At(a, n, pos)
    ensures ReadKey(a, n, pos) == NoKey || SameKey(ReadKey(a, n, pos), TextReadKey(a.text, pos))
  {
    var s := Look(a, n, pos);
    SpotInText(a, n, pos, s);
    var q := SkipSpace(a.text, pos);
    ValueFromChunks(a, s.read, s.pos);
    if q == |a.text| || a.text[q] == '}' { NoValueAtCloser(a.text, q); }
    var r := DecodeValue(a, s.read, s.pos);
    if r.Found? && r.value.JString? {
      ColonSafe(a, r.value.codes, r.read, r.end);
    }
  }

  /** Going on after round `x` leads to what the complete text gives, or to a failure. */
  ghost predicate LeadsTo(t: string, x: Round, w: Whole) {
    match x
    case Stop(o) => Safe(o, w)
    case GoOn(entries, pos, _) => pos <= |t| && (TextObject(t, pos) == Broken || Joined(entries, TextObject(t, pos)) == w)
  }

  /** Where the text has a comma, a key must not follow; where it has a brace, the object ends there. */
  lemma TextObjectAt(t: string, p: nat)
    requires p < |t| && (t[p] == '}' || NumberChar(t[p]) || t[p] == ',')
    ensures TextObject(t, p) == if t[p] == '}' then Whole([], p + 1) else Broken
  {
    assert SkipSpace(t, p) == p;
    if t[p] == ',' { NoValueAtComma(t, p); }
    if NumberChar(t[p]) { NoTextKeyInNumber(t, p); }
  }

  /** Skipping what follows a member early or late makes no difference but failure. */
  lemma SkippedAfter(t: string, entries: seq<Json>, pos: nat, p: nat)
    requires pos <= |t| && p <= |t| && SkipSpace(t, p) == SkipSpace(t, pos)
    ensures TextObject(t, p) == Broken || Joined(entries, TextObject(t, p)) == RoundResult(t, TextAfter(t, entries, pos))
  {
    var q := SkipSpace(t, pos);
    TextObjectSkips(t, p, q);
    if q < |t| && (t[q] == ',' || t[q] == '}') {
      TextObjectAt(t, q);
      assert entries + [] == entries;
    }
  }

  lemma CommaSafe(a: Chunks, entries: seq<Json>, s: Spot, pos: nat)
    requires At(a, s.read, s.pos) && pos <= |a.text| && Sees(a, s, ',') && s.pos == SkipSpace(a.text, pos)
    ensures LeadsTo(a.text, AfterAt(a, entries, s), RoundResult(a.text, TextAfter(a.text, entries, pos)))
  {
    assert TextAfter(a.text, entries, pos) == Onward(entries, s.pos + 1);
  }

  lemma BraceSafe(a: Chunks, entries: seq<Json>, s: Spot, pos: nat)
    requires At(a, s.read, s.pos) && pos <= |a.text| && Sees(a, s, '}') && s.pos == SkipSpace(a.text, pos)
    ensures LeadsTo(a.text, AfterAt(a, entries, s), RoundResult(a.text, TextAfter(a.text, entries, pos)))
  {
    assert TextAfter(a.text, entries, pos) == Halt(Whole(entries, s.pos + 1));
  }

  lemma AfterAtSafe(a: Chunks, entries: seq<Json>, s: Spot, pos: nat)
    requires At(a, s.read, s.pos) && pos <= |a.text| && SkipSpace(a.text, s.pos) == SkipSpace(a.text, pos)
    requires !SeesNothing(a, s) ==> s.pos == SkipSpace(a.text, pos) || IsSpace(a.text[s.pos])
    ensures LeadsTo(a.text, AfterAt(a, entries, s), RoundResult(a.text, TextAfter(a.text, entries, pos)))
  {
    if Sees(a, s, ',') {
      CommaSafe(a, entries, s, pos);
    } else if Sees(a, s, '}') {
      BraceSafe(a, entries, s, pos);
    } else {
      SkippedAfter(a.text, entries, pos, s.pos);
    }
  }

  lemma AfterSafe(a: Chunks, entries: seq<Json>, n: nat, pos: nat)
    requires At(a, n, pos)
    ensures LeadsTo(a.text, AfterMember(a, entries, n, pos), RoundResult(a.text, TextAfter(a.text, entries, pos)))
  {
    var s := Look(a, n, pos);
    SpotInText(a, n, pos, s);
    AfterAtSafe(a, entries, s, pos);
  }

  /** After a cut number comes no separator, and no key. */
  lemma AfterCut(a: Chunks, n: nat, pos: nat, w: Whole)
    requires At(a, n, pos) && pos < |a.text| && NumberChar(a.text[pos])
    ensures LeadsTo(a.text, AfterMember(a, [], n, pos), w)
  {
    var s := Look(a, n, pos);
    SpotInText(a, n, pos, s);
    assert s.pos == pos;
    assert AfterAt(a, [], s) == GoOn([], pos, s.read);
    TextObjectAt(a.text, pos);
  }

  lemma OtherSafe(a: Chunks, n: nat, pos: nat)
    requires At(a, n, pos)
    ensures LeadsTo(a.text, OtherRound(a, n, pos), RoundResult(a.text, TextOtherRound(a.text, pos)))
  {
    var t := a.text;
    ValueFromChunks(a, n, pos);
    var r := DecodeValue(a, n, pos);
    if r.Found? {
      if r.end < |t| && NumberChar(t[r.end]) {
        AfterCut(a, r.read, r.end, RoundResult(t, TextOtherRound(t, pos)));
      } else {
        AfterSafe(a, [], r.read, r.end);
      }
    }
  }

  lemma AfterArraySafe(a: Chunks, p: nat, o: Outcome, w: Whole)
    requires Safe(o, w) && (o.Entries? ==> p < o.end && At(a, o.read, o.end)) && (w.Whole? ==> p < w.end <= |a.text|)
    ensures LeadsTo(a.text, AfterArray(a, p, o), RoundResult(a.text, TextAfterArray(a.text, p, w)))
  {
    if o.Entries? { AfterSafe(a, o.entries, o.read, o.end); }
  }

  lemma SkillsArraySafe(a: Chunks, s: Spot)
    requires At(a, s.read, s.pos) && Sees(a, s, '[')
    ensures LeadsTo(a.text, SkillsArray(a, s), RoundResult(a.text, TextSkillsArray(a.text, s.pos)))
  {
    hide ReadArray, TextArray, AfterArray, TextAfterArray, LeadsTo, RoundResult;
    SkillsStreams(a, s);
    TextSkillsStreams(a.text, s.pos);
    ArraySafe(a, s.read, s.pos + 1);
    AfterArraySafe(a, s.pos, ReadArray(a, s.read, s.pos + 1), TextArray(a.text, s.pos + 1));
  }

  /** An array decoded in one go where white space hid its bracket. */
  lemma DecodedArraySafe(t: string, q: nat, items: seq<Json>, e: nat, k: nat)
    requires q <= |t| && SkipSpace(t, q) == q && ParseValue(t, q) == Got(JArray(items), e) && AllObjects(items)
    ensures LeadsTo(t, GoOn(items, e, k), RoundResult(t, TextSkillsAt(t, q)))
  {
    ValueRead(t, q, Member(SKILLS, JArray(items)), q, e);
    SkippedAfter(t, items, e, e);
  }

  lemma DecodedNumberSafe(t: string, q: nat, end: nat, k: nat)
    requires q <= |t| && ParseValue(t, q).Got? && ParseValue(t, q).value.JNumber?
    requires q <= end <= ParseValue(t, q).end && (end < ParseValue(t, q).end ==> NumberChar(t[end]))
    ensures LeadsTo(t, GoOn([], end, k), RoundResult(t, TextSkillsAt(t, q)))
  {
    ValueKind(t, q);
    if end < ParseValue(t, q).end { TextObjectAt(t, end); } else { JoinedNothing(TextObject(t, end)); }
  }

  lemma SkillsValueSafe(a: Chunks, s: Spot, q: nat)
    requires At(a, s.read, s.pos) && !Sees(a, s, '[') && !SeesNothing(a, s) && q == SkipSpace(a.text, s.pos)
    ensures LeadsTo(a.text, SkillsValue(a, s), RoundResult(a.text, TextSkillsAt(a.text, q)))
  {
    var t := a.text;
    ValueFromChunks(a, s.read, s.pos);
    assert SkipSpace(t, q) == q;
    var r := DecodeValue(a, s.read, s.pos);
    if r.Found? {
      var v := ParseValue(t, q).value;
      ValueKind(t, q);
      if v.JArray? {
        if AllObjects(v.items) { DecodedArraySafe(t, q, v.items, r.end, r.read); }
      } else if v.JNumber? {
        DecodedNumberSafe(t, q, r.end, r.read);
      } else {
        JoinedNothing(TextObject(t, r.end));
      }
    }
  }

  lemma SkillsSafe(a: Chunks, n: nat, pos: nat)
    requires At(a, n, pos)
    ensures LeadsTo(a.text, SkillsRound(a, n, pos), RoundResult(a.text, TextSkillsRound(a.text, pos)))
  {
    var s := Look(a, n, pos);
    SpotInText(a, n, pos, s);
    if Sees(a, s, '[') {
      SkillsArraySafe(a, s);
    } else if !SeesNothing(a, s) {
      SkillsValueSafe(a, s, SkipSpace(a.text, pos));
    }
  }

  lemma ObjectRoundSafe(a: Chunks, n: nat, pos: nat)
    requires At(a, n, pos)
    ensures LeadsTo(a.text, ObjectRound(a, n, pos), TextObject(a.text, pos))
  {
    assert TextObject(a.text, pos) == RoundResult(a.text, TextObjectRound(a.text, pos));
    KeySafe(a, n, pos);
    var key := ReadKey(a, n, pos);
    if key.Key? {
      SkillsSafe(a, key.read, key.start);
      OtherSafe(a, key.read, key.start);
    }
  }

  lemma {:induction false} ObjectSafe(a: Chunks, n: nat, pos: nat)
    requires At(a, n, pos)
    ensures Safe(ReadObject(a, n, pos), TextObject(a.text, pos))
    decreases |a.text| - pos
  {
    ObjectRoundSafe(a, n, pos);
    var x := ObjectRound(a, n, pos);
    if x.GoOn? {
      ObjectSafe(a, x.read, x.pos);
    }
  }

  lemma ReadFromSafe(a: Chunks, s: Spot)
    requires At(a, s.read, s.pos)
    requires s.pos == Start(a.text) || SeesNothing(a, s) || IsSpace(a.text[s.pos])
    ensures Returned(ReadFrom(a, s)) == None || Returned(ReadFrom(a, s)) == ReadText(a.text)
  {
    hide ReadArray, ReadObject, TextArray, TextObject;
    if Sees(a, s, '[') {
      ArraySafe(a, s.read, s.pos + 1);
    } else if Sees(a, s, '{') {
      ObjectSafe(a, s.read, s.pos + 1);
    }
  }

  /** However the text is split, the reader never returns other entries than the complete text gives. */
  lemma NeverOtherEntries(chunks: Chunks)
    ensures Returned(ReadTop(chunks)) == None || Returned(ReadTop(chunks)) == ReadText(chunks.text)
  {
    var first := if Count(chunks) == 0 then 0 else 1;
    var s := Look(chunks, first, 0);
    SpotInText(chunks, first, 0, s);
    ReadFromSafe(chunks, s);
  }

  // ---- chunks of fixed size ----

  /** Chunks as a file read with a fixed chunk size gives them: only the last one may be shorter. */
  predicate FixedChunks(chunks: Chunks, size: nat) {
    forall i :: 0 <= i < Count(chunks) ==>
      |Chunk(chunks, i)| <= size && (i < Count(chunks) - 1 ==> |Chunk(chunks, i)| == size)
  }

  predicate SpaceRun(t: string, i: nat, k: nat) {
    i + k <= |t| && forall j :: i <= j < i + k ==> IsSpace(t[j])
  }

  /** No `k` white-space characters stand in a row. */
  predicate NoSpaceRun(t: string, k: nat) {
    forall i :: 0 <= i <= |t| ==> !SpaceRun(t, i, k)
  }

  lemma RunAcross(chunks: Chunks, i: nat)
    requires i + 1 < Count(chunks) && !SmoothAt(chunks, i)
    ensures SpaceRun(chunks.text, chunks.cuts[i], |Chunk(chunks, i)| + 1)
  {
    var from, x, y := chunks.cuts[i], Chunk(chunks, i), Chunk(chunks, i + 1);
    assert chunks.text[from + |x|] == y[0];
    forall j | from <= j < from + |x| ensures IsSpace(chunks.text[j]) {
      assert chunks.text[j] == x[j - from];
    }
  }

  /** Chunks of a fixed size are smooth unless the text has more white space in a row than a chunk holds. */
  lemma FixedChunksAreSmooth(chunks: Chunks, size: nat)
    requires FixedChunks(chunks, size) && NoSpaceRun(chunks.text, size + 1)
    ensures Smooth(chunks)
  {
    forall i: nat | i < Count(chunks) ensures SmoothAt(chunks, i) {
      if !SmoothAt(chunks, i) { RunAcross(chunks, i); }
    }
  }

  /** The opening bracket, a blank chunk and a chunk that starts with a blank. */
  const BLANK_INSIDE: Split := Split("[  ]", [0, 1, 2, 4])

  lemma BlankInsideChunks() returns (chunks: Chunks)
    ensures chunks == BLANK_INSIDE && Chunk(chunks, 0) == "[" && Chunk(chunks, 1) == " " && Chunk(chunks, 2) == " ]"
  {
    forall i: nat | i < 4 ensures StepsUp([0, 1, 2, 4], i) {
    }
    chunks := BLANK_INSIDE;
  }

  lemma BlankInsideRound(chunks: Chunks)
    requires chunks == BLANK_INSIDE
    ensures ArrayRound(chunks, 1, 1) == Stop(Invalid)
  {
    assert SkipOnce(chunks, 1, 1) == Spot(1, 2);
    assert SkipOnce(chunks, 2, 1) == Spot(2, 3);
    SkipOn("[  ]", 2, 3);
    ValueFromChunks(chunks, 3, 2);
    NoValueAtCloser("[  ]", 3);
  }

  lemma BlankInsideText()
    ensures ReadText("[  ]") == Some([])
  {
    SkipOn("[  ]", 1, 3);
    assert TextArrayRound("[  ]", 1) == Halt(Whole([], 4));
  }

  /** The empty array is refused when it comes as an opening bracket, a blank, and a blank with the closing bracket. */
  lemma BlankChunkBreaks() returns (chunks: Chunks)
    ensures Count(chunks) == 3 && Chunk(chunks, 0) == "[" && Chunk(chunks, 1) == " " && Chunk(chunks, 2) == " ]"
    ensures !Smooth(chunks)
    ensures ReadTop(chunks) == Invalid && ReadText(chunks.text) == Some([])
  {
    chunks := BlankInsideChunks();
    BlankInsideRound(chunks);
    BlankInsideText();
    assert Look(chunks, 1, 0) == Spot(0, 1);
    assert !SmoothAt(chunks, 1);
  }

  // ---- the bound on white space is sharp ----

  function Blanks(k: nat): (r: string)
    ensures |r| == k && forall i :: 0 <= i < k ==> r[i] == ' '
  {
    seq(k, i => ' ')
  }

  /** An empty array with one white-space character more inside it than a chunk of the given size holds. */
  function PaddedArray(size: nat): (r: string)
    requires size >= 1
    ensures |r| == 2 * size + 2 && r[size - 1] == '[' && r[2 * size + 1] == ']'
    ensures forall i :: 0 <= i < |r| && i != size - 1 && i != 2 * size + 1 ==> r[i] == ' '
  {
    Blanks(size - 1) + "[" + Blanks(size + 1) + "]"
  }

  lemma {:induction false} SkipAll(t: string, i: nat, limit: nat)
    requires i <= limit <= |t| && forall k :: i <= k < limit ==> IsSpace(t[k])
    ensures SkipTo(t, i, limit) == limit
    decreases limit - i
  {
    if i < limit { SkipAll(t, i + 1, limit); }
  }

  lemma PaddedArrayText(size: nat)
    requires size >= 1
    ensures var t := PaddedArray(size);
      Start(t) == size - 1 && SkipSpace(t, size) == 2 * size + 1 && ReadText(t) == Some([])
  {
    var t := PaddedArray(size);
    SkipOn(t, 0, size - 1);
    SkipOn(t, size, 2 * size + 1);
    assert TextArrayRound(t, size) == Halt(Whole([], 2 * size + 2));
  }

  lemma NoRunOver(t: string, i: nat, k: nat, j: nat)
    requires i <= j < i + k && j < |t| && !IsSpace(t[j])
    ensures !SpaceRun(t, i, k)
  {
  }

  lemma PaddedRuns(size: nat)
    requires size >= 1
    ensures NoSpaceRun(PaddedArray(size), size + 2)
  {
    var t, k := PaddedArray(size), size + 2;
    forall i | 0 <= i <= |t| ensures !SpaceRun(t, i, k) {
      if i + k <= |t| { NoRunOver(t, i, k, if i < size then size - 1 else 2 * size + 1); }
    }
  }

  lemma FixedCuts(chunks: Chunks, size: nat)
    requires size >= 1 && FixedChunks(chunks, size) && |chunks.text| == 2 * size + 2
    ensures Count(chunks) >= 3 && chunks.cuts[1] == size && chunks.cuts[2] == 2 * size && chunks.cuts[3] > 2 * size
  {
    assert Count(chunks) > 0;
    assert |Chunk(chunks, 0)| <= size;
    assert Count(chunks) > 1;
    assert |Chunk(chunks, 1)| <= size;
    assert Count(chunks) > 2;
    assert |Chunk(chunks, 2)| > 0;
  }

  lemma PaddedLooks(chunks: Chunks, size: nat)
    requires size >= 1 && FixedChunks(chunks, size) && chunks.text == PaddedArray(size)
    ensures Count(chunks) >= 3 && chunks.cuts[1] == size && chunks.cuts[3] > 2 * size
    ensures Look(chunks, 1, 0) == Spot(size - 1, 1) && Look(chunks, 1, size) == Spot(2 * size, 3)
  {
    var t := chunks.text;
    FixedCuts(chunks, size);
    SkipAll(t, 0, size - 1);
    PaddedArrayText(size);
    SkipOnceOn(chunks, 1, 0);
    assert SkipOnce(chunks, 1, size) == Spot(size, 2);
    SkipAll(t, size, 2 * size);
    assert SkipOnce(chunks, 2, size) == Spot(2 * size, 3);
  }

  /** Read in chunks of that size, this array is refused. */
  lemma PaddedArrayRefused(chunks: Chunks, size: nat)
    requires size >= 1 && FixedChunks(chunks, size) && chunks.text == PaddedArray(size)
    ensures ReadTop(chunks) == Invalid && ReadText(chunks.text) == Some([]) && NoSpaceRun(chunks.text, size + 2)
  {
    PaddedRuns(size);
    PaddedArrayText(size);
    PaddedLooks(chunks, size);
    SkipOn(chunks.text, size, 2 * size);
    ValueFromChunks(chunks, 3, 2 * size);
    NoValueAtCloser(chunks.text, 2 * size + 1);
    assert ArrayRound(chunks, 1, size) == Stop(Invalid);
  }

  lemma PaddedChunks(size: nat) returns (chunks: Chunks)
    requires size >= 1
    ensures FixedChunks(chunks, size) && chunks.text == PaddedArray(size)
  {
    var cuts := if size == 1 then [0, 1, 2, 3, 4] else [0, size, 2 * size, 2 * size + 2];
    assert forall i: nat :: i < |cuts| ==> StepsUp(cuts, i);
    chunks := Split(PaddedArray(size), cuts);
  }

  /**
   * So the bound for chunks of a fixed size is sharp: for every size, some text with one more
   * white-space character in a row than a chunk holds is refused although it is valid.
   */
  lemma FixedBoundIsSharp(size: nat) returns (chunks: Chunks)
    requires size >= 1
    ensures FixedChunks(chunks, size) && NoSpaceRun(chunks.text, size + 2)
    ensures ReadTop(chunks) == Invalid && ReadText(chunks.text) == Some([])
  {
    chunks := PaddedChunks(size);
    PaddedArrayRefused(chunks, size);
  }
}
