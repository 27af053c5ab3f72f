/** When the chunks in which the file is read make a difference to the reader, and when they do not. */
module JsonChunking {
  import opened Prelude
  import opened JsonDecoder
  import opened JsonPrefix
  import opened JsonStream
  import opened JsonText

  /** The same entries up to the same position, or both refused. */
  ghost predicate Same(a: Outcome, w: Whole) {
    match (a, w)
    case (Entries(x, i, _), Whole(y, j)) => x == y && i == j
    case (Invalid, Broken) => true
    case _ => false
  }

  ghost predicate SameRound(a: Round, w: TextRound) {
    match (a, w)
    case (Stop(x), Halt(y)) => Same(x, y)
    case (GoOn(x, i, _), Onward(y, j)) => x == y && i == j
    case _ => false
  }

  ghost predicate SameKey(a: KeyOutcome, w: TextKey) {
    match (a, w)
    case (Key(x, i, _), KeyAt(y, j)) => x == y && i == j
    case (Ended(i, _), EndAt(j)) => i == j
    case (NoKey, NoTextKey) => true
    case _ => false
  }

  lemma {:induction false} DigitsAreNumberChars(t: string, i: nat)
    requires i <= |t|
    ensures forall k :: i <= k < DigitsEnd(t, i) ==> NumberChar(t[k])
    decreases |t| - i
  {
    if i < |t| && Digit(t[i]) { DigitsAreNumberChars(t, i + 1); }
  }

  /** Every character of a number could continue one. */
  lemma NumberCharsInside(t: string, i: nat)
    requires i <= |t| && ParseNumber(t, i).Got?
    ensures forall k :: i <= k < ParseNumber(t, i).end ==> NumberChar(t[k])
  {
    var j := NumberStart(t, i);
    var a := IntegerEnd(t, j);
    var b := FractionEnd(t, a);
    DigitsAreNumberChars(t, j);
    if a + 1 <= |t| { DigitsAreNumberChars(t, a + 1); }
    if b + 1 <= |t| { DigitsAreNumberChars(t, b + 1); }
    if b + 2 <= |t| { DigitsAreNumberChars(t, b + 2); }
  }

  // ---- white space and chunk boundaries ----

  predicate Blank(s: string) {
    forall i :: 0 <= i < |s| ==> IsSpace(s[i])
  }

  /** Chunk `i` is not a chunk of nothing but white space that is followed by more white space. */
  predicate SmoothAt(chunks: Chunks, i: nat) {
    i + 1 < Count(chunks) && Blank(Chunk(chunks, i)) ==> !IsSpace(Chunk(chunks, i + 1)[0])
  }

  predicate Smooth(chunks: Chunks) {
    forall i :: 0 <= i < Count(chunks) ==> SmoothAt(chunks, i)
  }

  lemma {:induction false} SkipOn(t: string, i: nat, k: nat)
    requires i <= k <= |t| && forall n :: i <= n < k ==> IsSpace(t[n])
    ensures SkipSpace(t, i) == SkipSpace(t, k)
    decreases k - i
  {
    if i < k { SkipOn(t, i + 1, k); }
  }

  /** Skipping once never passes a visible character. */
  lemma SkipOnceOn(chunks: Chunks, n: nat, pos: nat)
    requires At(chunks, n, pos)
    ensures var s := SkipOnce(chunks, n, pos);
      SkipSpace(chunks.text, s.pos) == SkipSpace(chunks.text, pos) &&
      (s.pos < chunks.cuts[n] ==> s.pos == SkipSpace(chunks.text, pos))
  {
    SkippedIsSpace(chunks.text, pos, chunks.cuts[n]);
    SkipOn(chunks.text, pos, SkipOnce(chunks, n, pos).pos);
  }

  /** In a smooth chunking the reader always looks at the next visible character, or at the end of the text. */
  lemma LookSettles(chunks: Chunks, n: nat, pos: nat)
    requires Smooth(chunks) && At(chunks, n, pos)
    ensures var s := Look(chunks, n, pos);
      s.pos == SkipSpace(chunks.text, pos) && (s.pos < |chunks.text| ==> s.pos < chunks.cuts[s.read])
  {
    SkipOnceOn(chunks, n, pos);
    var s := SkipOnce(chunks, n, pos);
    SkipOnceOn(chunks, s.read, s.pos);
    var s' := SkipOnce(chunks, s.read, s.pos);
    if s.read == n + 1 && s'.read == n + 2 {
      BlankChunk(chunks, n);
      assert SmoothAt(chunks, n);
      assert chunks.text[s'.pos] == Chunk(chunks, n + 1)[0];
    }
  }

  lemma BlankChunk(chunks: Chunks, n: nat)
    requires n < Count(chunks) && chunks.cuts[n] < chunks.cuts[n + 1]
    requires SkipTo(chunks.text, chunks.cuts[n], chunks.cuts[n + 1]) == chunks.cuts[n + 1]
    ensures Blank(Chunk(chunks, n))
  {
    SkippedIsSpace(chunks.text, chunks.cuts[n], chunks.cuts[n + 1]);
    forall i | 0 <= i < |Chunk(chunks, n)| ensures IsSpace(Chunk(chunks, n)[i]) {
      assert chunks.text[chunks.cuts[n] + i] == Chunk(chunks, n)[i];
    }
  }

  // ---- decoding ----

  /**
   * `r` is what decoding the whole text at `q` gives, except that a number may come out shorter, and
   * then the text goes on with a character of that number.
   */
  ghost predicate Agrees(t: string, q: nat, r: Found, w: Decoded<Json>) {
    match w
    case Bad => r.Missing?
    case Got(v, e) =>
      q <= e <= |t| && r.Found? &&
      if v.JNumber? then r.value.JNumber? && NumberStart(t, q) < r.end <= e && (r.end < e ==> NumberChar(t[r.end]))
      else r.value == v && r.end == e
  }

  lemma NumberAgrees(b: string, t: string, p: nat, read: nat)
    requires b <= t && p <= |b| && ParseValue(b, p).Got? && ParseValue(b, p).value.JNumber?
    ensures Agrees(t, p, Found(ParseValue(b, p).value, ParseValue(b, p).end, read), ParseValue(t, p))
  {
    NumberPrefix(b, t, p);
    NumberCharsInside(t, p);
  }

  lemma DecodedAgrees(b: string, t: string, p: nat, read: nat)
    requires b <= t && p <= |b| && ParseValue(b, p).Got?
    ensures p < |t| && SkipSpace(t, p) == p
    ensures Agrees(t, p, Found(ParseValue(b, p).value, ParseValue(b, p).end, read), ParseValue(t, p))
  {
    ValueIsVisible(b, p);
    if ParseValue(b, p).value.JNumber? { NumberAgrees(b, t, p, read); } else { ValueExtends(b, t, p); }
  }

  lemma {:induction false} DecodeFromChunks(chunks: Chunks, n: nat, p: nat)
    requires At(chunks, n, p)
    ensures var q := SkipSpace(chunks.text, p);
      Agrees(chunks.text, q, DecodeLoop(chunks, n, p), ParseValue(chunks.text, q))
    decreases Count(chunks) - n, |chunks.text| - p
  {
    var b, t := Buffer(chunks, n), chunks.text;
    var q := SkipSpace(t, p);
    if ParseValue(b, p).Got? {
      DecodedAgrees(b, t, p, n);
    } else if n < Count(chunks) {
      assert StepsUp(chunks.cuts, n);
      SkipOnceOn(chunks, n + 1, p);
      var s := SkipOnce(chunks, n + 1, p);
      DecodeFromChunks(chunks, s.read, s.pos);
    } else {
      assert b == t;
      if q > p {
        DecodeFromChunks(chunks, n, q);
        assert SkipSpace(t, q) == q;
      }
    }
  }

  lemma ValueFromChunks(chunks: Chunks, n: nat, pos: nat)
    requires At(chunks, n, pos)
    ensures var q := SkipSpace(chunks.text, pos);
      Agrees(chunks.text, q, DecodeValue(chunks, n, pos), ParseValue(chunks.text, q))
  {
    SkipOnceOn(chunks, n, pos);
    var s := SkipOnce(chunks, n, pos);
    DecodeFromChunks(chunks, s.read, s.pos);
  }

  // ---- arrays ----

  lemma ArrayRoundSame(a: Chunks, n: nat, pos: nat)
    requires Smooth(a) && At(a, n, pos)
    ensures SameRound(ArrayRound(a, n, pos), TextArrayRound(a.text, pos))
  {
    LookSettles(a, n, pos);
    var s := Look(a, n, pos);
    ValueFromChunks(a, s.read, s.pos);
    assert SkipSpace(a.text, s.pos) == s.pos;
  }

  /** Among the entries of an array, smooth chunk boundaries never matter. */
  lemma {:induction false} ArraySame(a: Chunks, n: nat, pos: nat)
    requires Smooth(a) && At(a, n, pos)
    ensures Same(ReadArray(a, n, pos), TextArray(a.text, pos))
    decreases |a.text| - pos
  {
    ArrayRoundSame(a, n, pos);
    var x := ArrayRound(a, n, pos);
    if x.GoOn? {
      ArraySame(a, x.read, x.pos);
    }
  }

  // ---- objects ----

  lemma ColonSame(a: Chunks, codes: seq<nat>, k: nat, e: nat)
    requires Smooth(a) && At(a, k, e)
    ensures SameKey(Colon(a, codes, k, e), TextColon(a.text, codes, e))
  {
    LookSettles(a, k, e);
    var s := Look(a, k, e);
  }

  lemma KeySame(a: Chunks, n: nat, pos: nat)
    requires Smooth(a) && At(a, n, pos)
    ensures SameKey(ReadKey(a, n, pos), TextReadKey(a.text, pos))
  {
    LookSettles(a, n, pos);
    var s := Look(a, n, pos);
    ValueFromChunks(a, s.read, s.pos);
    assert SkipSpace(a.text, s.pos) == s.pos;
    var r := DecodeValue(a, s.read, s.pos);
    if r.Found? && r.value.JString? {
      ColonSame(a, r.value.codes, r.read, r.end);
    }
  }

  /** A number of more than one digit, which a chunk boundary can cut into two numbers. */
  predicate MultiDigit(lexeme: string) {
    |lexeme| >= 2 && (lexeme[0] == '-' ==> |lexeme| >= 3)
  }

  predicate LongNumber(v: Json) {
    v.JNumber? && MultiDigit(v.lexeme)
  }

  predicate LongNumberAt(t: string, i: nat)
    requires i <= |t|
  {
    ParseValue(t, i).Got? && LongNumber(ParseValue(t, i).value)
  }

  /** The member at `pos`, if there is one, does not have a number of several digits as its value. */
  predicate MemberClean(t: string, pos: nat)
    requires pos <= |t|
  {
    match TextReadKey(t, pos)
    case KeyAt(_, start) => !LongNumberAt(t, SkipSpace(t, start))
    case _ => true
  }

  /** No member from `pos` on has a number of several digits as its direct value. */
  predicate NoMultiDigit(t: string, pos: nat)
    requires pos <= |t|
    decreases |t| - pos
  {
    MemberClean(t, pos) &&
    match TextObjectRound(t, pos)
    case Halt(_) => true
    case Onward(_, next) => NoMultiDigit(t, next)
  }

  /** Without a long number, decoding gives the whole value and its end, up to the digits of a number. */
  ghost predicate Exact(r: Found, w: Decoded<Json>) {
    match w
    case Bad => r.Missing?
    case Got(v, e) => r.Found? && r.end == e && (r.value == v || (r.value.JNumber? && v.JNumber?))
  }

  lemma ShortIsExact(t: string, q: nat, r: Found)
    requires q <= |t| && Agrees(t, q, r, ParseValue(t, q)) && !LongNumberAt(t, q)
    ensures Exact(r, ParseValue(t, q))
  {
    var w := ParseValue(t, q);
    if w.Got? && w.value.JNumber? {
      assert ParseNumber(t, q).Got? && w.value.lexeme == t[q..w.end];
    }
  }

  lemma AfterSame(a: Chunks, entries: seq<Json>, n: nat, pos: nat)
    requires Smooth(a) && At(a, n, pos)
    ensures SameRound(AfterMember(a, entries, n, pos), TextAfter(a.text, entries, pos))
    ensures pos < |a.text| && NumberChar(a.text[pos]) ==>
      AfterMember(a, entries, n, pos).GoOn? && AfterMember(a, entries, n, pos).pos == pos
  {
    LookSettles(a, n, pos);
  }

  lemma OtherSame(a: Chunks, n: nat, pos: nat)
    requires Smooth(a) && At(a, n, pos) && !LongNumberAt(a.text, SkipSpace(a.text, pos))
    ensures SameRound(OtherRound(a, n, pos), TextOtherRound(a.text, pos))
  {
    ValueFromChunks(a, n, pos);
    var r := DecodeValue(a, n, pos);
    ShortIsExact(a.text, SkipSpace(a.text, pos), r);
    if r.Found? { AfterSame(a, [], r.read, r.end); }
  }

  lemma ValueKind(t: string, p: nat)
    requires p <= |t| && ParseValue(t, p).Got?
    ensures p < |t| && (ParseValue(t, p).value.JArray? <==> t[p] == '[') && (ParseValue(t, p).value.JString? <==> t[p] == '"')
  {
  }

  lemma AfterArraySame(a: Chunks, pos: nat, o: Outcome, w: Whole)
    requires Smooth(a) && Same(o, w)
    requires o.Entries? ==> pos < o.end <= |a.text| && At(a, o.read, o.end)
    ensures SameRound(AfterArray(a, pos, o), TextAfterArray(a.text, pos, w))
  {
    if o.Entries? { AfterSame(a, o.entries, o.read, o.end); }
  }

  lemma SkillsStreams(a: Chunks, s: Spot)
    requires At(a, s.read, s.pos) && Sees(a, s, '[')
    ensures SkillsArray(a, s) == AfterArray(a, s.pos, ReadArray(a, s.read, s.pos + 1))
  {
    hide ReadArray;
  }

  lemma TextSkillsStreams(t: string, p: nat)
    requires p < |t| && t[p] == '['
    ensures TextSkillsArray(t, p) == TextAfterArray(t, p, TextArray(t, p + 1))
  {
  }

  lemma StreamedSame(a: Chunks, n: nat, p: nat)
    requires Smooth(a) && At(a, n, p + 1) && p < |a.text|
    ensures SameRound(AfterArray(a, p, ReadArray(a, n, p + 1)), TextAfterArray(a.text, p, TextArray(a.text, p + 1)))
  {
    ArraySame(a, n, p + 1);
    AfterArraySame(a, p, ReadArray(a, n, p + 1), TextArray(a.text, p + 1));
  }

  lemma SkillsArraySame(a: Chunks, s: Spot)
    requires Smooth(a) && At(a, s.read, s.pos) && Sees(a, s, '[')
    ensures SameRound(SkillsArray(a, s), TextSkillsArray(a.text, s.pos))
  {
    SkillsStreams(a, s);
    TextSkillsStreams(a.text, s.pos);
    StreamedSame(a, s.read, s.pos);
  }

  lemma SkillsValueSame(a: Chunks, s: Spot)
    requires At(a, s.read, s.pos) && SkipSpace(a.text, s.pos) == s.pos && !LongNumberAt(a.text, s.pos)
    requires s.pos < a.cuts[s.read] && !Sees(a, s, '[')
    ensures SameRound(SkillsValue(a, s), TextSkillsValue(a.text, s.pos))
  {
    ValueFromChunks(a, s.read, s.pos);
    ShortIsExact(a.text, s.pos, DecodeValue(a, s.read, s.pos));
    if ParseValue(a.text, s.pos).Got? { ValueKind(a.text, s.pos); }
  }

  lemma SkillsAtSame(a: Chunks, s: Spot)
    requires Smooth(a) && At(a, s.read, s.pos) && SkipSpace(a.text, s.pos) == s.pos && !LongNumberAt(a.text, s.pos)
    requires s.pos < |a.text| ==> s.pos < a.cuts[s.read]
    ensures SameRound(SkillsAt(a, s), TextSkillsAt(a.text, s.pos))
  {
    if s.pos < |a.text| {
      if a.text[s.pos] == '[' {
        SkillsArraySame(a, s);
      } else {
        SkillsValueSame(a, s);
      }
    }
  }

  lemma SkillsSame(a: Chunks, n: nat, pos: nat)
    requires Smooth(a) && At(a, n, pos) && !LongNumberAt(a.text, SkipSpace(a.text, pos))
    ensures SameRound(SkillsRound(a, n, pos), TextSkillsRound(a.text, pos))
  {
    LookSettles(a, n, pos);
    SkillsAtSame(a, Look(a, n, pos));
  }

  lemma ObjectRoundSame(a: Chunks, n: nat, pos: nat)
    requires Smooth(a) && At(a, n, pos) && MemberClean(a.text, pos)
    ensures SameRound(ObjectRound(a, n, pos), TextObjectRound(a.text, pos))
  {
    KeySame(a, n, pos);
    var x := ReadKey(a, n, pos);
    if x.Key? {
      if x.codes == SKILLS {
        SkillsSame(a, x.read, x.start);
      } else {
        OtherSame(a, x.read, x.start);
      }
    }
  }

  /** Without numbers of several digits among the members, smooth chunk boundaries do not matter. */
  lemma {:induction false} ObjectSame(a: Chunks, n: nat, pos: nat)
    requires Smooth(a) && At(a, n, pos) && NoMultiDigit(a.text, pos)
    ensures Same(ReadObject(a, n, pos), TextObject(a.text, pos))
    decreases |a.text| - pos
  {
    ObjectRoundSame(a, n, pos);
    var x := ObjectRound(a, n, pos);
    if x.GoOn? {
      ObjectSame(a, x.read, x.pos);
    }
  }

  lemma NoTextKeyInNumber(t: string, e: nat)
    requires e < |t| && NumberChar(t[e])
    ensures TextReadKey(t, e) == NoTextKey
  {
    assert SkipSpace(t, e) == e;
    if ParseValue(t, e).Got? { ValueKind(t, e); }
  }

  /** In the middle of a number no key follows, so the read fails. */
  lemma NoKeyInNumber(a: Chunks, k: nat, e: nat)
    requires Smooth(a) && At(a, k, e) && e < |a.text| && NumberChar(a.text[e])
    ensures ReadObject(a, k, e).Invalid?
  {
    KeySame(a, k, e);
    NoTextKeyInNumber(a.text, e);
    assert ObjectRound(a, k, e) == Stop(Invalid);
  }
}
