/** Arrays under every chunking: how much white space the reader tolerates, and where. */
module JsonGaps {
  import opened Prelude
  import opened JsonStream
  import opened JsonText
  import opened JsonChunking
  import opened JsonSafety
  import opened JsonCuts

  predicate ArraySign(c: char) {
    c == ']' || c == ','
  }

  /** The next visible character is a bracket or comma behind two or more white-space characters. */
  predicate WideGap(t: string, pos: nat)
    requires pos <= |t|
  {
    var p := SkipSpace(t, pos);
    pos + 1 < p < |t| && ArraySign(t[p])
  }

  /** From `pos` on, at most one white-space character stands before each comma and the closing bracket. */
  predicate TightArray(t: string, pos: nat)
    requires pos <= |t|
    decreases |t| - pos
  {
    !WideGap(t, pos) &&
    match TextArrayRound(t, pos)
    case Halt(_) => true
    case Onward(_, next) => TightArray(t, next)
  }

  // ---- tight arrays ----

  /** Two skips get over one white-space character, whatever the chunks. */
  lemma NarrowGapSeen(a: Chunks, n: nat, pos: nat)
    requires At(a, n, pos) && SkipSpace(a.text, pos) <= pos + 1 && SkipSpace(a.text, pos) < |a.text|
    ensures var s := Look(a, n, pos); s.pos == SkipSpace(a.text, pos) && !SeesNothing(a, s)
  {
    SpotInText(a, n, pos, Look(a, n, pos));
    SkipOnceOn(a, n, pos);
  }

  lemma TightRoundSame(a: Chunks, n: nat, pos: nat)
    requires At(a, n, pos) && !WideGap(a.text, pos)
    ensures SameRound(ArrayRound(a, n, pos), TextArrayRound(a.text, pos))
  {
    var q := SkipSpace(a.text, pos);
    if q < |a.text| && ArraySign(a.text[q]) {
      NarrowGapSeen(a, n, pos);
    } else {
      EntryRoundSame(a, n, pos);
    }
  }

  lemma EntryRoundSame(a: Chunks, n: nat, pos: nat)
    requires At(a, n, pos)
    requires SkipSpace(a.text, pos) < |a.text| ==> !ArraySign(a.text[SkipSpace(a.text, pos)])
    ensures SameRound(ArrayRound(a, n, pos), TextArrayRound(a.text, pos))
  {
    var s := Look(a, n, pos);
    SpotInText(a, n, pos, s);
    ValueFromChunks(a, s.read, s.pos);
    LookReachesText(a, n, pos);
  }

  /** The reader looks past the buffer only at the end of the text. */
  lemma LookReachesText(a: Chunks, n: nat, pos: nat)
    requires At(a, n, pos)
    ensures SeesNothing(a, Look(a, n, pos)) ==> SkipSpace(a.text, pos) == |a.text|
  {
    var s := Look(a, n, pos);
    SpotInText(a, n, pos, s);
  }

  lemma {:induction false} TightArraySame(a: Chunks, n: nat, pos: nat)
    requires At(a, n, pos) && TightArray(a.text, pos)
    ensures Same(ReadArray(a, n, pos), TextArray(a.text, pos))
    decreases |a.text| - pos
  {
    TightRoundSame(a, n, pos);
    var x := ArrayRound(a, n, pos);
    if x.GoOn? { TightArraySame(a, x.read, x.pos); }
  }

  /** The first look follows a read, so it gets over two white-space characters. */
  lemma FirstLook(a: Chunks)
    requires Start(a.text) <= 2 && Start(a.text) < |a.text|
    ensures Count(a) > 0
    ensures var s := Look(a, 1, 0); s.pos == Start(a.text) && !SeesNothing(a, s)
  {
    var s := Look(a, 1, 0);
    assert StepsUp(a.cuts, 0);
    SpotInText(a, 1, 0, s);
    SkipOnceOn(a, 1, 0);
    LookReachesText(a, 1, 0);
  }

  lemma TightTopSame(a: Chunks)
    requires StartsWith(a.text, '[') && Start(a.text) <= 2 && TightArray(a.text, Start(a.text) + 1)
    ensures Returned(ReadTop(a)) == ReadText(a.text)
  {
    hide ReadArray, ReadObject, TextArray, TextObject, TightArray, Look;
    FirstLook(a);
    var s := Look(a, 1, 0);
    OpensArray(a, s);
    TightArraySame(a, s.read, s.pos + 1);
  }

  // ---- wide gaps ----

  /** The text in three chunks, the middle one being one character. */
  function OneInside(t: string, c: nat): Chunks
    requires 0 < c && c + 1 < |t|
  {
    var cuts := [0, c, c + 1, |t|];
    assert forall i: nat :: i < 4 ==> StepsUp(cuts, i);
    Split(t, cuts)
  }

  /** A wide gap that starts at a chunk boundary, with one character of it in a chunk of its own, hides the sign behind it. */
  lemma GapHides(a: Chunks, t: string, c: nat)
    requires 0 < c && c + 1 < |t| && a == OneInside(t, c) && WideGap(t, c)
    ensures At(a, 1, c) && ArrayRound(a, 1, c) == Stop(Invalid)
  {
    var q := SkipSpace(t, c);
    SkippedIsSpace(t, c, |t|);
    assert SkipOnce(a, 1, c) == Spot(c, 2);
    assert SkipTo(t, c + 1, c + 1) == c + 1;
    assert SkipOnce(a, 2, c) == Spot(c + 1, 3);
    SkipOn(t, c, c + 1);
    ValueFromChunks(a, 3, c + 1);
    NoValueAtCloser(t, q);
  }

  lemma {:induction false} WideGapBreaks(t: string, pos: nat) returns (c: nat)
    requires 0 < pos <= |t| && !TightArray(t, pos)
    ensures pos <= c && c + 1 < |t| && At(OneInside(t, c), 1, pos) && ReadArray(OneInside(t, c), 1, pos).Invalid?
    decreases |t| - pos
  {
    if WideGap(t, pos) {
      c := pos;
      GapHides(OneInside(t, c), t, c);
    } else {
      var next := TextArrayRound(t, pos).pos;
      c := WideGapBreaks(t, next);
      ArrayRoundWithin(OneInside(t, c), t, c, pos);
    }
  }

  lemma OpensArray(chunks: Chunks, s: Spot)
    requires At(chunks, s.read, s.pos) && Sees(chunks, s, '[')
    ensures ReadFrom(chunks, s) == ReadArray(chunks, s.read, s.pos + 1)
  {
    hide ReadArray, ReadObject;
  }

  lemma WideArrayTop(t: string) returns (a: Chunks)
    requires StartsWith(t, '[') && !TightArray(t, Start(t) + 1)
    ensures a.text == t && Returned(ReadTop(a)) == None
  {
    hide ReadArray;
    var c := WideGapBreaks(t, Start(t) + 1);
    a := OneInside(t, c);
    FirstChunk(a, t, c, 0);
    OpensArray(a, Spot(Start(t), 1));
  }

  /** Three white-space characters in front of everything, each in a chunk of its own. */
  lemma WideStartTop(t: string) returns (a: Chunks)
    requires 2 < Start(t) < |t|
    ensures a.text == t && Returned(ReadTop(a)) == None
  {
    a := OneInside(t, 1);
    SkippedIsSpace(t, 0, |t|);
    assert SkipTo(t, 0, 1) == SkipTo(t, 1, 1) == 1;
    assert SkipOnce(a, 1, 0) == Spot(1, 2);
    assert SkipTo(t, 1, 2) == SkipTo(t, 2, 2) == 2;
    assert SkipOnce(a, 2, 1) == Spot(2, 3);
    assert ReadTop(a) == ReadFrom(a, Spot(2, 3));
  }

  /** The text of an array that is read alike whatever the chunks. */
  predicate GapProof(t: string) {
    ReadText(t) == None || (Start(t) <= 2 && TightArray(t, Start(t) + 1))
  }

  /**
   * Every chunking of the text of an array gives the result of reading it in one piece exactly when that
   * read fails anyway, or at most two white-space characters come first and at most one stands before
   * each comma and the closing bracket.
   */
  lemma ArrayChunkingIff(t: string)
    requires StartsWith(t, '[')
    ensures (forall a: Chunks :: a.text == t ==> Returned(ReadTop(a)) == ReadText(t)) <==> GapProof(t)
  {
    hide ReadTop, ReadText, TightArray;
    if GapProof(t) {
      forall a: Chunks | a.text == t ensures Returned(ReadTop(a)) == ReadText(t) {
        if ReadText(t) == None { NeverOtherEntries(a); } else { TightTopSame(a); }
      }
    } else if Start(t) > 2 {
      var a := WideStartTop(t);
      assert Returned(ReadTop(a)) != ReadText(t);
    } else {
      var a := WideArrayTop(t);
      assert Returned(ReadTop(a)) != ReadText(t);
    }
  }
}
