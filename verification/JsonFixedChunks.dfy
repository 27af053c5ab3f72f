/** Chunks of one size: for every size, some valid index is refused because a number lies across a boundary. */
module JsonFixedChunks {
  import opened Prelude
  import opened JsonDecoder
  import opened JsonPrefix
  import opened JsonStream
  import opened JsonText
  import opened JsonChunking
  import opened JsonMembers
  import opened JsonSafety
  import opened JsonCuts

  // ---- texts without white space ----

  /** No white space at all. */
  predicate Dense(t: string) {
    forall i :: 0 <= i < |t| ==> !IsSpace(t[i])
  }

  lemma DenseIsSmooth(a: Chunks)
    requires Dense(a.text)
    ensures Smooth(a)
  {
    forall i: nat | i < Count(a) ensures SmoothAt(a, i) {
      var chunk := Chunk(a, i);
      assert chunk[0] == a.text[a.cuts[i]];
    }
  }

  /** In such a text, a look at the end of the buffer reads one chunk, and any other look reads nothing. */
  lemma DenseLook(a: Chunks, n: nat, pos: nat)
    requires Dense(a.text) && At(a, n, pos) && pos < |a.text|
    ensures n < Count(a) || pos < a.cuts[n]
    ensures Look(a, n, pos) == SkipOnce(a, n, pos) == Spot(pos, if pos < a.cuts[n] then n else n + 1)
  {
    if n < Count(a) { assert StepsUp(a.cuts, n); }
  }

  /** A value that cannot be decoded yet goes on behind what has been read. */
  lemma NotYetDecoded(a: Chunks, n: nat, p: nat)
    requires At(a, n, p) && ParseValue(a.text, p).Got? && ParseValue(Buffer(a, n), p).Bad?
    ensures n < Count(a) && a.cuts[n] < ParseValue(a.text, p).end
  {
    var b, t := Buffer(a, n), a.text;
    if ParseValue(t, p).end <= a.cuts[n] { ValueRestricts(b, t, p); }
    assert n == Count(a) ==> b == t;
  }

  /** Then one more chunk is read. */
  lemma ReadsOn(a: Chunks, n: nat, p: nat)
    requires n < Count(a) && p <= a.cuts[n] && p < |a.text| && !IsSpace(a.text[p])
    requires ParseValue(Buffer(a, n), p).Bad?
    ensures At(a, n + 1, p)
    ensures DecodeLoop(a, n, p) == DecodeLoop(a, n + 1, p)
  {
    hide ParseValue;
    assert StepsUp(a.cuts, n);
    assert SkipOnce(a, n + 1, p) == Spot(p, n + 1);
  }

  ghost predicate JustRead(a: Chunks, w: Decoded<Json>, r: Found) {
    w.Got? && r.Found? && r.value == w.value && r.end == w.end && 1 <= r.read <= Count(a) &&
    a.cuts[r.read - 1] < w.end <= a.cuts[r.read]
  }

  lemma DecodedNow(a: Chunks, n: nat, p: nat)
    requires At(a, n, p) && n >= 1 && ParseValue(Buffer(a, n), p).Got?
    requires var w := ParseValue(a.text, p); w.Got? && !w.value.JNumber? && a.cuts[n - 1] < w.end
    ensures JustRead(a, ParseValue(a.text, p), DecodeLoop(a, n, p))
  {
    hide ParseValue;
    DecodedAgrees(Buffer(a, n), a.text, p, n);
  }

  /** A value is decoded as soon as its last character has been read. */
  lemma {:induction false} DecodedAtOnce(a: Chunks, n: nat, p: nat)
    requires At(a, n, p) && n >= 1 && p < |a.text| && !IsSpace(a.text[p])
    requires var w := ParseValue(a.text, p); w.Got? && !w.value.JNumber? && a.cuts[n - 1] < w.end
    ensures JustRead(a, ParseValue(a.text, p), DecodeLoop(a, n, p))
    decreases Count(a) - n
  {
    hide DecodeLoop, ParseValue, JustRead, IsSpace;
    if ParseValue(Buffer(a, n), p).Got? {
      DecodedNow(a, n, p);
    } else {
      NotYetDecoded(a, n, p);
      ReadsOn(a, n, p);
      DecodedAtOnce(a, n + 1, p);
    }
  }

  // ---- the index ----

  function Letters(k: nat): (r: string)
    ensures |r| == k && forall i :: 0 <= i < k ==> r[i] == 'a'
  {
    seq(k, i => 'a')
  }

  /** An object with one member, a number of two digits, whose second digit is at five times the size. */
  function Straddling(size: nat): (t: string)
    requires size >= 1
    ensures |t| == 5 * size + 2 && Dense(t) && t[0] == '{' && t[1] == '"'
    ensures forall i :: 2 <= i < 5 * size - 3 ==> t[i] == 'a'
    ensures t[5 * size - 3] == '"' && t[5 * size - 2] == ':' && t[5 * size - 1] == '1' && t[5 * size] == '2'
    ensures t[5 * size + 1] == '}'
  {
    "{\"" + Letters(5 * size - 5) + "\":12}"
  }

  function Codes(k: nat): (r: seq<nat>)
    ensures |r| == k && r != SKILLS
  {
    var r: seq<nat> := seq(k, i => 97);
    assert k > 0 ==> r[0] == 97 && SKILLS[0] == 115;
    r
  }

  lemma {:induction false} LettersScanned(t: string, i: nat, j: nat)
    requires i <= j < |t| && t[j] == '"' && forall k :: i <= k < j ==> t[k] == 'a'
    ensures ScanString(t, i) == Got(Codes(j - i), j + 1)
    decreases j - i
  {
    if i < j {
      LettersScanned(t, i + 1, j);
      assert [97] + Codes(j - i - 1) == Codes(j - i);
    } else {
      assert Codes(0) == [];
    }
  }

  lemma KeyParsed(size: nat)
    requires size >= 1
    ensures ParseValue(Straddling(size), 1) == Got(JString(Codes(5 * size - 5)), 5 * size - 2)
  {
    LettersScanned(Straddling(size), 2, 5 * size - 3);
  }

  lemma NumberParsed(size: nat)
    requires size >= 1
    ensures var t, q := Straddling(size), 5 * size - 1;
      ParseNumber(t, q) == Got("12", q + 2) && ParseValue(t, q) == Got(JNumber("12"), q + 2)
  {
    var t, q := Straddling(size), 5 * size - 1;
    assert DigitsEnd(t, q + 2) == q + 2 && DigitsEnd(t, q + 1) == q + 2 && DigitsEnd(t, q) == q + 2;
    assert t[q..q + 2] == "12";
  }

  lemma MemberParsed(size: nat)
    requires size >= 1
    ensures ParseMembers(Straddling(size), 1) == Got([Member(Codes(5 * size - 5), JNumber("12"))], 5 * size + 2)
  {
    var t, q := Straddling(size), 5 * size - 1;
    LettersScanned(t, 2, 5 * size - 3);
    NumberParsed(size);
    hide ParseValue, ScanString, Straddling, Codes, ParseNumber;
    assert SkipJson(t, q - 1) == q - 1 && SkipJson(t, q) == q;
    assert ParseKey(t, 1) == Got(Codes(5 * size - 5), q);
    assert AfterElement(t, q + 2, '}') == Closed(q + 3);
  }

  lemma ObjectParsed(t: string, members: seq<Member>)
    requires |t| > 2 && Dense(t) && t[0] == '{' && t[1] != '}' && ParseMembers(t, 1) == Got(members, |t|)
    ensures LoadDocument(t) == Got(JObject(members), |t|)
  {
    hide ParseMembers;
    assert SkipJson(t, 0) == 0 && SkipJson(t, 1) == 1 && SkipJson(t, |t|) == |t|;
    assert ParseObject(t, 1) == Got(members, |t|);
  }

  lemma NoEntries(m: Member)
    requires m.key != SKILLS
    ensures Streamed([m]) == Some([])
  {
    assert [m][1..] == [];
  }

  /** The document is a valid index without entries. */
  lemma StraddlingIsValid(size: nat)
    requires size >= 1
    ensures LoadDocument(Straddling(size)).Got? && ReadText(Straddling(size)) == Some([])
  {
    hide ParseMembers, LoadDocument, ReadText, Streamed, Straddling, Codes;
    var t, m := Straddling(size), Member(Codes(5 * size - 5), JNumber("12"));
    MemberParsed(size);
    ObjectParsed(t, [m]);
    ReadTextPicks(t);
    NoEntries(m);
  }

  // ---- its chunks ----

  /** Whole chunks of the given size come first. */
  lemma {:induction false} FixedCutAt(a: Chunks, size: nat, i: nat)
    requires FixedChunks(a, size) && i * size < |a.text|
    ensures i < Count(a) && a.cuts[i] == i * size
  {
    if i > 0 {
      assert (i - 1) * size == i * size - size;
      FixedCutAt(a, size, i - 1);
      assert StepsUp(a.cuts, i - 1);
      assert |Chunk(a, i - 1)| == a.cuts[i] - a.cuts[i - 1];
    }
  }

  lemma {:induction false} CutsIncrease(a: Chunks, i: nat, j: nat)
    requires i < j <= Count(a)
    ensures a.cuts[i] < a.cuts[j]
  {
    assert StepsUp(a.cuts, j - 1);
    if i < j - 1 { CutsIncrease(a, i, j - 1); }
  }

  /** A position lies in only one chunk. */
  lemma ChunkOf(a: Chunks, i: nat, j: nat, pos: nat)
    requires 1 <= i <= Count(a) && 1 <= j <= Count(a)
    requires a.cuts[i - 1] <= pos < a.cuts[i] && a.cuts[j - 1] <= pos < a.cuts[j]
    ensures i == j
  {
    if i < j - 1 { CutsIncrease(a, i, j - 1); }
    if j < i - 1 { CutsIncrease(a, j, i - 1); }
  }

  // ---- the read ----

  /** The key is read with no chunk more than its colon needs. */
  lemma StraddlingKey(a: Chunks, size: nat)
    requires size >= 1 && a.text == Straddling(size) && At(a, 1, 1)
    ensures var key := ReadKey(a, 1, 1);
      key.Key? && key.codes != SKILLS && key.start == 5 * size - 1 && 1 <= key.read <= Count(a) &&
      a.cuts[key.read - 1] <= key.start
  {
    hide DecodeLoop, ParseValue, Straddling, Codes;
    DenseLook(a, 1, 1);
    KeyParsed(size);
    var s := Look(a, 1, 1);
    DenseLook(a, s.read, 1);
    DecodedAtOnce(a, s.read, 1);
    var r := DecodeValue(a, s.read, 1);
    assert r == DecodeLoop(a, s.read, 1);
    DenseLook(a, r.read, r.end);
  }

  /** The first digit alone is taken for the number. */
  lemma StraddlingNumber(a: Chunks, size: nat, k: nat)
    requires size >= 1 && FixedChunks(a, size) && a.text == Straddling(size)
    requires 1 <= k && At(a, k, 5 * size - 1) && a.cuts[k - 1] <= 5 * size - 1
    ensures var r := DecodeValue(a, k, 5 * size - 1);
      r.Found? && r.value.JNumber? && r.end == 5 * size && r.read <= Count(a) && a.cuts[r.read] == 5 * size
  {
    var t, q := a.text, 5 * size - 1;
    FixedCutAt(a, size, 5);
    FixedCutAt(a, size, 4);
    DenseLook(a, k, q);
    var s := SkipOnce(a, k, q);
    ChunkOf(a, s.read, 5, q);
    NumberParsed(size);
    ShortNumber(t, q, q + 1);
    assert Buffer(a, 5) == t[..q + 1];
  }

  lemma StraddlingRound(a: Chunks, size: nat)
    requires size >= 1 && FixedChunks(a, size) && a.text == Straddling(size) && At(a, 1, 1)
    ensures var x := ObjectRound(a, 1, 1); x.GoOn? && x.pos == 5 * size
  {
    hide ReadKey, DecodeValue;
    StraddlingKey(a, size);
    var key := ReadKey(a, 1, 1);
    StraddlingNumber(a, size, key.read);
    var r := DecodeValue(a, key.read, key.start);
    DenseLook(a, r.read, r.end);
  }

  /** However the file hands it out in chunks of that size, this valid index is refused. */
  lemma StraddlingRefused(a: Chunks, size: nat)
    requires size >= 1 && FixedChunks(a, size) && a.text == Straddling(size)
    ensures ReadTop(a) == Invalid && ReadText(a.text) == Some([])
  {
    hide ReadObject, ObjectRound;
    StraddlingIsValid(size);
    FixedCutAt(a, size, 0);
    DenseIsSmooth(a);
    assert StepsUp(a.cuts, 0);
    DenseLook(a, 1, 0);
    OpensObject(a, Spot(0, 1));
    StraddlingRound(a, size);
    var x := ObjectRound(a, 1, 1);
    NoKeyInNumber(a, x.read, x.pos);
    GoesOnToFailure(a);
  }

  lemma GoesOnToFailure(a: Chunks)
    requires At(a, 1, 1) && ObjectRound(a, 1, 1).GoOn?
    requires var x := ObjectRound(a, 1, 1); ReadObject(a, x.read, x.pos).Invalid?
    ensures ReadObject(a, 1, 1).Invalid?
  {
    hide ObjectRound;
  }

  lemma StraddlingChunks(size: nat) returns (a: Chunks)
    requires size >= 1
    ensures FixedChunks(a, size) && a.text == Straddling(size)
  {
    var n := size;
    var cuts := if n == 1 then [0, 1, 2, 3, 4, 5, 6, 7] else [0, n, 2 * n, 3 * n, 4 * n, 5 * n, 5 * n + 2];
    assert forall i: nat :: i < |cuts| ==> StepsUp(cuts, i);
    a := Split(Straddling(n), cuts);
  }

  /** For every chunk size, some valid index without white space is refused although nothing is wrong with it. */
  lemma NumberAcrossBoundary(size: nat) returns (a: Chunks)
    requires size >= 1
    ensures FixedChunks(a, size) && Dense(a.text) && LoadDocument(a.text).Got?
    ensures ReadTop(a) == Invalid && ReadText(a.text) == Some([])
  {
    a := StraddlingChunks(size);
    StraddlingIsValid(size);
    StraddlingRefused(a, size);
  }
}
