/**
 * What the incremental index reader computes, as a function of the chunks in which the file hands
 * out its text.  `read` counts the chunks in the buffer; the buffer is never trimmed.
 */
module JsonStream {
  import opened Prelude
  import opened JsonDecoder

  predicate StepsUp(cuts: seq<nat>, i: nat) {
    i + 1 < |cuts| ==> cuts[i] < cuts[i + 1]
  }

  /** A text and the positions up to which it has been handed out after each chunk. */
  datatype Split = Split(text: string, cuts: seq<nat>) {
    predicate Valid() {
      |cuts| > 0 && cuts[0] == 0 && cuts[|cuts| - 1] == |text| &&
      (forall i :: 0 <= i < |cuts| ==> cuts[i] <= |text|) &&
      forall i :: 0 <= i < |cuts| ==> StepsUp(cuts, i)
    }
  }

  /** A text in non-empty chunks. */
  type Chunks = s: Split | s.Valid() witness Split("", [0])

  function Count(chunks: Chunks): nat {
    |chunks.cuts| - 1
  }

  function Chunk(chunks: Chunks, i: nat): (r: string)
    requires i < Count(chunks)
    ensures r != "" && chunks.cuts[i] < chunks.cuts[i + 1]
  {
    assert StepsUp(chunks.cuts, i);
    chunks.text[chunks.cuts[i]..chunks.cuts[i + 1]]
  }

  /** The buffer after `n` chunks. */
  function Buffer(chunks: Chunks, n: nat): (r: string)
    requires n <= Count(chunks)
    ensures |r| == chunks.cuts[n]
  {
    chunks.text[..chunks.cuts[n]]
  }

  /** The first visible character from `i` on, or `limit`. */
  function SkipTo(s: string, i: nat, limit: nat): (j: nat)
    requires i <= limit <= |s|
    ensures i <= j <= limit && (j < limit ==> !IsSpace(s[j]))
    decreases limit - i
  {
    if i < limit && IsSpace(s[i]) then SkipTo(s, i + 1, limit) else i
  }

  lemma {:induction false} SkippedIsSpace(s: string, i: nat, limit: nat)
    requires i <= limit <= |s|
    ensures forall k :: i <= k < SkipTo(s, i, limit) ==> IsSpace(s[k])
    decreases limit - i
  {
    if i < limit && IsSpace(s[i]) { SkippedIsSpace(s, i + 1, limit); }
  }

  function SkipSpace(s: string, i: nat): (j: nat)
    requires i <= |s|
    ensures i <= j <= |s| && (j < |s| ==> !IsSpace(s[j]))
  {
    SkipTo(s, i, |s|)
  }

  ghost predicate At(chunks: Chunks, n: nat, pos: nat)
    ensures At(chunks, n, pos) ==> pos <= |chunks.text|
  {
    n <= Count(chunks) && pos <= chunks.cuts[n]
  }

  /** A position and the number of chunks in the buffer. */
  datatype Spot = Spot(pos: nat, read: nat)

  /**
   * One call of the white-space skipper.  When it runs out of buffer it reads one chunk and stops at
   * the start of that chunk, whatever character is there.
   */
  function SkipOnce(chunks: Chunks, n: nat, pos: nat): (r: Spot)
    requires At(chunks, n, pos)
    ensures pos <= r.pos && n <= r.read && At(chunks, r.read, r.pos)
    ensures r.pos < chunks.cuts[r.read] || (r.read == Count(chunks) && r.pos == chunks.cuts[r.read])
  {
    var p := SkipTo(chunks.text, pos, chunks.cuts[n]);
    if p < chunks.cuts[n] || n == Count(chunks) then Spot(p, n)
    else assert StepsUp(chunks.cuts, n); Spot(p, n + 1)
  }

  /** The reader skips white space twice before it looks at a character. */
  function Look(chunks: Chunks, n: nat, pos: nat): (r: Spot)
    requires At(chunks, n, pos)
    ensures pos <= r.pos && n <= r.read && At(chunks, r.read, r.pos)
  {
    var s := SkipOnce(chunks, n, pos);
    SkipOnce(chunks, s.read, s.pos)
  }

  predicate Sees(chunks: Chunks, s: Spot, c: char)
    requires s.read <= Count(chunks)
  {
    s.pos < chunks.cuts[s.read] && chunks.text[s.pos] == c
  }

  predicate SeesNothing(chunks: Chunks, s: Spot)
    requires s.read <= Count(chunks)
  {
    s.pos >= chunks.cuts[s.read]
  }

  datatype Found = Found(value: Json, end: nat, read: nat) | Missing

  /** Decode at `p`, reading on and skipping white space as long as no complete value is there. */
  function DecodeLoop(chunks: Chunks, n: nat, p: nat): (r: Found)
    requires At(chunks, n, p)
    ensures r.Found? ==> n <= r.read && p < r.end && At(chunks, r.read, r.end)
    decreases Count(chunks) - n, |chunks.text| - p
  {
    match ParseValue(Buffer(chunks, n), p)
    case Got(v, e) => Found(v, e, n)
    case Bad =>
      if n < Count(chunks) then
        assert StepsUp(chunks.cuts, n);
        var s := SkipOnce(chunks, n + 1, p);
        DecodeLoop(chunks, s.read, s.pos)
      else
        var q := SkipSpace(chunks.text, p);
        if q > p then DecodeLoop(chunks, n, q) else Missing
  }

  function DecodeValue(chunks: Chunks, n: nat, pos: nat): (r: Found)
    requires At(chunks, n, pos)
    ensures r.Found? ==> n <= r.read && pos < r.end && At(chunks, r.read, r.end)
  {
    var s := SkipOnce(chunks, n, pos);
    DecodeLoop(chunks, s.read, s.pos)
  }

  /** Entries read so far, where reading stopped and how many chunks it took; or a refusal. */
  datatype Outcome = Entries(entries: seq<Json>, end: nat, read: nat) | Invalid

  function Prefixed(first: seq<Json>, rest: Outcome): Outcome {
    match rest
    case Entries(entries, end, read) => Entries(first + entries, end, read)
    case Invalid => Invalid
  }

  /** One round of a loop: stop, or go on at `pos` after `entries`. */
  datatype Round = Stop(outcome: Outcome) | GoOn(entries: seq<Json>, pos: nat, read: nat)

  ghost predicate Behind(chunks: Chunks, pos: nat, r: Round) {
    match r
    case GoOn(_, next, read) => pos < next && At(chunks, read, next)
    case Stop(Entries(_, end, read)) => pos < end && At(chunks, read, end)
    case Stop(Invalid) => true
  }

  predicate SeesEnd(chunks: Chunks, s: Spot, c: char)
    requires s.read <= Count(chunks)
  {
    SeesNothing(chunks, s) || Sees(chunks, s, c) || Sees(chunks, s, ',')
  }

  function ArrayEntry(chunks: Chunks, s: Spot): (r: Round)
    requires At(chunks, s.read, s.pos) && !SeesEnd(chunks, s, ']')
    ensures Behind(chunks, s.pos, r)
  {
    match DecodeValue(chunks, s.read, s.pos)
    case Missing => Stop(Invalid)
    case Found(v, e, k) => if v.JObject? then GoOn([v], e, k) else Stop(Invalid)
  }

  function ArrayAt(chunks: Chunks, s: Spot): (r: Round)
    requires At(chunks, s.read, s.pos)
    ensures Behind(chunks, s.pos, r)
  {
    if SeesNothing(chunks, s) then Stop(Invalid)
    else if Sees(chunks, s, ']') then Stop(Entries([], s.pos + 1, s.read))
    else if Sees(chunks, s, ',') then GoOn([], s.pos + 1, s.read)
    else ArrayEntry(chunks, s)
  }

  function ArrayRound(chunks: Chunks, n: nat, pos: nat): (r: Round)
    requires At(chunks, n, pos)
    ensures Behind(chunks, pos, r)
  {
    ArrayAt(chunks, Look(chunks, n, pos))
  }

  /** Reads objects up to the closing bracket; anything else among them is refused. */
  function ReadArray(chunks: Chunks, n: nat, pos: nat): (r: Outcome)
    requires At(chunks, n, pos)
    ensures r.Entries? ==> pos < r.end && At(chunks, r.read, r.end)
    decreases |chunks.text| - pos
  {
    match ArrayRound(chunks, n, pos)
    case Stop(outcome) => outcome
    case GoOn(entries, next, k) =>
      Prefixed(entries, ReadArray(chunks, k, next))
  }

  const SKILLS: seq<nat> := ['s' as nat, 'k' as nat, 'i' as nat, 'l' as nat, 'l' as nat, 's' as nat]

  predicate AllObjects(items: seq<Json>) {
    forall i :: 0 <= i < |items| ==> items[i].JObject?
  }

  /** A key with the position behind its colon, the end of the object, or neither. */
  datatype KeyOutcome = Key(codes: seq<nat>, start: nat, read: nat) | Ended(end: nat, read: nat) | NoKey

  /** The colon after a key; it is looked for twice, the second time after skipping once more. */
  function Colon(chunks: Chunks, codes: seq<nat>, k: nat, e: nat): (r: KeyOutcome)
    requires At(chunks, k, e)
    ensures !r.Ended? && (r.Key? ==> e < r.start && At(chunks, r.read, r.start))
  {
    var s := Look(chunks, k, e);
    if Sees(chunks, s, ':') then Key(codes, s.pos + 1, s.read)
    else
      var again := SkipOnce(chunks, s.read, s.pos);
      if Sees(chunks, again, ':') then Key(codes, again.pos + 1, again.read) else NoKey
  }

  /** A string and its colon. */
  function KeyValue(chunks: Chunks, s: Spot): (r: KeyOutcome)
    requires At(chunks, s.read, s.pos) && !Sees(chunks, s, '}')
    ensures !r.Ended? && (r.Key? ==> s.pos < r.start && At(chunks, r.read, r.start))
  {
    match DecodeValue(chunks, s.read, s.pos)
    case Missing => NoKey
    case Found(key, e, k) => if key.JString? then Colon(chunks, key.codes, k, e) else NoKey
  }

  function KeyLook(chunks: Chunks, s: Spot): (r: KeyOutcome)
    requires At(chunks, s.read, s.pos)
    ensures r.Key? ==> s.pos < r.start && At(chunks, r.read, r.start)
    ensures r.Ended? ==> s.pos < r.end && At(chunks, r.read, r.end)
  {
    if SeesNothing(chunks, s) then NoKey
    else if Sees(chunks, s, '}') then Ended(s.pos + 1, s.read)
    else KeyValue(chunks, s)
  }

  function ReadKey(chunks: Chunks, n: nat, pos: nat): (r: KeyOutcome)
    requires At(chunks, n, pos)
    ensures r.Key? ==> pos < r.start && At(chunks, r.read, r.start)
    ensures r.Ended? ==> pos < r.end && At(chunks, r.read, r.end)
  {
    KeyLook(chunks, Look(chunks, n, pos))
  }

  /** After a member: a comma goes on, a brace ends the object, anything else is left to the next round. */
  function AfterAt(chunks: Chunks, entries: seq<Json>, s: Spot): (r: Round)
    requires At(chunks, s.read, s.pos)
    ensures r.GoOn? ==> s.pos <= r.pos && At(chunks, r.read, r.pos)
    ensures r.Stop? ==> r.outcome.Entries? && s.pos < r.outcome.end && At(chunks, r.outcome.read, r.outcome.end)
  {
    if Sees(chunks, s, ',') then GoOn(entries, s.pos + 1, s.read)
    else if Sees(chunks, s, '}') then Stop(Entries(entries, s.pos + 1, s.read))
    else GoOn(entries, s.pos, s.read)
  }

  function AfterMember(chunks: Chunks, entries: seq<Json>, n: nat, pos: nat): (r: Round)
    requires At(chunks, n, pos)
    ensures r.GoOn? ==> pos <= r.pos && At(chunks, r.read, r.pos)
    ensures r.Stop? ==> r.outcome.Entries? && pos < r.outcome.end && At(chunks, r.outcome.read, r.outcome.end)
  {
    AfterAt(chunks, entries, Look(chunks, n, pos))
  }

  function AfterArray(chunks: Chunks, pos: nat, o: Outcome): (r: Round)
    requires o.Entries? ==> pos < o.end && At(chunks, o.read, o.end)
    ensures Behind(chunks, pos, r)
  {
    match o
    case Invalid => Stop(Invalid)
    case Entries(entries, end, k) => AfterMember(chunks, entries, k, end)
  }

  /** The array under "skills", read entry by entry, and what follows it. */
  function SkillsArray(chunks: Chunks, s: Spot): (r: Round)
    requires At(chunks, s.read, s.pos) && Sees(chunks, s, '[')
    ensures Behind(chunks, s.pos, r)
  {
    AfterArray(chunks, s.pos, ReadArray(chunks, s.read, s.pos + 1))
  }

  /** The value of "skills" decoded in one go; it may be a list, and after it the next key is expected at once. */
  function SkillsValue(chunks: Chunks, s: Spot): (r: Round)
    requires At(chunks, s.read, s.pos) && !Sees(chunks, s, '[')
    ensures Behind(chunks, s.pos, r)
  {
    match DecodeValue(chunks, s.read, s.pos)
    case Missing => Stop(Invalid)
    case Found(v, end, k) =>
      if !v.JArray? then GoOn([], end, k)
      else if AllObjects(v.items) then GoOn(v.items, end, k)
      else Stop(Invalid)
  }

  function SkillsAt(chunks: Chunks, s: Spot): (r: Round)
    requires At(chunks, s.read, s.pos)
    ensures Behind(chunks, s.pos, r)
  {
    if SeesNothing(chunks, s) then Stop(Invalid)
    else if Sees(chunks, s, '[') then SkillsArray(chunks, s)
    else SkillsValue(chunks, s)
  }

  /** The rest of a round after the key "skills". */
  function SkillsRound(chunks: Chunks, n: nat, pos: nat): (r: Round)
    requires At(chunks, n, pos)
    ensures Behind(chunks, pos, r)
  {
    SkillsAt(chunks, Look(chunks, n, pos))
  }

  /** The rest of a round after any other key: the value is decoded and dropped. */
  function OtherRound(chunks: Chunks, n: nat, pos: nat): (r: Round)
    requires At(chunks, n, pos)
    ensures Behind(chunks, pos, r)
  {
    match DecodeValue(chunks, n, pos)
    case Missing => Stop(Invalid)
    case Found(_, end, k) => AfterMember(chunks, [], k, end)
  }

  function ObjectRound(chunks: Chunks, n: nat, pos: nat): (r: Round)
    requires At(chunks, n, pos)
    ensures Behind(chunks, pos, r)
  {
    match ReadKey(chunks, n, pos)
    case NoKey => Stop(Invalid)
    case Ended(end, k) => Stop(Entries([], end, k))
    case Key(codes, start, k) =>
      if codes == SKILLS then SkillsRound(chunks, k, start) else OtherRound(chunks, k, start)
  }

  /** Reads members up to the closing brace; the arrays under the key "skills" contribute their entries. */
  function ReadObject(chunks: Chunks, n: nat, pos: nat): (r: Outcome)
    requires At(chunks, n, pos)
    ensures r.Entries? ==> pos < r.end && At(chunks, r.read, r.end)
    decreases |chunks.text| - pos
  {
    match ObjectRound(chunks, n, pos)
    case Stop(outcome) => outcome
    case GoOn(entries, next, k) =>
      Prefixed(entries, ReadObject(chunks, k, next))
  }

  function ReadFrom(chunks: Chunks, s: Spot): Outcome
    requires At(chunks, s.read, s.pos)
  {
    if Sees(chunks, s, '[') then ReadArray(chunks, s.read, s.pos + 1)
    else if Sees(chunks, s, '{') then ReadObject(chunks, s.read, s.pos + 1)
    else Invalid
  }

  /** The whole read: an array of entries, or an object with entries under "skills". */
  function ReadTop(chunks: Chunks): Outcome {
    ReadFrom(chunks, Look(chunks, if Count(chunks) == 0 then 0 else 1, 0))
  }

  /** What the caller gets: the entries, or the report that the file is not valid JSON. */
  function Returned(o: Outcome): Option<seq<Json>> {
    match o
    case Entries(entries, _, _) => Some(entries)
    case Invalid => None
  }
}
