/** The index reader on a text that is already complete in the buffer. */
module JsonText {
  import opened Prelude
  import opened JsonDecoder
  import opened JsonStream

  datatype Whole = Whole(entries: seq<Json>, end: nat) | Broken

  datatype TextRound = Halt(outcome: Whole) | Onward(entries: seq<Json>, pos: nat)

  function Joined(first: seq<Json>, rest: Whole): Whole {
    match rest
    case Whole(entries, end) => Whole(first + entries, end)
    case Broken => Broken
  }

  function TextEntry(t: string, p: nat): (r: TextRound)
    requires p < |t| && t[p] != ']' && t[p] != ','
    ensures r.Onward? ==> p < r.pos <= |t|
    ensures r.Halt? ==> r.outcome == Broken
  {
    match ParseValue(t, p)
    case Bad => Halt(Broken)
    case Got(v, e) => if v.JObject? then Onward([v], e) else Halt(Broken)
  }

  function TextArrayRound(t: string, pos: nat): (r: TextRound)
    requires pos <= |t|
    ensures r.Onward? ==> pos < r.pos <= |t|
    ensures r.Halt? && r.outcome.Whole? ==> pos < r.outcome.end <= |t|
  {
    var p := SkipSpace(t, pos);
    if p == |t| then Halt(Broken)
    else if t[p] == ']' then Halt(Whole([], p + 1))
    else if t[p] == ',' then Onward([], p + 1)
    else TextEntry(t, p)
  }

  function TextArray(t: string, pos: nat): (r: Whole)
    requires pos <= |t|
    ensures r.Whole? ==> pos < r.end <= |t|
    decreases |t| - pos
  {
    match TextArrayRound(t, pos)
    case Halt(outcome) => outcome
    case Onward(entries, next) => Joined(entries, TextArray(t, next))
  }

  /** A key with the position behind its colon, the end of the object, or neither. */
  datatype TextKey = KeyAt(codes: seq<nat>, start: nat) | EndAt(end: nat) | NoTextKey

  function TextColon(t: string, codes: seq<nat>, e: nat): (r: TextKey)
    requires e <= |t|
    ensures !r.EndAt? && (r.KeyAt? ==> e < r.start <= |t|)
  {
    var q := SkipSpace(t, e);
    if q < |t| && t[q] == ':' then KeyAt(codes, q + 1) else NoTextKey
  }

  function TextKeyValue(t: string, p: nat): (r: TextKey)
    requires p < |t| && t[p] != '}'
    ensures !r.EndAt? && (r.KeyAt? ==> p < r.start <= |t|)
  {
    match ParseValue(t, p)
    case Bad => NoTextKey
    case Got(key, e) => if key.JString? then TextColon(t, key.codes, e) else NoTextKey
  }

  function TextReadKey(t: string, pos: nat): (r: TextKey)
    requires pos <= |t|
    ensures r.KeyAt? ==> pos < r.start <= |t|
    ensures r.EndAt? ==> pos < r.end <= |t|
  {
    var p := SkipSpace(t, pos);
    if p == |t| then NoTextKey
    else if t[p] == '}' then EndAt(p + 1)
    else TextKeyValue(t, p)
  }

  function TextAfter(t: string, entries: seq<Json>, pos: nat): (r: TextRound)
    requires pos <= |t|
    ensures r.Onward? ==> pos <= r.pos <= |t|
    ensures r.Halt? ==> r.outcome.Whole? && pos < r.outcome.end <= |t|
  {
    var p := SkipSpace(t, pos);
    if p < |t| && t[p] == ',' then Onward(entries, p + 1)
    else if p < |t| && t[p] == '}' then Halt(Whole(entries, p + 1))
    else Onward(entries, p)
  }

  function TextAfterArray(t: string, pos: nat, w: Whole): (r: TextRound)
    requires w.Whole? ==> pos < w.end <= |t|
    ensures r.Onward? ==> pos < r.pos <= |t|
    ensures r.Halt? && r.outcome.Whole? ==> pos < r.outcome.end <= |t|
  {
    match w
    case Broken => Halt(Broken)
    case Whole(entries, end) => TextAfter(t, entries, end)
  }

  function TextSkillsArray(t: string, p: nat): (r: TextRound)
    requires p < |t| && t[p] == '['
    ensures r.Onward? ==> p < r.pos <= |t|
    ensures r.Halt? && r.outcome.Whole? ==> p < r.outcome.end <= |t|
  {
    TextAfterArray(t, p, TextArray(t, p + 1))
  }

  function TextSkillsValue(t: string, p: nat): (r: TextRound)
    requires p <= |t| && (p < |t| ==> t[p] != '[')
    ensures r.Onward? ==> p < r.pos <= |t|
    ensures r.Halt? && r.outcome.Whole? ==> p < r.outcome.end <= |t|
  {
    match ParseValue(t, p)
    case Bad => Halt(Broken)
    case Got(_, end) => Onward([], end)
  }

  function TextSkillsAt(t: string, p: nat): (r: TextRound)
    requires p <= |t|
    ensures r.Onward? ==> p < r.pos <= |t|
    ensures r.Halt? && r.outcome.Whole? ==> p < r.outcome.end <= |t|
  {
    if p < |t| && t[p] == '[' then TextSkillsArray(t, p) else TextSkillsValue(t, p)
  }

  function TextSkillsRound(t: string, pos: nat): (r: TextRound)
    requires pos <= |t|
    ensures r.Onward? ==> pos < r.pos <= |t|
    ensures r.Halt? && r.outcome.Whole? ==> pos < r.outcome.end <= |t|
  {
    TextSkillsAt(t, SkipSpace(t, pos))
  }

  function TextOtherRound(t: string, pos: nat): (r: TextRound)
    requires pos <= |t|
    ensures r.Onward? ==> pos < r.pos <= |t|
    ensures r.Halt? && r.outcome.Whole? ==> pos < r.outcome.end <= |t|
  {
    match ParseValue(t, SkipSpace(t, pos))
    case Bad => Halt(Broken)
    case Got(_, end) => TextAfter(t, [], end)
  }

  function TextObjectRound(t: string, pos: nat): (r: TextRound)
    requires pos <= |t|
    ensures r.Onward? ==> pos < r.pos <= |t|
    ensures r.Halt? && r.outcome.Whole? ==> pos < r.outcome.end <= |t|
  {
    match TextReadKey(t, pos)
    case NoTextKey => Halt(Broken)
    case EndAt(end) => Halt(Whole([], end))
    case KeyAt(codes, start) => if codes == SKILLS then TextSkillsRound(t, start) else TextOtherRound(t, start)
  }

  function TextObject(t: string, pos: nat): (r: Whole)
    requires pos <= |t|
    ensures r.Whole? ==> pos < r.end <= |t|
    decreases |t| - pos
  {
    match TextObjectRound(t, pos)
    case Halt(outcome) => outcome
    case Onward(entries, next) => Joined(entries, TextObject(t, next))
  }

  /** Where the document starts. */
  function Start(t: string): (p: nat)
    ensures p <= |t|
  {
    SkipSpace(t, 0)
  }

  predicate StartsWith(t: string, c: char) {
    Start(t) < |t| && t[Start(t)] == c
  }

  /** Reading a complete text. */
  function ReadText(t: string): Option<seq<Json>> {
    var whole :=
      if StartsWith(t, '[') then TextArray(t, Start(t) + 1)
      else if StartsWith(t, '{') then TextObject(t, Start(t) + 1)
      else Broken;
    match whole
    case Whole(entries, _) => Some(entries)
    case Broken => None
  }
}
