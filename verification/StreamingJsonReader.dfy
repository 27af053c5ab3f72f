/** The incremental reader itself: a buffer, a position in it and an end-of-file flag. */
module StreamingJsonReader {
  import opened Prelude
  import opened JsonDecoder
  import opened JsonStream

  /** A text file that hands out its content in non-empty chunks, then empty strings. */
  class TextFile {
    const chunks: Chunks
    var next: nat

    ghost predicate Valid()
      reads this
    {
      next <= Count(chunks)
    }

    constructor (chunks: Chunks)
      ensures Valid() && this.chunks == chunks && next == 0
    {
      this.chunks, next := chunks, 0;
    }

    method Read() returns (chunk: string)
      requires Valid()
      modifies this
      ensures Valid()
      ensures if old(next) < Count(chunks) then chunk == Chunk(chunks, old(next)) && next == old(next) + 1
        else chunk == "" && next == old(next)
    {
      if next == Count(chunks) {
        return "";
      }
      chunk := Chunk(chunks, next);
      next := next + 1;
    }
  }

  lemma BufferStep(chunks: Chunks, n: nat)
    requires n < Count(chunks)
    ensures Buffer(chunks, n + 1) == Buffer(chunks, n) + Chunk(chunks, n)
  {
  }

  lemma DecodeHit(chunks: Chunks, n: nat, p: nat)
    requires At(chunks, n, p) && ParseValue(Buffer(chunks, n), p).Got?
    ensures var r := ParseValue(Buffer(chunks, n), p); DecodeLoop(chunks, n, p) == Found(r.value, r.end, n)
  {
  }

  lemma DecodeOn(chunks: Chunks, n: nat, p: nat)
    requires n < Count(chunks) && At(chunks, n, p) && ParseValue(Buffer(chunks, n), p).Bad?
    ensures At(chunks, n + 1, p)
    ensures var s := SkipOnce(chunks, n + 1, p); DecodeLoop(chunks, n, p) == DecodeLoop(chunks, s.read, s.pos)
  {
    assert StepsUp(chunks.cuts, n);
  }

  lemma DecodeLast(chunks: Chunks, n: nat, p: nat)
    requires n == Count(chunks) && At(chunks, n, p) && ParseValue(Buffer(chunks, n), p).Bad?
    ensures DecodeLoop(chunks, n, p) == DecodeLoop(chunks, n, SkipSpace(chunks.text, p))
  {
  }

  /** At the end of the file, and behind the white space, decoding either succeeds at once or fails. */
  lemma NothingMore(chunks: Chunks, p: nat)
    requires p <= |chunks.text| && (p < |chunks.text| ==> !IsSpace(chunks.text[p]))
    requires ParseValue(Buffer(chunks, Count(chunks)), p).Bad?
    ensures DecodeLoop(chunks, Count(chunks), p) == Missing
  {
  }

  class StreamingJsonReader {
    const file: TextFile
    var buffer: string
    var position: nat
    var eof: bool

    ghost predicate Valid()
      reads this, file
    {
      file.Valid() && buffer == Buffer(file.chunks, file.next) && position <= |buffer| &&
      (eof ==> file.next == Count(file.chunks))
    }

    /** After the end of the file the position is behind the white space. */
    ghost predicate Settled()
      reads this
    {
      eof && position < |buffer| ==> !IsSpace(buffer[position])
    }

    constructor (file: TextFile)
      requires file.Valid() && file.next == 0
      ensures Valid() && this.file == file && position == 0 && file.next == 0 && !eof
    {
      this.file := file;
      buffer, position, eof := "", 0, false;
    }

    method FillBuffer()
      requires Valid()
      modifies this`buffer, this`eof, file
      ensures Valid() && position == old(position)
      ensures old(eof) ==> eof && file.next == old(file.next)
      ensures !old(eof) && old(file.next) < Count(file.chunks) ==> !eof && file.next == old(file.next) + 1
      ensures !old(eof) && old(file.next) == Count(file.chunks) ==> eof && file.next == old(file.next)
      ensures file.next > old(file.next) ==> |buffer| > old(|buffer|)
    {
      if eof {
        return;
      }
      if file.next < Count(file.chunks) { BufferStep(file.chunks, file.next); }
      var chunk := file.Read();
      if chunk == "" {
        eof := true;
        return;
      }
      buffer := buffer + chunk;
    }

    /**
     * Skips white space.  Every way through the loop body leaves it, because filling the buffer
     * either adds a character or sets the end-of-file flag.
     */
    method SkipWhitespace()
      requires Valid()
      modifies this, file
      ensures Valid() && Settled() && At(file.chunks, old(file.next), old(position))
      ensures Spot(position, file.next) == SkipOnce(file.chunks, old(file.next), old(position))
      ensures position == |buffer| ==> eof
      ensures old(eof) ==> eof
    {
      ghost var limit := |buffer|;
      var done := false;
      while !done
        invariant Valid() && (old(eof) ==> eof)
        invariant !done ==> file.next == old(file.next) && buffer == old(buffer) && position == old(position)
        invariant done ==> Settled() && (position == |buffer| ==> eof)
        invariant done ==> Spot(position, file.next) == SkipOnce(file.chunks, old(file.next), old(position))
        decreases !done
      {
        while position < |buffer| && IsSpace(buffer[position])
          invariant Valid() && file.next == old(file.next) && buffer == old(buffer) && (old(eof) ==> eof)
          invariant old(position) <= position
          invariant SkipTo(file.chunks.text, old(position), limit) == SkipTo(file.chunks.text, position, limit)
        {
          position := position + 1;
        }
        if position == |buffer| {
          FillBuffer();
        }
        done := position < |buffer| || eof;
      }
    }

    method Peek() returns (c: Option<char>)
      requires Valid()
      modifies this, file
      ensures Valid() && Settled() && At(file.chunks, old(file.next), old(position))
      ensures Spot(position, file.next) == SkipOnce(file.chunks, old(file.next), old(position))
      ensures c == if position < |buffer| then Some(file.chunks.text[position]) else None
      ensures c == None ==> eof
    {
      SkipWhitespace();
      if position >= |buffer| {
        return None;
      }
      return Some(buffer[position]);
    }

    /** White space is skipped before the look at the next character, which skips again. */
    method SkipAndPeek() returns (c: Option<char>)
      requires Valid()
      modifies this, file
      ensures Valid() && Settled() && At(file.chunks, old(file.next), old(position))
      ensures Spot(position, file.next) == Look(file.chunks, old(file.next), old(position))
      ensures c == if position < |buffer| then Some(file.chunks.text[position]) else None
      ensures c == None ==> eof
    {
      SkipWhitespace();
      c := Peek();
    }

    /** The decoded value, or nothing where the program raises an error. */
    method DecodeValue() returns (value: Option<Json>)
      requires Valid()
      modifies this, file
      ensures Valid() && At(file.chunks, old(file.next), old(position))
      ensures match JsonStream.DecodeValue(file.chunks, old(file.next), old(position))
        case Missing => value == None
        case Found(v, e, k) => value == Some(v) && position == e && file.next == k
    {
      hide DecodeLoop;
      SkipWhitespace();
      ghost var chunks := file.chunks;
      ghost var goal := DecodeLoop(chunks, file.next, position);
      while true
        invariant Valid() && Settled() && goal == DecodeLoop(chunks, file.next, position)
        decreases Count(chunks) - file.next, !eof
      {
        var decoded := ParseValue(buffer, position);
        if decoded.Got? {
          DecodeHit(chunks, file.next, position);
          position := decoded.end;
          return Some(decoded.value);
        }
        if eof {
          NothingMore(chunks, position);
          return None;
        }
        if file.next < Count(chunks) {
          DecodeOn(chunks, file.next, position);
        } else {
          DecodeLast(chunks, file.next, position);
        }
        FillBuffer();
        SkipWhitespace();
        if position >= |buffer| {
          if eof {
            NothingMore(chunks, position);
            return None;
          }
        }
      }
    }

    /** Moves over the expected character, or reports that another one, or nothing, comes next. */
    method ConsumeChar(expected: char) returns (found: bool)
      requires Valid()
      modifies this, file
      ensures Valid() && At(file.chunks, old(file.next), old(position))
      ensures var s := SkipOnce(file.chunks, old(file.next), old(position));
        found == Sees(file.chunks, s, expected) && file.next == s.read && position == if found then s.pos + 1 else s.pos
    {
      SkipWhitespace();
      if position >= |buffer| {
        FillBuffer();
        SkipWhitespace();
      }
      if position >= |buffer| {
        return false;
      }
      if buffer[position] != expected {
        return false;
      }
      position := position + 1;
      return true;
    }

    ghost predicate Reports(o: Outcome, entries: Option<seq<Json>>)
      reads this, file
    {
      match o
      case Entries(es, end, read) => entries == Some(es) && position == end && file.next == read
      case Invalid => entries == None
    }

    /** Where a round of a loop leaves the reader. */
    ghost predicate Reached(r: Round)
      reads this, file
    {
      match r
      case Stop(o) => o.Entries? ==> position == o.end && file.next == o.read
      case GoOn(_, pos, read) => position == pos && file.next == read
    }

    /** One round of the array loop. */
    method ReadArrayRound() returns (r: Round)
      requires Valid()
      modifies this, file
      ensures Valid() && At(file.chunks, old(file.next), old(position))
      ensures r == ArrayRound(file.chunks, old(file.next), old(position)) && Reached(r)
    {
      var current := SkipAndPeek();
      if current == None {
        return Stop(Invalid);
      }
      if current == Some(']') {
        position := position + 1;
        return Stop(Entries([], position, file.next));
      }
      if current == Some(',') {
        position := position + 1;
        return GoOn([], position, file.next);
      }
      var entry := DecodeValue();
      if entry == None || !entry.value.JObject? {
        return Stop(Invalid);
      }
      return GoOn([entry.value], position, file.next);
    }

    method ReadArrayValues() returns (entries: Option<seq<Json>>)
      requires Valid()
      modifies this, file
      ensures Valid() && At(file.chunks, old(file.next), old(position))
      ensures Reports(ReadArray(file.chunks, old(file.next), old(position)), entries)
    {
      ghost var chunks := file.chunks;
      ghost var goal := ReadArray(chunks, file.next, position);
      var found := [];
      PrefixedNothing(goal);
      while true
        invariant Valid()
        invariant goal == Prefixed(found, ReadArray(chunks, file.next, position))
        decreases |chunks.text| - position
      {
        var round := ReadArrayRound();
        if round.Stop? {
          if round.outcome.Invalid? {
            return None;
          }
          return Some(found + round.outcome.entries);
        }
        PrefixedTwice(found, round.entries, ReadArray(chunks, file.next, position));
        found := found + round.entries;
      }
    }

    /** The colon after a key. */
    method ReadColon(codes: seq<nat>) returns (key: KeyOutcome)
      requires Valid()
      modifies this, file
      ensures Valid() && At(file.chunks, old(file.next), old(position))
      ensures key == Colon(file.chunks, codes, old(file.next), old(position))
      ensures key.Key? ==> position == key.start && file.next == key.read
    {
      var current := SkipAndPeek();
      if current == Some(':') {
        position := position + 1;
      } else {
        var found := ConsumeChar(':');
        if !found {
          return NoKey;
        }
      }
      return Key(codes, position, file.next);
    }

    /** The first steps of a round of the object loop: the closing brace, or a string key with its colon. */
    method ReadMemberKey() returns (key: KeyOutcome)
      requires Valid()
      modifies this, file
      ensures Valid() && At(file.chunks, old(file.next), old(position))
      ensures key == ReadKey(file.chunks, old(file.next), old(position))
      ensures key.Key? ==> position == key.start && file.next == key.read
      ensures key.Ended? ==> position == key.end && file.next == key.read
    {
      var current := SkipAndPeek();
      if current == None {
        return NoKey;
      }
      if current == Some('}') {
        position := position + 1;
        return Ended(position, file.next);
      }
      var name := DecodeValue();
      if name == None || !name.value.JString? {
        return NoKey;
      }
      key := ReadColon(name.value.codes);
    }

    /** The entries of a "skills" list decoded in one go, which must all be objects. */
    method TakeObjects(items: seq<Json>) returns (taken: bool)
      ensures taken == AllObjects(items)
    {
      var i := 0;
      while i < |items|
        invariant 0 <= i <= |items|
        invariant forall j :: 0 <= j < i ==> items[j].JObject?
      {
        if !items[i].JObject? {
          return false;
        }
        i := i + 1;
      }
      return true;
    }

    /** The comma or brace after a member. */
    method ReadSeparator(entries: seq<Json>) returns (r: Round)
      requires Valid()
      modifies this, file
      ensures Valid() && At(file.chunks, old(file.next), old(position))
      ensures r == AfterMember(file.chunks, entries, old(file.next), old(position)) && Reached(r)
    {
      var current := SkipAndPeek();
      if current == Some(',') {
        position := position + 1;
        return GoOn(entries, position, file.next);
      }
      if current == Some('}') {
        position := position + 1;
        return Stop(Entries(entries, position, file.next));
      }
      return GoOn(entries, position, file.next);
    }

    /** The value of "skills" that does not start with a bracket. */
    method ReadSkillsValue() returns (r: Round)
      requires Valid() && position < |buffer| && buffer[position] != '['
      modifies this, file
      ensures Valid() && !Sees(file.chunks, Spot(old(position), old(file.next)), '[')
      ensures r == SkillsValue(file.chunks, Spot(old(position), old(file.next))) && Reached(r)
    {
      var value := DecodeValue();
      if value == None {
        return Stop(Invalid);
      }
      if !value.value.JArray? {
        return GoOn([], position, file.next);
      }
      var taken := TakeObjects(value.value.items);
      return if taken then GoOn(value.value.items, position, file.next) else Stop(Invalid);
    }

    /** The "skills" array and what follows it. */
    method ReadSkillsArray() returns (r: Round)
      requires Valid() && position < |buffer| && buffer[position] == '['
      modifies this, file
      ensures Valid() && Sees(file.chunks, Spot(old(position), old(file.next)), '[')
      ensures r == SkillsArray(file.chunks, Spot(old(position), old(file.next))) && Reached(r)
    {
      hide ReadArray;
      position := position + 1;
      var values := ReadArrayValues();
      if values == None {
        return Stop(Invalid);
      }
      r := ReadSeparator(values.value);
    }

    /** The rest of a round after the key "skills". */
    method ReadSkills() returns (r: Round)
      requires Valid()
      modifies this, file
      ensures Valid() && At(file.chunks, old(file.next), old(position))
      ensures r == SkillsRound(file.chunks, old(file.next), old(position)) && Reached(r)
    {
      hide SkillsArray, SkillsValue;
      var current := SkipAndPeek();
      if current == None {
        return Stop(Invalid);
      }
      if current != Some('[') {
        r := ReadSkillsValue();
        return;
      }
      r := ReadSkillsArray();
    }

    /** One round of the object loop. */
    method ReadObjectRound() returns (r: Round)
      requires Valid()
      modifies this, file
      ensures Valid() && At(file.chunks, old(file.next), old(position))
      ensures r == ObjectRound(file.chunks, old(file.next), old(position)) && Reached(r)
    {
      var key := ReadMemberKey();
      if key.NoKey? {
        return Stop(Invalid);
      }
      if key.Ended? {
        return Stop(Entries([], key.end, key.read));
      }
      if key.codes == SKILLS {
        r := ReadSkills();
      } else {
        var value := DecodeValue();
        if value == None {
          return Stop(Invalid);
        }
        r := ReadSeparator([]);
      }
    }

    method ReadSkillsFromObject() returns (entries: Option<seq<Json>>)
      requires Valid()
      modifies this, file
      ensures Valid() && At(file.chunks, old(file.next), old(position))
      ensures Reports(ReadObject(file.chunks, old(file.next), old(position)), entries)
    {
      ghost var chunks := file.chunks;
      ghost var goal := ReadObject(chunks, file.next, position);
      var found := [];
      PrefixedNothing(goal);
      while true
        invariant Valid()
        invariant goal == Prefixed(found, ReadObject(chunks, file.next, position))
        decreases |chunks.text| - position
      {
        var round := ReadObjectRound();
        if round.Stop? {
          if round.outcome.Invalid? {
            return None;
          }
          return Some(found + round.outcome.entries);
        }
        PrefixedTwice(found, round.entries, ReadObject(chunks, file.next, position));
        found := found + round.entries;
      }
    }

    method ReadTopLevelEntries() returns (entries: Option<seq<Json>>)
      requires Valid() && position == 0 && file.next == 0 && !eof
      modifies this, file
      ensures entries == Returned(ReadTop(file.chunks))
    {
      hide ReadArray, ReadObject;
      FillBuffer();
      var first := SkipAndPeek();
      if first == None {
        return None;
      }
      if first == Some('[') {
        position := position + 1;
        entries := ReadArrayValues();
        return;
      }
      if first == Some('{') {
        position := position + 1;
        entries := ReadSkillsFromObject();
        return;
      }
      return None;
    }
  }

  lemma PrefixedNothing(o: Outcome)
    ensures Prefixed([], o) == o
  {
    assert o.Entries? ==> [] + o.entries == o.entries;
  }

  lemma PrefixedTwice(a: seq<Json>, b: seq<Json>, o: Outcome)
    ensures Prefixed(a, Prefixed(b, o)) == Prefixed(a + b, o)
  {
    assert o.Entries? ==> a + (b + o.entries) == (a + b) + o.entries;
  }
}
