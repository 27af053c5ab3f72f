/**
 * The decoder takes nothing but what is written: every text that is decoded has one of the forms of
 * JsonWriting and stands for the value that is returned.  Which values have such a text is said too.
 */
module JsonAccepted {
  import opened Prelude
  import opened JsonDecoder
  import opened JsonWriting

  // ---- strings ----

  lemma HereSlice(s: string, i: nat, e: nat)
    requires i <= e <= |s|
    ensures Here(s, i, s[i..e])
  {
  }

  lemma DigitWritten(c: char)
    requires HexValue(c) >= 0
    ensures SpellsDigit(c, HexValue(c))
  {
  }

  lemma NumberOfDigits(a: nat, b: nat, c: nat, d: nat)
    requires a < 16 && b < 16 && c < 16 && d < 16
    ensures var n := a * 4096 + b * 256 + c * 16 + d;
      n < 0x10000 && n / 4096 == a && n / 256 % 16 == b && n / 16 % 16 == c && n % 16 == d
  {
    var n := a * 4096 + b * 256 + c * 16 + d;
    assert n / 16 == a * 256 + b * 16 + c;
    assert n / 256 == a * 16 + b;
  }

  lemma HexWritten(s: string, i: nat)
    requires Hex4(s, i) >= 0
    ensures i + 4 <= |s| && Spells(s[i..i + 4], Hex4(s, i))
  {
    hide SpellsDigit, HexValue;
    DigitWritten(s[i]);
    DigitWritten(s[i + 1]);
    DigitWritten(s[i + 2]);
    DigitWritten(s[i + 3]);
    NumberOfDigits(HexValue(s[i]), HexValue(s[i + 1]), HexValue(s[i + 2]), HexValue(s[i + 3]));
  }

  /** A low surrogate escape at `j`, which would complete a pair. */
  predicate LowAt(s: string, j: nat) {
    UnicodeEscapeAt(s, j) && LowSurrogate(Hex4(s, j + 2))
  }

  /** One escape by number as it stands in the text. */
  lemma EscapeWritten(s: string, i: nat)
    requires UnicodeEscapeAt(s, i) && Hex4(s, i + 2) >= 0
    ensures i + 6 <= |s| && Spells(s[i + 2..i + 6], Hex4(s, i + 2)) && Here(s, i, "\\u" + s[i + 2..i + 6])
  {
    hide Spells, Hex4;
    HexWritten(s, i + 2);
    assert s[i..i + 6] == "\\u" + s[i + 2..i + 6];
  }

  lemma SurrogatePair(u: nat, v: nat)
    requires HighSurrogate(u) && LowSurrogate(v)
    ensures var n := 0x10000 + (u - 0xD800) * 1024 + (v - 0xDC00);
      0x10000 <= n < 0x110000 && HighPart(n) == u && LowPart(n) == v
  {
  }

  lemma PairWritten(s: string, i: nat) returns (u: Unit)
    requires UnicodeEscapeAt(s, i) && HighSurrogate(Hex4(s, i + 2)) && LowAt(s, i + 6)
    ensures u.Paired? && UnitOk(u) && Here(s, i, UnitText(u)) && |UnitText(u)| == 12
    ensures ScanUnit(s, i) == Got(Meant(u), i + 12)
  {
    hide Spells, Hex4, Here, HighPart, LowPart, ScanUnit, UnicodeEscapeAt;
    EscapeWritten(s, i);
    EscapeWritten(s, i + 6);
    var a, b := Hex4(s, i + 2), Hex4(s, i + 8);
    SurrogatePair(a, b);
    PairScanned(s, i, a, b);
    var high, low := s[i + 2..i + 6], s[i + 8..i + 12];
    u := Paired(high, low, 0x10000 + (a - 0xD800) * 1024 + (b - 0xDC00));
    PairTexts(high, low, u.number);
    HereParts(s, i, "\\u" + high, "\\u" + low);
  }

  lemma PairTexts(high: string, low: string, n: nat)
    requires |high| == 4 && |low| == 4
    ensures UnitText(Paired(high, low, n)) == ("\\u" + high) + ("\\u" + low)
    ensures |UnitText(Paired(high, low, n))| == 12 && |"\\u" + high| == 6
  {
  }

  lemma NumberedWritten(s: string, i: nat) returns (u: Unit)
    requires i < |s| && UnicodeEscapeAt(s, i) && ScanUnit(s, i).Got? && !(HighSurrogate(Hex4(s, i + 2)) && LowAt(s, i + 6))
    ensures u.Numbered? && UnitOk(u) && Here(s, i, UnitText(u)) && |UnitText(u)| == 6
    ensures ScanUnit(s, i) == Got(Meant(u), i + 6) && (HighSurrogate(u.number) ==> !LowAt(s, i + 6))
  {
    hide Spells, Hex4, Here;
    EscapeWritten(s, i);
    u := Numbered(s[i + 2..i + 6], Hex4(s, i + 2));
  }

  lemma ShortWritten(s: string, i: nat) returns (u: Unit)
    requires i + 1 < |s| && s[i] == '\\' && s[i + 1] != 'u' && ScanUnit(s, i).Got?
    ensures u.Short? && UnitOk(u) && Here(s, i, UnitText(u)) && |UnitText(u)| == 2
    ensures ScanUnit(s, i) == Got(Meant(u), i + 2)
  {
    var c := s[i + 1];
    var meant := if c == 'b' then '\U{8}' else if c == 'f' then '\U{C}' else if c == 'n' then '\n'
      else if c == 'r' then '\r' else if c == 't' then '\t' else c;
    u := Short(c, meant);
    assert s[i..i + 2] == UnitText(u);
  }

  /** Every scanned unit is one of the four kinds, and no high surrogate is cut off its pair. */
  lemma UnitWritten(s: string, i: nat) returns (u: Unit)
    requires i < |s| && s[i] != '"' && ScanUnit(s, i).Got?
    ensures UnitOk(u) && Here(s, i, UnitText(u)) && ScanUnit(s, i) == Got(Meant(u), i + |UnitText(u)|)
    ensures u.Numbered? && HighSurrogate(u.number) ==> !LowAt(s, i + |UnitText(u)|)
  {
    if s[i] != '\\' {
      u := Raw(s[i]);
    } else if s[i + 1] != 'u' {
      u := ShortWritten(s, i);
    } else if HighSurrogate(Hex4(s, i + 2)) && LowAt(s, i + 6) {
      u := PairWritten(s, i);
    } else {
      u := NumberedWritten(s, i);
    }
  }

  lemma NoMerge(s: string, j: nat, u: Unit, v: Unit)
    requires u.Numbered? && HighSurrogate(u.number) ==> !LowAt(s, j)
    requires UnitOk(v) && Here(s, j, UnitText(v))
    ensures !Merges(u, v)
  {
    if v.Numbered? { EscapeRead(s, j, v.digits, v.number); }
  }

  lemma {:induction false} StringWritten(s: string, i: nat) returns (us: seq<Unit>)
    requires i <= |s| && ScanString(s, i).Got?
    ensures UnitsOk(us) && Here(s, i, UnitsText(us) + "\"")
    ensures ScanString(s, i) == Got(MeantBy(us), i + |UnitsText(us)| + 1)
    decreases |s| - i
  {
    hide ScanUnit, UnitOk, Here, UnitText, Merges;
    if s[i] == '"' {
      us := [];
      QuoteWritten(s, i);
    } else {
      var u := UnitWritten(s, i);
      var j := i + |UnitText(u)|;
      var rest := StringWritten(s, j);
      us := [u] + rest;
      if rest != [] {
        FirstUnit(s, j, rest);
        NoMerge(s, j, u, rest[0]);
      }
      UnitsJoin(s, i, u, rest);
    }
  }

  lemma QuoteWritten(s: string, i: nat)
    requires i < |s| && s[i] == '"'
    ensures Here(s, i, UnitsText([]) + "\"")
  {
    assert UnitsText([]) + "\"" == "\"";
    assert s[i..i + 1] == "\"";
  }

  lemma UnitsJoin(s: string, i: nat, u: Unit, rest: seq<Unit>)
    requires Here(s, i, UnitText(u)) && Here(s, i + |UnitText(u)|, UnitsText(rest) + "\"")
    ensures Here(s, i, UnitsText([u] + rest) + "\"") && UnitsText([u] + rest) == UnitText(u) + UnitsText(rest)
  {
    hide Here, UnitText;
    HereParts(s, i, UnitText(u), UnitsText(rest) + "\"");
    assert ([u] + rest)[1..] == rest;
    assert UnitsText([u] + rest) + "\"" == UnitText(u) + (UnitsText(rest) + "\"");
  }

  // ---- numbers ----

  lemma {:induction false} DigitsWritten(s: string, i: nat)
    requires i <= |s|
    ensures forall k :: i <= k < DigitsEnd(s, i) ==> '0' <= s[k] <= '9'
    decreases |s| - i
  {
    if i < |s| && Digit(s[i]) { DigitsWritten(s, i + 1); }
  }

  lemma DigitsSlice(s: string, i: nat)
    requires i < |s| && Digit(s[i])
    ensures i < DigitsEnd(s, i) && Digits(s[i..DigitsEnd(s, i)])
  {
    DigitsWritten(s, i);
    assert DigitsEnd(s, i) == DigitsEnd(s, i + 1);
  }

  lemma WholeWritten(s: string, i: nat)
    requires i < |s| && Digit(s[i])
    ensures var x := s[i..IntegerEnd(s, i)]; x == "0" || (Digits(x) && x[0] != '0')
  {
    hide Digits;
    if s[i] == '0' {
      assert s[i..i + 1] == "0";
    } else {
      DigitsSlice(s, i);
    }
  }

  lemma FractionWritten(s: string, i: nat)
    requires i <= |s|
    ensures var x := s[i..FractionEnd(s, i)]; x == "" || (x[0] == '.' && Digits(x[1..]))
  {
    hide Digits;
    var e := FractionEnd(s, i);
    if e != i {
      DigitsSlice(s, i + 1);
      assert s[i..e][1..] == s[i + 1..e];
    }
  }

  lemma ExponentWritten(s: string, i: nat)
    requires i <= |s|
    ensures var x := s[i..ExponentEnd(s, i)]; x == "" || ExponentOk(x)
  {
    hide Digits;
    var e := ExponentEnd(s, i);
    if e != i {
      var p := if s[i + 1] == '+' || s[i + 1] == '-' then 2 else 1;
      DigitsSlice(s, i + p);
      assert s[i..e][p..] == s[i + p..e];
    }
  }

  lemma MinusWritten(s: string, i: nat)
    requires i <= |s|
    ensures i <= NumberStart(s, i) <= |s| && (s[i..NumberStart(s, i)] == "" || s[i..NumberStart(s, i)] == "-")
  {
  }

  lemma FourSlices(s: string, i: nat, a: nat, b: nat, c: nat, e: nat)
    requires i <= a <= b <= c <= e <= |s|
    ensures s[i..a] + s[a..b] + s[b..c] + s[c..e] == s[i..e]
  {
    assert s[i..a] + s[a..b] == s[i..b];
    assert s[i..b] + s[b..c] == s[i..c];
  }

  lemma NumberWritten(s: string, i: nat) returns (n: Number)
    requires i <= |s| && ParseNumber(s, i).Got?
    ensures NumberOk(n) && ParseNumber(s, i) == Got(NumberText(n), i + |NumberText(n)|)
  {
    var i1 := NumberStart(s, i);
    var i2 := IntegerEnd(s, i1);
    var i3 := FractionEnd(s, i2);
    var e := ExponentEnd(s, i3);
    hide NumberStart, IntegerEnd, FractionEnd, ExponentEnd, Digits, ExponentOk;
    MinusWritten(s, i);
    WholeWritten(s, i1);
    FractionWritten(s, i2);
    ExponentWritten(s, i3);
    n := Number(s[i..i1], s[i1..i2], s[i2..i3], s[i3..e]);
    FourSlices(s, i, i1, i2, i3, e);
  }

  // ---- values ----

  lemma {:induction false} SpaceWritten(s: string, i: nat)
    requires i <= |s|
    ensures Gap(s[i..SkipJson(s, i)])
    decreases |s| - i
  {
    if i < |s| && JsonSpace(s[i]) {
      SpaceWritten(s, i + 1);
      var e := SkipJson(s, i + 1);
      assert s[i..e] == [s[i]] + s[i + 1..e];
    }
  }

  lemma ScalarWritten(s: string, i: nat) returns (w: Written)
    requires i < |s| && ParseScalar(s, i).Got?
    ensures WrittenOk(w) && ParseScalar(s, i) == Got(Value(w), i + |Text(w)|) && Here(s, i, Text(w))
  {
    if ParseNumber(s, i).Got? {
      var n := NumberWritten(s, i);
      w := Num(n);
    } else {
      w := WordWritten(s, i);
    }
  }

  lemma WordWritten(s: string, i: nat) returns (w: Written)
    requires i < |s| && ParseWord(s, i).Got?
    ensures WrittenOk(w) && ParseWord(s, i) == Got(Value(w), i + |Text(w)|) && Here(s, i, Text(w))
  {
    var e := ParseWord(s, i).end;
    w := Word(s[i..e]);
    assert |s[i..e]| == e - i;
  }

  /** A bracket, a gap and the closing bracket. */
  lemma EmptyWritten(s: string, i: nat, open: char, close: char)
    requires i < |s| && s[i] == open && SkipJson(s, i + 1) < |s| && s[SkipJson(s, i + 1)] == close
    ensures var gap := s[i + 1..SkipJson(s, i + 1)];
      Gap(gap) && Here(s, i, [open] + gap + [close]) && i + |[open] + gap + [close]| == SkipJson(s, i + 1) + 1
  {
    hide Gap;
    SpaceWritten(s, i + 1);
    var j := SkipJson(s, i + 1);
    assert s[i..j + 1] == [open] + s[i + 1..j] + [close];
  }

  /** The white space, the sign and where it leads. */
  lemma SignWritten(s: string, e: nat, close: char)
    requires e <= |s| && !AfterElement(s, e, close).Neither? && close != ','
    ensures var j := SkipJson(s, e);
      j < |s| && Gap(s[e..j]) && s[j] == (if AfterElement(s, e, close).More? then ',' else close) &&
      AfterElement(s, e, close) == if s[j] == ',' then More(SkipJson(s, j + 1)) else Closed(j + 1)
  {
    hide SkipJson, Gap;
    SpaceWritten(s, e);
  }

  lemma SignJoin(s: string, e: nat, j: nat, more: bool, rest: string, close: char)
    requires e <= j < |s| && s[j] == (if more then ',' else close) && (more ==> Here(s, j + 1, rest))
    ensures Here(s, e, s[e..j] + SignText(more, rest, close))
    ensures |s[e..j] + SignText(more, rest, close)| == j - e + 1 + if more then |rest| else 0
  {
    HereSlice(s, e, j);
    HereSlice(s, j, j + 1);
    assert s[j..j + 1] == [s[j]];
    if more { HereParts(s, j, [','], rest); }
    HereParts(s, e, s[e..j], SignText(more, rest, close));
  }

  /** The items from `g` on, where white space may come first. */
  lemma {:induction false} ElementsWritten(s: string, g: nat) returns (items: Items)
    requires g <= |s| && ParseElements(s, SkipJson(s, g)).Got?
    ensures ItemsOk(items) && Here(s, g, ItemsText(items))
    ensures ParseElements(s, SkipJson(s, g)) == Got(ItemValues(items), g + |ItemsText(items)|)
    decreases |s| - g, 1
  {
    hide Here, Gap, ParseValue, ParseElements, AfterElement, SkipJson, WrittenOk, Text, Value, SignText;
    var k := SkipJson(s, g);
    var e := ElementHead(s, k);
    var w := ValueWritten(s, k);
    var j := SkipJson(s, e);
    SpaceWritten(s, g);
    SignWritten(s, e, ']');
    HereSlice(s, g, k);
    if s[j] == ',' {
      var rest := ElementsWritten(s, j + 1);
      items := MoreItems(s[g..k], w, s[e..j], rest);
      ItemsJoin(s, g, k, e, j, items);
      ElementsStep(s, k, Value(w), e, More(SkipJson(s, j + 1)), ParseElements(s, SkipJson(s, j + 1)));
    } else {
      items := LastItem(s[g..k], w, s[e..j]);
      ItemsJoin(s, g, k, e, j, items);
      ElementsStep(s, k, Value(w), e, Closed(j + 1), Bad);
      assert [Value(w)] + [] == [Value(w)];
    }
  }

  /** What decoding an element list needs: a value, a sign behind it, and more elements behind a comma. */
  lemma ElementHead(s: string, k: nat) returns (e: nat)
    requires k <= |s| && ParseElements(s, k).Got?
    ensures ParseValue(s, k).Got? && ParseValue(s, k).end == e && k < e <= |s| && !AfterElement(s, e, ']').Neither?
    ensures AfterElement(s, e, ']').More? ==> ParseElements(s, AfterElement(s, e, ']').start).Got?
  {
    hide ParseValue, AfterElement;
    e := ParseValue(s, k).end;
  }

  lemma ItemsJoin(s: string, g: nat, k: nat, e: nat, j: nat, items: Items)
    requires g <= k <= e <= j < |s| && items.before == s[g..k] && items.after == s[e..j]
    requires Here(s, k, Text(items.value)) && e == k + |Text(items.value)|
    requires s[j] == (if items.MoreItems? then ',' else ']') && (items.MoreItems? ==> Here(s, j + 1, ItemsText(items.rest)))
    ensures Here(s, g, ItemsText(items)) && g + |ItemsText(items)| == j + 1 + |ItemRest(items)|
  {
    hide Here, Text, ItemsText;
    ItemSplit(items);
    var sign := items.after + SignText(items.MoreItems?, ItemRest(items), ']');
    SignJoin(s, e, j, items.MoreItems?, ItemRest(items), ']');
    HereSlice(s, g, k);
    HereParts(s, k, Text(items.value), sign);
    HereParts(s, g, items.before, Text(items.value) + sign);
  }

  /** The members from `g` on, where white space may come first. */
  lemma {:induction false} MembersWritten(s: string, g: nat) returns (ms: Members)
    requires g <= |s| && ParseMembers(s, SkipJson(s, g)).Got?
    ensures MembersOk(ms) && Here(s, g, MembersText(ms))
    ensures ParseMembers(s, SkipJson(s, g)) == Got(MemberValues(ms), g + |MembersText(ms)|)
    decreases |s| - g, 1
  {
    hide Here, Gap, ParseValue, ParseMembers, ParseKey, AfterElement, SkipJson, WrittenOk, UnitsOk, Text, Value, SignText;
    hide KeyText, ValuePart, MembersText, MeantBy;
    var k := SkipJson(s, g);
    var x, e := MemberHead(s, k);
    var key, mid, colon := KeyWritten(s, k);
    var c := k + |KeyText(key)|;
    var v := c + |mid| + 1;
    var w := ValueWritten(s, x);
    var j := SkipJson(s, e);
    var m := Member(MeantBy(key), Value(w));
    SpaceWritten(s, g);
    SignWritten(s, e, '}');
    if s[j] == ',' {
      var rest := MembersWritten(s, j + 1);
      ms := MoreMembers(s[g..k], key, mid, colon, w, s[e..j], rest);
      ValuePartJoin(s, v, x, e, j, ms);
      MembersJoin(s, g, k, c, v, ms);
      MembersStep(s, k, m.key, x, m.value, e, More(SkipJson(s, j + 1)), ParseMembers(s, SkipJson(s, j + 1)));
    } else {
      ms := LastMember(s[g..k], key, mid, colon, w, s[e..j]);
      ValuePartJoin(s, v, x, e, j, ms);
      MembersJoin(s, g, k, c, v, ms);
      MembersStep(s, k, m.key, x, m.value, e, Closed(j + 1), Bad);
      assert [m] + [] == [m];
    }
  }

  lemma MemberHead(s: string, k: nat) returns (x: nat, e: nat)
    requires k <= |s| && ParseMembers(s, k).Got?
    ensures ParseKey(s, k).Got? && ParseKey(s, k).end == x && k < x <= |s|
    ensures ParseValue(s, x).Got? && ParseValue(s, x).end == e && x < e <= |s| && !AfterElement(s, e, '}').Neither?
    ensures AfterElement(s, e, '}').More? ==> ParseMembers(s, AfterElement(s, e, '}').start).Got?
  {
    hide ParseKey, ParseValue, AfterElement;
    x := ParseKey(s, k).end;
    e := ParseValue(s, x).end;
  }

  /** A key with its colon and the white space around it. */
  lemma KeyWritten(s: string, k: nat) returns (key: seq<Unit>, mid: string, colon: string)
    requires k <= |s| && ParseKey(s, k).Got?
    ensures UnitsOk(key) && Gap(mid) && Gap(colon) && Here(s, k, KeyText(key))
    ensures var c := k + |KeyText(key)|;
      Here(s, c, mid + ":") && Here(s, c + |mid| + 1, colon) &&
      ParseKey(s, k) == Got(MeantBy(key), c + |mid| + 1 + |colon|)
  {
    hide ScanString, SkipJson, Gap, UnitsOk, Here, UnitsText;
    key := StringWritten(s, k + 1);
    StringJoin(s, k, key);
    var c := ScanString(s, k + 1).end;
    var j := SkipJson(s, c);
    var x := SkipJson(s, j + 1);
    SpaceWritten(s, c);
    SpaceWritten(s, j + 1);
    mid, colon := s[c..j], s[j + 1..x];
    assert s[c..j + 1] == mid + ":";
    HereSlice(s, c, j + 1);
    HereSlice(s, j + 1, x);
  }

  lemma StringJoin(s: string, k: nat, us: seq<Unit>)
    requires k < |s| && s[k] == '"' && Here(s, k + 1, UnitsText(us) + "\"")
    ensures Here(s, k, KeyText(us))
  {
    HereSlice(s, k, k + 1);
    assert s[k..k + 1] == "\"";
    assert KeyText(us) == "\"" + (UnitsText(us) + "\"");
    HereParts(s, k, "\"", UnitsText(us) + "\"");
  }

  /** The part of a member behind its colon. */
  lemma ValuePartJoin(s: string, v: nat, x: nat, e: nat, j: nat, ms: Members)
    requires Here(s, v, ms.colon) && x == v + |ms.colon| && Here(s, x, Text(ms.value)) && e == x + |Text(ms.value)|
    requires e <= j < |s| && ms.after == s[e..j] && s[j] == (if ms.MoreMembers? then ',' else '}')
    requires ms.MoreMembers? ==> Here(s, j + 1, MembersText(ms.rest))
    ensures Here(s, v, ValuePart(ms))
    ensures v + |ValuePart(ms)| == j + 1 + if ms.MoreMembers? then |MembersText(ms.rest)| else 0
  {
    hide Here, Text, MembersText, SignText;
    var rest := if ms.MoreMembers? then MembersText(ms.rest) else "";
    var tail := ms.after + SignText(ms.MoreMembers?, rest, '}');
    SignJoin(s, e, j, ms.MoreMembers?, rest, '}');
    HereParts(s, x, Text(ms.value), tail);
    HereParts(s, v, ms.colon, Text(ms.value) + tail);
  }

  lemma MembersJoin(s: string, g: nat, k: nat, c: nat, v: nat, ms: Members)
    requires g <= k <= |s| && ms.before == s[g..k] && Here(s, k, KeyText(ms.key)) && c == k + |KeyText(ms.key)|
    requires Here(s, c, ms.mid + ":") && v == c + |ms.mid| + 1 && Here(s, v, ValuePart(ms))
    ensures Here(s, g, MembersText(ms)) && g + |MembersText(ms)| == v + |ValuePart(ms)|
  {
    hide Here, MembersText, KeyText, ValuePart;
    MemberSplit(ms);
    HereSlice(s, g, k);
    var tail := (ms.mid + ":") + ValuePart(ms);
    HereParts(s, c, ms.mid + ":", ValuePart(ms));
    HereParts(s, k, KeyText(ms.key), tail);
    HereParts(s, g, ms.before, KeyText(ms.key) + tail);
  }

  /** Every value that is decoded stands in the text in one of the written forms. */
  lemma {:induction false} ValueWritten(s: string, i: nat) returns (w: Written)
    requires i <= |s| && ParseValue(s, i).Got?
    ensures WrittenOk(w) && Here(s, i, Text(w)) && ParseValue(s, i) == Got(Value(w), i + |Text(w)|)
    decreases |s| - i, 0
  {
    hide Here, Gap, UnitsOk, UnitsText, SkipJson, ScanString, ParseScalar, ParseElements, ParseMembers;
    if s[i] == '"' {
      var us := StringWritten(s, i + 1);
      StringJoin(s, i, us);
      w := Str(us);
    } else if s[i] == '[' {
      w := ArrayWritten(s, i);
    } else if s[i] == '{' {
      w := ObjectWritten(s, i);
    } else {
      w := ScalarWritten(s, i);
    }
  }

  lemma {:induction false} ArrayWritten(s: string, i: nat) returns (w: Written)
    requires i < |s| && s[i] == '[' && ParseValue(s, i).Got?
    ensures WrittenOk(w) && Here(s, i, Text(w)) && ParseValue(s, i) == Got(Value(w), i + |Text(w)|)
    decreases |s| - i - 1, 2
  {
    hide Here, Gap, ItemsOk, ItemsText, SkipJson, ParseElements;
    var j := SkipJson(s, i + 1);
    if j < |s| && s[j] == ']' {
      EmptyWritten(s, i, '[', ']');
      w := NoItems(s[i + 1..j]);
    } else {
      var items := ElementsWritten(s, i + 1);
      w := Arr(items);
      OpenJoin(s, i, '[', ItemsText(items));
    }
  }

  lemma {:induction false} ObjectWritten(s: string, i: nat) returns (w: Written)
    requires i < |s| && s[i] == '{' && ParseValue(s, i).Got?
    ensures WrittenOk(w) && Here(s, i, Text(w)) && ParseValue(s, i) == Got(Value(w), i + |Text(w)|)
    decreases |s| - i - 1, 2
  {
    hide Here, Gap, MembersOk, MembersText, SkipJson, ParseMembers;
    var j := SkipJson(s, i + 1);
    if j < |s| && s[j] == '}' {
      EmptyWritten(s, i, '{', '}');
      w := NoMembers(s[i + 1..j]);
    } else {
      var members := MembersWritten(s, i + 1);
      w := Obj(members);
      OpenJoin(s, i, '{', MembersText(members));
    }
  }

  lemma OpenJoin(s: string, i: nat, open: char, rest: string)
    requires i < |s| && s[i] == open && Here(s, i + 1, rest)
    ensures Here(s, i, [open] + rest)
  {
    assert s[i..i + 1] == [open];
    HereParts(s, i, [open], rest);
  }

  // ---- documents ----

  /** The text is the written value with white space around it. */
  predicate Writes(t: string, before: string, w: Written, after: string) {
    Gap(before) && WrittenOk(w) && Gap(after) && t == before + Text(w) + after
  }

  lemma DocumentWritten(t: string) returns (before: string, w: Written, after: string)
    requires LoadDocument(t).Got?
    ensures Writes(t, before, w, after) && LoadDocument(t) == Got(Value(w), |t|)
  {
    hide Here, Gap, SkipJson, ParseValue, WrittenOk, Text, Value;
    var i := SkipJson(t, 0);
    w := ValueWritten(t, i);
    var e := i + |Text(w)|;
    SpaceWritten(t, 0);
    SpaceWritten(t, e);
    before, after := t[0..i], t[e..|t|];
    WholeText(t, i, Text(w));
  }

  lemma WholeText(t: string, i: nat, x: string)
    requires Here(t, i, x)
    ensures i + |x| <= |t| && t == t[0..i] + x + t[i + |x|..|t|]
  {
  }

  /** A text is decoded as a value if and only if it is that value written in one of the forms. */
  lemma DecodedIff(t: string, v: Json)
    ensures LoadDocument(t) == Got(v, |t|) <==>
      exists before, w, after :: Writes(t, before, w, after) && Value(w) == v
  {
    hide LoadDocument, Writes, Value;
    if LoadDocument(t) == Got(v, |t|) {
      var before, w, after := DocumentWritten(t);
      assert Writes(t, before, w, after) && Value(w) == v;
    }
    forall before, w, after | Writes(t, before, w, after) && Value(w) == v
      ensures LoadDocument(t) == Got(v, |t|)
    {
      WritesRead(t, before, w, after);
    }
  }

  lemma WritesRead(t: string, before: string, w: Written, after: string)
    requires Writes(t, before, w, after)
    ensures LoadDocument(t) == Got(Value(w), |t|)
  {
    hide LoadDocument, Gap, WrittenOk, Text, Value;
    DocumentRead(before, w, after);
  }

  // ---- the values that have a text ----

  predicate CodesOk(codes: seq<nat>) {
    forall k :: 0 <= k < |codes| ==> codes[k] < 0x110000 && !SplitPair(codes, k)
  }

  /** A high surrogate with a low one behind it. */
  predicate SplitPair(codes: seq<nat>, k: nat)
    requires k < |codes|
  {
    k + 1 < |codes| && HighSurrogate(codes[k]) && LowSurrogate(codes[k + 1])
  }

  ghost predicate NumberLexeme(x: string) {
    exists n :: NumberOk(n) && NumberText(n) == x
  }

  /** Strings have code points only and no split pairs, numbers and words are spelled as such, at any depth. */
  ghost predicate Expressible(v: Json) {
    match v
    case JNull => true
    case JBool(_) => true
    case JNumber(x) => NumberLexeme(x)
    case JWord(x) => x == "NaN" || x == "Infinity" || x == "-Infinity"
    case JString(codes) => CodesOk(codes)
    case JArray(items) => forall k :: 0 <= k < |items| ==> Expressible(items[k])
    case JObject(ms) => forall k :: 0 <= k < |ms| ==> CodesOk(ms[k].key) && Expressible(ms[k].value)
  }

  lemma DigitSpelled(v: nat)
    requires v < 16
    ensures SpellsDigit(LOWER[v], v)
  {
  }

  lemma SpellNumber(n: nat) returns (digits: string)
    requires n < 0x10000
    ensures Spells(digits, n)
  {
    hide SpellsDigit;
    digits := [LOWER[n / 4096], LOWER[n / 256 % 16], LOWER[n / 16 % 16], LOWER[n % 16]];
    DigitSpelled(n / 4096);
    DigitSpelled(n / 256 % 16);
    DigitSpelled(n / 16 % 16);
    DigitSpelled(n % 16);
  }

  lemma WriteCode(code: nat) returns (u: Unit)
    requires code < 0x110000
    ensures UnitOk(u) && Meant(u) == code && (u.Numbered? ==> u.number == code)
  {
    hide Spells;
    if code < 0x10000 {
      var digits := SpellNumber(code);
      u := Numbered(digits, code);
    } else {
      var high := SpellNumber(HighPart(code));
      var low := SpellNumber(LowPart(code));
      u := Paired(high, low, code);
    }
  }

  lemma {:induction false} WriteString(codes: seq<nat>) returns (us: seq<Unit>)
    requires CodesOk(codes)
    ensures UnitsOk(us) && MeantBy(us) == codes && |us| == |codes|
    ensures us != [] && us[0].Numbered? ==> us[0].number == codes[0]
    decreases |codes|
  {
    hide UnitOk;
    if codes == [] {
      us := [];
    } else {
      var u := WriteCode(codes[0]);
      LaterCodes(codes);
      var rest := WriteString(codes[1..]);
      us := [u] + rest;
      assert us[1..] == rest;
      assert !SplitPair(codes, 0);
    }
  }

  lemma LaterCodes(codes: seq<nat>)
    requires CodesOk(codes) && codes != []
    ensures CodesOk(codes[1..])
  {
    forall k | 0 <= k < |codes[1..]| ensures codes[1..][k] < 0x110000 && !SplitPair(codes[1..], k) {
      assert !SplitPair(codes, k + 1);
    }
  }

  lemma {:induction false} WriteValue(v: Json) returns (w: Written)
    requires Expressible(v)
    ensures WrittenOk(w) && Value(w) == v
    decreases v
  {
    hide NumberOk, UnitsOk, ItemsOk, MembersOk, CodesOk, NumberText;
    match v {
      case JNull => w := Word("null");
      case JBool(b) => w := Word(if b then "true" else "false");
      case JWord(x) => w := Word(x);
      case JNumber(x) =>
        var n :| NumberOk(n) && NumberText(n) == x;
        w := Num(n);
      case JString(codes) =>
        var us := WriteString(codes);
        w := Str(us);
      case JArray(items) =>
        w := NoItems("");
        if items != [] {
          var r := WriteItems(v, 0);
          w := Arr(r);
          assert items[0..] == items;
        }
      case JObject(ms) =>
        w := NoMembers("");
        if ms != [] {
          var r := WriteMembers(v, 0);
          w := Obj(r);
          assert ms[0..] == ms;
        }
    }
  }

  lemma {:induction false} WriteItems(v: Json, k: nat) returns (r: Items)
    requires Expressible(v) && v.JArray? && k < |v.items|
    ensures ItemsOk(r) && ItemValues(r) == v.items[k..]
    decreases v, |v.items| - k
  {
    hide WrittenOk, Value;
    var w := WriteValue(v.items[k]);
    if k + 1 < |v.items| {
      var rest := WriteItems(v, k + 1);
      r := MoreItems("", w, "", rest);
    } else {
      r := LastItem("", w, "");
    }
    assert v.items[k..] == [v.items[k]] + v.items[k + 1..];
  }

  lemma {:induction false} WriteMembers(v: Json, k: nat) returns (r: Members)
    requires Expressible(v) && v.JObject? && k < |v.members|
    ensures MembersOk(r) && MemberValues(r) == v.members[k..]
    decreases v, |v.members| - k
  {
    hide WrittenOk, Value, UnitsOk, MeantBy, CodesOk;
    var w := WriteValue(v.members[k].value);
    var key := WriteString(v.members[k].key);
    if k + 1 < |v.members| {
      var rest := WriteMembers(v, k + 1);
      r := MoreMembers("", key, "", "", w, "", rest);
    } else {
      r := LastMember("", key, "", "", w, "");
    }
    assert v.members[k..] == [v.members[k]] + v.members[k + 1..];
  }

  /** What is written is expressible. */
  lemma {:induction false} ValueExpressible(w: Written)
    requires WrittenOk(w)
    ensures Expressible(Value(w))
    decreases w
  {
    hide NumberOk, UnitsOk, ItemsOk, MembersOk, CodesOk, NumberText;
    match w {
      case Word(_) =>
      case Num(n) => assert NumberLexeme(NumberText(n));
      case Str(us) => MeantOk(us);
      case NoItems(_) =>
      case Arr(items) => ItemsExpressible(items);
      case NoMembers(_) =>
      case Obj(ms) =>
        MembersExpressible(ms);
        ObjectExpressible(MemberValues(ms));
    }
  }

  lemma {:induction false} ItemsExpressible(items: Items)
    requires ItemsOk(items)
    ensures forall k :: 0 <= k < |ItemValues(items)| ==> Expressible(ItemValues(items)[k])
    decreases items
  {
    hide WrittenOk, Value, Expressible;
    ValueExpressible(items.value);
    if items.MoreItems? { ItemsExpressible(items.rest); }
  }

  lemma {:induction false} MembersExpressible(ms: Members)
    requires MembersOk(ms)
    ensures forall m :: m in MemberValues(ms) ==> CodesOk(m.key) && Expressible(m.value)
    decreases ms
  {
    hide WrittenOk, Value, Expressible, CodesOk, UnitsOk, MeantBy;
    ValueExpressible(ms.value);
    MeantOk(ms.key);
    var first := Member(MeantBy(ms.key), Value(ms.value));
    if ms.MoreMembers? {
      MembersExpressible(ms.rest);
      assert MemberValues(ms) == [first] + MemberValues(ms.rest);
    } else {
      assert MemberValues(ms) == [first];
    }
  }

  lemma ObjectExpressible(vs: seq<Member>)
    requires forall m :: m in vs ==> CodesOk(m.key) && Expressible(m.value)
    ensures Expressible(JObject(vs))
  {
    hide CodesOk;
    forall k | 0 <= k < |vs| ensures CodesOk(vs[k].key) && Expressible(vs[k].value) {
      assert vs[k] in vs;
    }
  }

  lemma {:induction false} MeantOk(us: seq<Unit>)
    requires UnitsOk(us)
    ensures CodesOk(MeantBy(us))
    decreases |us|
  {
    hide UnitOk;
    if us != [] {
      UnitMeans(us[0]);
      MeantOk(us[1..]);
      var codes, rest := MeantBy(us), MeantBy(us[1..]);
      if |us| > 1 { UnitMeans(us[1]); }
      assert codes[1..] == rest;
      forall k | 0 <= k < |codes| ensures codes[k] < 0x110000 && !SplitPair(codes, k) {
        if k > 0 { assert !SplitPair(rest, k - 1); }
      }
    }
  }

  /** Only an escape by number stands for a surrogate. */
  lemma UnitMeans(u: Unit)
    requires UnitOk(u)
    ensures Meant(u) < 0x110000 && (HighSurrogate(Meant(u)) || LowSurrogate(Meant(u)) ==> u.Numbered?)
  {
    hide Spells;
    if u.Numbered? { SpelledLength(u.digits, u.number); }
  }

  /** The values that some document is decoded to are exactly the expressible ones. */
  lemma ExpressibleIff(v: Json)
    ensures Expressible(v) <==> exists t :: LoadDocument(t) == Got(v, |t|)
  {
    hide Expressible, LoadDocument, Writes, Value, WrittenOk, Text;
    if Expressible(v) {
      var w := WriteValue(v);
      DocumentRead("", w, "");
      var t := "" + Text(w) + "";
      assert LoadDocument(t) == Got(v, |t|);
    }
    forall t | LoadDocument(t) == Got(v, |t|) ensures Expressible(v) {
      var before, w, after := DocumentWritten(t);
      WritesOk(t, before, w, after);
      ValueExpressible(w);
    }
  }

  lemma WritesOk(t: string, before: string, w: Written, after: string)
    requires Writes(t, before, w, after)
    ensures WrittenOk(w)
  {
  }
}
