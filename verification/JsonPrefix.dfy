/**
 * Decoding a prefix of a text.  A value decoded from a prefix is the value of the whole text, and
 * a value that ends inside the prefix is found there, except that a number may be cut short.
 */
module JsonPrefix {
  import opened Prelude
  import opened JsonDecoder

  lemma {:induction false} SkipPrefix(s: string, t: string, i: nat)
    requires s <= t && i <= |s|
    ensures SkipJson(s, i) < |s| ==> SkipJson(t, i) == SkipJson(s, i)
    ensures SkipJson(t, i) < |s| ==> SkipJson(s, i) == SkipJson(t, i)
    decreases |s| - i
  {
    if i < |s| && JsonSpace(s[i]) {
      SkipPrefix(s, t, i + 1);
    }
  }

  lemma HexPrefix(s: string, t: string, i: nat)
    requires s <= t
    ensures Hex4(s, i) >= 0 ==> Hex4(t, i) == Hex4(s, i)
    ensures i + 4 <= |s| ==> Hex4(t, i) == Hex4(s, i)
  {
  }

  /** A unit read from a prefix is confirmed once enough of what follows it is known. */
  lemma UnitPrefix(s: string, t: string, i: nat)
    requires s <= t && i < |s|
    ensures ScanUnit(s, i).Got? ==>
      var n := ScanUnit(s, i).end;
      n < |s| && (s[n] == '\\' ==> n + 2 <= |s|) ==> ScanUnit(t, i) == ScanUnit(s, i)
    ensures ScanUnit(t, i).Got? ==>
      var n := ScanUnit(t, i).end;
      n < |s| && (UnicodeEscapeAt(t, n) ==> n + 6 <= |s|) ==> ScanUnit(s, i) == ScanUnit(t, i)
  {
    HexPrefix(s, t, i + 2);
    HexPrefix(s, t, i + 8);
  }

  lemma StringReaches(s: string, i: nat)
    requires i <= |s| && ScanString(s, i).Got?
    ensures i < |s| && (s[i] == '\\' ==> i + 2 <= |s|)
    ensures UnicodeEscapeAt(s, i) ==> i + 6 <= ScanString(s, i).end
  {
  }

  lemma {:induction false} StringPrefix(s: string, t: string, i: nat)
    requires s <= t && i <= |s|
    ensures ScanString(s, i).Got? ==> ScanString(t, i) == ScanString(s, i)
    ensures ScanString(t, i).Got? && ScanString(t, i).end <= |s| ==> ScanString(s, i) == ScanString(t, i)
    decreases |s| - i
  {
    if i < |s| && s[i] != '"' {
      UnitPrefix(s, t, i);
      if ScanString(s, i).Got? {
        var n := ScanUnit(s, i).end;
        StringReaches(s, n);
        StringPrefix(s, t, n);
      }
      if ScanString(t, i).Got? && ScanString(t, i).end <= |s| {
        var n := ScanUnit(t, i).end;
        StringReaches(t, n);
        StringPrefix(s, t, n);
      }
    }
  }

  lemma {:induction false} DigitsPrefix(s: string, t: string, i: nat)
    requires s <= t && i <= |s|
    ensures DigitsEnd(s, i) <= DigitsEnd(t, i)
    ensures DigitsEnd(s, i) < |s| ==> DigitsEnd(t, i) == DigitsEnd(s, i)
    ensures DigitsEnd(t, i) <= |s| ==> DigitsEnd(s, i) == DigitsEnd(t, i)
    decreases |s| - i
  {
    if i < |s| && Digit(s[i]) {
      DigitsPrefix(s, t, i + 1);
    }
  }

  /** A character that a longer text could turn into more of the same number. */
  predicate NumberChar(c: char) {
    Digit(c) || c == '.' || c == 'e' || c == 'E' || c == '+' || c == '-'
  }

  predicate NumberGoesOn(s: string, e: nat) {
    e >= |s| || NumberChar(s[e])
  }

  lemma FractionPrefix(s: string, t: string, i: nat)
    requires s <= t && i <= |s|
    ensures FractionEnd(s, i) <= FractionEnd(t, i)
    ensures FractionEnd(t, i) != FractionEnd(s, i) ==> FractionEnd(s, i) >= |s| || s[FractionEnd(s, i)] == '.'
    ensures FractionEnd(t, i) <= |s| ==> FractionEnd(s, i) == FractionEnd(t, i)
  {
    if i + 1 < |s| { DigitsPrefix(s, t, i + 1); }
  }

  lemma ExponentPrefix(s: string, t: string, i: nat)
    requires s <= t && i <= |s|
    ensures ExponentEnd(s, i) <= ExponentEnd(t, i)
    ensures !NumberGoesOn(s, ExponentEnd(s, i)) ==> ExponentEnd(t, i) == ExponentEnd(s, i)
    ensures ExponentEnd(t, i) <= |s| ==> ExponentEnd(s, i) == ExponentEnd(t, i)
  {
    if i + 1 <= |s| { DigitsPrefix(s, t, i + 1); }
    if i + 2 <= |s| { DigitsPrefix(s, t, i + 2); }
  }

  lemma IntegerPrefix(s: string, t: string, i: nat)
    requires s <= t && i < |s| && Digit(s[i])
    ensures IntegerEnd(s, i) <= IntegerEnd(t, i)
    ensures IntegerEnd(s, i) < |s| ==> IntegerEnd(t, i) == IntegerEnd(s, i)
    ensures IntegerEnd(t, i) <= |s| ==> IntegerEnd(s, i) == IntegerEnd(t, i)
  {
    DigitsPrefix(s, t, i);
  }

  /** A number found in a prefix may go on in the whole text, but only at a number character. */
  lemma NumberPrefix(s: string, t: string, i: nat)
    requires s <= t && i <= |s|
    ensures ParseNumber(s, i).Got? ==> ParseNumber(t, i).Got? && ParseNumber(s, i).end <= ParseNumber(t, i).end
    ensures ParseNumber(s, i).Got? && !NumberGoesOn(s, ParseNumber(s, i).end) ==> ParseNumber(t, i) == ParseNumber(s, i)
    ensures ParseNumber(t, i).Got? && ParseNumber(t, i).end <= |s| ==> ParseNumber(s, i) == ParseNumber(t, i)
  {
    var j := NumberStart(s, i);
    if j < |s| && Digit(s[j]) {
      assert forall e :: i <= e <= |s| ==> s[i..e] == t[i..e];
      var a, a' := IntegerEnd(s, j), IntegerEnd(t, j);
      IntegerPrefix(s, t, j);
      var b := FractionEnd(s, a);
      FractionPrefix(s, t, a);
      ExponentPrefix(s, t, b);
      if a' != a {
        assert a == |s|;
      } else if FractionEnd(t, a) != b {
        assert NumberGoesOn(s, b);
      }
    }
  }

  lemma WordPrefix(s: string, t: string, i: nat)
    requires s <= t && i < |s|
    ensures ParseWord(s, i).Got? ==> ParseWord(t, i) == ParseWord(s, i)
    ensures ParseWord(t, i).Got? && ParseWord(t, i).end <= |s| ==> ParseWord(s, i) == ParseWord(t, i)
  {
    HasWordPrefix(s, t, i, "null");
    HasWordPrefix(s, t, i, "true");
    HasWordPrefix(s, t, i, "false");
    HasWordPrefix(s, t, i, "NaN");
    HasWordPrefix(s, t, i, "Infinity");
    HasWordPrefix(s, t, i, "-Infinity");
    WordsExclusive(s, i);
    WordsExclusive(t, i);
  }

  lemma HasWordPrefix(s: string, t: string, i: nat, w: string)
    requires s <= t
    ensures HasWord(s, i, w) ==> HasWord(t, i, w)
    ensures HasWord(t, i, w) && i + |w| <= |s| ==> HasWord(s, i, w)
  {
    if i + |w| <= |s| {
      assert s[i..i + |w|] == t[i..i + |w|];
    }
  }

  lemma WordStarts(s: string, i: nat, w: string)
    requires HasWord(s, i, w) && w != ""
    ensures i < |s| && s[i] == w[0]
  {
    assert s[i..i + |w|][0] == s[i];
  }

  /** The first character decides which word can match. */
  lemma WordsExclusive(s: string, i: nat)
    requires i < |s|
    ensures HasWord(s, i, "null") ==> s[i] == 'n'
    ensures HasWord(s, i, "true") ==> s[i] == 't'
    ensures HasWord(s, i, "false") ==> s[i] == 'f'
    ensures HasWord(s, i, "NaN") ==> s[i] == 'N'
    ensures HasWord(s, i, "Infinity") ==> s[i] == 'I'
    ensures HasWord(s, i, "-Infinity") ==> s[i] == '-'
  {
    if HasWord(s, i, "null") { WordStarts(s, i, "null"); }
    if HasWord(s, i, "true") { WordStarts(s, i, "true"); }
    if HasWord(s, i, "false") { WordStarts(s, i, "false"); }
    if HasWord(s, i, "NaN") { WordStarts(s, i, "NaN"); }
    if HasWord(s, i, "Infinity") { WordStarts(s, i, "Infinity"); }
    if HasWord(s, i, "-Infinity") { WordStarts(s, i, "-Infinity"); }
  }

  /** The value is a number that a longer text might continue. */
  predicate OpenNumber(s: string, r: Decoded<Json>) {
    r.Got? && r.value.JNumber? && NumberGoesOn(s, r.end)
  }

  lemma WordNotNumber(s: string, t: string, i: nat)
    requires s <= t && i < |s| && ParseWord(s, i).Got?
    ensures ParseNumber(t, i).Bad?
  {
    WordsExclusive(s, i);
    if HasWord(s, i, "-Infinity") {
      assert s[i..i + 9][1] == s[i + 1];
    }
  }

  lemma KeyPrefix(s: string, t: string, i: nat)
    requires s <= t && i <= |s|
    ensures ParseKey(s, i).Got? && ParseKey(s, i).end < |s| ==> ParseKey(t, i) == ParseKey(s, i)
    ensures ParseKey(t, i).Got? && ParseKey(t, i).end < |s| ==> ParseKey(s, i) == ParseKey(t, i)
  {
    if i < |s| && s[i] == '"' {
      StringPrefix(s, t, i + 1);
      if ScanString(s, i + 1).Got? {
        var e := ScanString(s, i + 1).end;
        SkipPrefix(s, t, e);
        if SkipJson(s, e) < |s| { SkipPrefix(s, t, SkipJson(s, e) + 1); }
      }
      if ScanString(t, i + 1).Got? && ScanString(t, i + 1).end <= |s| {
        var e := ScanString(t, i + 1).end;
        SkipPrefix(s, t, e);
        if SkipJson(t, e) < |s| { SkipPrefix(s, t, SkipJson(t, e) + 1); }
      }
    }
  }

  /** What follows an element is settled as soon as the closing character or the next element is seen. */
  lemma AfterElementPrefix(s: string, t: string, e: nat, closer: char)
    requires s <= t && e <= |s| && (closer == ']' || closer == '}')
    ensures AfterElement(s, e, closer).Closed? ==> AfterElement(t, e, closer) == AfterElement(s, e, closer)
    ensures AfterElement(t, e, closer).Closed? && AfterElement(t, e, closer).end <= |s| ==>
      AfterElement(s, e, closer) == AfterElement(t, e, closer)
    ensures !AfterElement(s, e, closer).Neither? ==> e < |s| && !NumberChar(s[e])
  {
    SkipPrefix(s, t, e);
    var j := SkipJson(s, e);
    if e < |s| && e < j { assert JsonSpace(s[e]); }
  }

  lemma AfterMoreExtends(s: string, t: string, e: nat, closer: char)
    requires s <= t && e <= |s| && AfterElement(s, e, closer).More? && AfterElement(s, e, closer).start < |s|
    ensures AfterElement(t, e, closer) == AfterElement(s, e, closer)
  {
    SkipPrefix(s, t, e);
    SkipPrefix(s, t, SkipJson(s, e) + 1);
  }

  lemma AfterMoreRestricts(s: string, t: string, e: nat, closer: char)
    requires s <= t && e <= |s| && AfterElement(t, e, closer).More? && AfterElement(t, e, closer).start < |s|
    ensures AfterElement(s, e, closer) == AfterElement(t, e, closer)
  {
    SkipPrefix(s, t, e);
    SkipPrefix(s, t, SkipJson(t, e) + 1);
  }

  // ---- from a prefix to the whole text ----

  lemma ScalarExtends(s: string, t: string, i: nat)
    requires s <= t && i < |s|
    requires ParseScalar(s, i).Got? && !OpenNumber(s, ParseScalar(s, i))
    ensures ParseScalar(t, i) == ParseScalar(s, i)
  {
    NumberPrefix(s, t, i);
    WordPrefix(s, t, i);
    if ParseWord(s, i).Got? { WordNotNumber(s, t, i); }
  }

  lemma {:induction false} ValueExtends(s: string, t: string, i: nat)
    requires s <= t && i <= |s|
    requires ParseValue(s, i).Got? && !OpenNumber(s, ParseValue(s, i))
    ensures ParseValue(t, i) == ParseValue(s, i)
    decreases |s| - i, 0
  {
    if s[i] == '"' {
      StringPrefix(s, t, i + 1);
    } else if s[i] == '[' {
      SkipPrefix(s, t, i + 1);
      ArrayExtends(s, t, SkipJson(s, i + 1));
    } else if s[i] == '{' {
      SkipPrefix(s, t, i + 1);
      ObjectExtends(s, t, SkipJson(s, i + 1));
    } else {
      ScalarExtends(s, t, i);
    }
  }

  lemma {:induction false} ArrayExtends(s: string, t: string, j: nat)
    requires s <= t && j <= |s|
    requires ParseArray(s, j).Got?
    ensures j < |s| && ParseArray(t, j) == ParseArray(s, j)
    decreases |s| - j, 2
  {
    if s[j] != ']' { ElementsExtends(s, t, j); }
  }

  lemma {:induction false} ObjectExtends(s: string, t: string, j: nat)
    requires s <= t && j <= |s|
    requires ParseObject(s, j).Got?
    ensures j < |s| && ParseObject(t, j) == ParseObject(s, j)
    decreases |s| - j, 2
  {
    if s[j] != '}' { MembersExtends(s, t, j); }
  }

  lemma {:induction false} ElementsExtends(s: string, t: string, i: nat)
    requires s <= t && i <= |s|
    requires ParseElements(s, i).Got?
    ensures ParseElements(t, i) == ParseElements(s, i)
    decreases |s| - i, 1
  {
    var e := ParseValue(s, i).end;
    AfterElementPrefix(s, t, e, ']');
    ValueExtends(s, t, i);
    var next := AfterElement(s, e, ']');
    if next.More? {
      AfterMoreExtends(s, t, e, ']');
      ElementsExtends(s, t, next.start);
    }
  }

  lemma {:induction false} MembersExtends(s: string, t: string, i: nat)
    requires s <= t && i <= |s|
    requires ParseMembers(s, i).Got?
    ensures ParseMembers(t, i) == ParseMembers(s, i)
    decreases |s| - i, 1
  {
    KeyPrefix(s, t, i);
    var start := ParseKey(s, i).end;
    var e := ParseValue(s, start).end;
    AfterElementPrefix(s, t, e, '}');
    ValueExtends(s, t, start);
    var next := AfterElement(s, e, '}');
    if next.More? {
      AfterMoreExtends(s, t, e, '}');
      MembersExtends(s, t, next.start);
    }
  }

  // ---- from the whole text to a prefix ----

  lemma ScalarRestricts(s: string, t: string, i: nat)
    requires s <= t && i < |s|
    requires ParseScalar(t, i).Got? && ParseScalar(t, i).end <= |s|
    ensures ParseScalar(s, i) == ParseScalar(t, i)
  {
    NumberPrefix(s, t, i);
    WordPrefix(s, t, i);
    if ParseWord(s, i).Got? { WordNotNumber(s, t, i); }
  }

  lemma {:induction false} ValueRestricts(s: string, t: string, i: nat)
    requires s <= t && i <= |s|
    requires ParseValue(t, i).Got? && ParseValue(t, i).end <= |s|
    ensures ParseValue(s, i) == ParseValue(t, i)
    decreases |s| - i, 0
  {
    if t[i] == '"' {
      StringPrefix(s, t, i + 1);
    } else if t[i] == '[' {
      SkipPrefix(s, t, i + 1);
      ArrayRestricts(s, t, SkipJson(t, i + 1));
    } else if t[i] == '{' {
      SkipPrefix(s, t, i + 1);
      ObjectRestricts(s, t, SkipJson(t, i + 1));
    } else {
      ScalarRestricts(s, t, i);
    }
  }

  lemma {:induction false} ArrayRestricts(s: string, t: string, j: nat)
    requires s <= t && j <= |s|
    requires ParseArray(t, j).Got? && ParseArray(t, j).end <= |s|
    ensures j < |s| && ParseArray(s, j) == ParseArray(t, j)
    decreases |s| - j, 2
  {
    if t[j] != ']' { ElementsRestricts(s, t, j); }
  }

  lemma {:induction false} ObjectRestricts(s: string, t: string, j: nat)
    requires s <= t && j <= |s|
    requires ParseObject(t, j).Got? && ParseObject(t, j).end <= |s|
    ensures j < |s| && ParseObject(s, j) == ParseObject(t, j)
    decreases |s| - j, 2
  {
    if t[j] != '}' { MembersRestricts(s, t, j); }
  }

  lemma {:induction false} ElementsRestricts(s: string, t: string, i: nat)
    requires s <= t && i <= |s|
    requires ParseElements(t, i).Got? && ParseElements(t, i).end <= |s|
    ensures ParseElements(s, i) == ParseElements(t, i)
    decreases |s| - i, 1
  {
    var e := ParseValue(t, i).end;
    AfterElementPrefix(s, t, e, ']');
    ValueRestricts(s, t, i);
    var next := AfterElement(t, e, ']');
    if next.More? {
      AfterMoreRestricts(s, t, e, ']');
      ElementsRestricts(s, t, next.start);
    }
  }

  lemma {:induction false} MembersRestricts(s: string, t: string, i: nat)
    requires s <= t && i <= |s|
    requires ParseMembers(t, i).Got? && ParseMembers(t, i).end <= |s|
    ensures ParseMembers(s, i) == ParseMembers(t, i)
    decreases |s| - i, 1
  {
    KeyPrefix(s, t, i);
    var start := ParseKey(t, i).end;
    var e := ParseValue(t, start).end;
    AfterElementPrefix(s, t, e, '}');
    ValueRestricts(s, t, start);
    var next := AfterElement(t, e, '}');
    if next.More? {
      AfterMoreRestricts(s, t, e, '}');
      MembersRestricts(s, t, next.start);
    }
  }

  /** A value starts with a visible character that is no separator and no closing bracket. */
  lemma ValueIsVisible(t: string, i: nat)
    requires i <= |t| && ParseValue(t, i).Got?
    ensures i < |t| && !IsSpace(t[i]) && t[i] != ',' && t[i] != ']' && t[i] != '}'
  {
    if t[i] != '"' && t[i] != '[' && t[i] != '{' && ParseNumber(t, i).Bad? {
      WordsExclusive(t, i);
    }
  }
}
