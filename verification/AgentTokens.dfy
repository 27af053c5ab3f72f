/** Stored agent-token hashes and their verification; the key derivation is a parameter. */
module AgentTokens {
  import opened Prelude
  import opened Base64Url

  const ITERATIONS := 200_000

  /** The key derivation: token, salt and iterations to a digest. */
  type Kdf = (string, seq<byte>, int) -> seq<byte>

  datatype Failure = InvalidBase64 | InvalidIterations

  // ---- fields ----

  /** Splitting at every separator; there is always at least one part. */
  function Split(s: string, c: char): (r: seq<string>)
    ensures |r| > 0
  {
    if s == "" then [""]
    else
      var rest := Split(s[1..], c);
      if s[0] == c then [""] + rest else [[s[0]] + rest[0]] + rest[1..]
  }

  predicate Lacks(s: string, c: char) {
    forall i :: 0 <= i < |s| ==> s[i] != c
  }

  lemma {:induction false} SplitAt(a: string, c: char, rest: string)
    requires Lacks(a, c)
    ensures Split(a + [c] + rest, c) == [a] + Split(rest, c)
  {
    if a == "" {
      assert (a + [c] + rest)[1..] == rest;
    } else {
      assert (a + [c] + rest)[1..] == a[1..] + [c] + rest;
      SplitAt(a[1..], c, rest);
      assert (a + [c] + rest)[0] == a[0] && [a[0]] + a[1..] == a;
    }
  }

  lemma {:induction false} SplitNone(a: string, c: char)
    requires Lacks(a, c)
    ensures Split(a, c) == [a]
  {
    if a != "" {
      SplitNone(a[1..], c);
      assert [a[0]] + a[1..] == a;
    }
  }

  // ---- the iteration count ----

  predicate IsDigit(c: char) {
    '0' <= c <= '9'
  }

  /** Digits with single underscores between them. */
  function ParseDigits(s: string, i: nat, value: int): Option<int>
    requires i <= |s|
    decreases |s| - i
  {
    if i == |s| then Some(value)
    else if IsDigit(s[i]) then ParseDigits(s, i + 1, value * 10 + (s[i] as int - '0' as int))
    else if s[i] == '_' && 0 < i && i + 1 < |s| && IsDigit(s[i - 1]) && IsDigit(s[i + 1]) then ParseDigits(s, i + 1, value)
    else None
  }

  function Trim(s: string): string {
    if s != "" && IsSpace(s[0]) then Trim(s[1..])
    else if s != "" && IsSpace(s[|s| - 1]) then Trim(s[..|s| - 1])
    else s
  }

  function ParseInt(text: string): Option<int> {
    var s := Trim(text);
    var negative := s != "" && s[0] == '-';
    var digits := if s != "" && (s[0] == '-' || s[0] == '+') then s[1..] else s;
    if digits == "" then None
    else match ParseDigits(digits, 0, 0)
      case Some(n) => Some(if negative then -n else n)
      case None => None
  }

  const ITERATIONS_TEXT := "200000"

  lemma IterationsParse()
    ensures ParseInt(ITERATIONS_TEXT) == Some(ITERATIONS) && Lacks(ITERATIONS_TEXT, '$')
  {
    var s := ITERATIONS_TEXT;
    assert Trim(s) == s;
    assert ParseDigits(s, 6, 200000) == Some(200000);
    assert ParseDigits(s, 5, 20000) == Some(200000);
    assert ParseDigits(s, 4, 2000) == Some(200000);
    assert ParseDigits(s, 3, 200) == Some(200000);
    assert ParseDigits(s, 2, 20) == Some(200000);
    assert ParseDigits(s, 1, 2) == Some(200000);
    assert ParseDigits(s, 0, 0) == Some(200000);
  }

  // ---- hashing and verifying ----

  function HashAgentToken(kdf: Kdf, token: string, salt: seq<byte>): string {
    "pbkdf2_sha256" + "$" + ITERATIONS_TEXT + "$" + Encode(salt) + "$" + Encode(kdf(token, salt, ITERATIONS))
  }

  /** Whether the token matches the stored hash; malformed base64 or no iterations raise errors. */
  function VerifyAgentToken(kdf: Kdf, token: string, stored: string): Result<bool, Failure> {
    var parts := Split(stored, '$');
    if |parts| != 4 then Ok(false)
    else if parts[0] != "pbkdf2_sha256" then Ok(false)
    else match ParseInt(parts[1])
      case None => Ok(false)
      case Some(iterations) =>
        match (Decode(parts[2]), Decode(parts[3]))
        case (Some(salt), Some(expected)) =>
          if iterations < 1 then Err(InvalidIterations) else Ok(kdf(token, salt, iterations) == expected)
        case _ => Err(InvalidBase64)
  }

  lemma EncodedLacks(bytes: seq<byte>)
    ensures Lacks(Encode(bytes), '$')
  {
    EncodedNoDollar(bytes);
    StrippedNoDollar(EncodePadded(bytes));
  }

  lemma FourFields(a: string, b: string, c: string, d: string)
    requires Lacks(a, '$') && Lacks(b, '$') && Lacks(c, '$') && Lacks(d, '$')
    ensures Split(a + "$" + b + "$" + c + "$" + d, '$') == [a, b, c, d]
  {
    hide Split, Lacks;
    var cd := c + "$" + d;
    var bcd := b + "$" + cd;
    SplitNone(d, '$');
    SplitAt(c, '$', d);
    SplitAt(b, '$', cd);
    SplitAt(a, '$', bcd);
    assert Split(a + "$" + bcd, '$') == [a] + ([b] + ([c] + [d]));
    FieldsJoin(a + "$" + bcd, a, b, c, d, bcd, cd);
  }

  /**
   * Verifying a token against the hash of another succeeds exactly when the key derivation gives both
   * the same digest, for every salt.
   */
  lemma VerifyHash(kdf: Kdf, candidate: string, token: string, salt: seq<byte>)
    ensures VerifyAgentToken(kdf, candidate, HashAgentToken(kdf, token, salt)) ==
      Ok(kdf(candidate, salt, ITERATIONS) == kdf(token, salt, ITERATIONS))
  {
    var digest := kdf(token, salt, ITERATIONS);
    EncodedLacks(salt);
    EncodedLacks(digest);
    IterationsParse();
    DecodeEncode(salt);
    DecodeEncode(digest);
    FourFields("pbkdf2_sha256", ITERATIONS_TEXT, Encode(salt), Encode(digest));
  }

  // ---- what counts as an iteration count ----

  predicate Spaces(s: string) {
    forall i :: 0 <= i < |s| ==> IsSpace(s[i])
  }

  /** Figures, with single underscores between them. */
  predicate Grouped(s: string) {
    s != "" && s[0] != '_' && s[|s| - 1] != '_' && forall i :: 0 <= i < |s| ==> GroupedAt(s, i)
  }

  predicate GroupedAt(s: string, i: nat)
    requires i < |s|
  {
    IsDigit(s[i]) || (s[i] == '_' && (i + 1 < |s| ==> s[i + 1] != '_'))
  }

  /** The number that the figures stand for in decimal notation. */
  function Decimal(s: string): int {
    if s == "" then 0
    else if s[|s| - 1] == '_' then Decimal(s[..|s| - 1])
    else Decimal(s[..|s| - 1]) * 10 + (s[|s| - 1] as int - '0' as int)
  }

  /** White space, a sign or none, grouped figures and white space spell the number. */
  predicate SpellsNumber(text: string, front: string, sign: string, figures: string, back: string, n: int) {
    text == front + (sign + figures) + back && Spaces(front) && Spaces(back) && Grouped(figures) &&
    (sign == "" || sign == "+" || sign == "-") && n == if sign == "-" then -Decimal(figures) else Decimal(figures)
  }

  /** The figures from `i` on have the places they need in the whole. */
  predicate GroupedFrom(s: string, i: nat) {
    forall k :: i <= k < |s| ==> IsDigit(s[k]) || UnderscoreFits(s, k)
  }

  predicate UnderscoreFits(s: string, k: nat)
    requires k < |s|
  {
    s[k] == '_' && 0 < k && k + 1 < |s| && IsDigit(s[k - 1]) && IsDigit(s[k + 1])
  }

  lemma {:induction false} DigitsParse(s: string, i: nat)
    requires i <= |s|
    ensures ParseDigits(s, i, Decimal(s[..i])) == if GroupedFrom(s, i) then Some(Decimal(s)) else None
    decreases |s| - i
  {
    if i == |s| {
      assert s[..i] == s;
    } else {
      assert s[..i + 1][..i] == s[..i];
      if IsDigit(s[i]) || UnderscoreFits(s, i) { DigitsParse(s, i + 1); }
    }
  }

  lemma GroupedFits(s: string)
    ensures s != "" && GroupedFrom(s, 0) <==> Grouped(s)
  {
    if s != "" && GroupedFrom(s, 0) {
      forall i | 0 <= i < |s| ensures GroupedAt(s, i) {
        assert IsDigit(s[i]) || UnderscoreFits(s, i);
      }
    }
    if Grouped(s) {
      forall k | 0 <= k < |s| ensures IsDigit(s[k]) || UnderscoreFits(s, k) {
        assert GroupedAt(s, k);
        if k > 0 { assert GroupedAt(s, k - 1); }
        if k + 1 < |s| { assert GroupedAt(s, k + 1); }
      }
    }
  }

  predicate Bare(s: string) {
    s == "" || (!IsSpace(s[0]) && !IsSpace(s[|s| - 1]))
  }

  lemma {:induction false} TrimParts(s: string) returns (front: string, back: string)
    ensures s == front + Trim(s) + back && Spaces(front) && Spaces(back) && Bare(Trim(s))
    decreases |s|
  {
    hide IsSpace;
    front, back := "", "";
    if s != "" && IsSpace(s[0]) {
      front, back := TrimParts(s[1..]);
      assert s == [s[0]] + s[1..] == [s[0]] + front + Trim(s) + back;
      front := [s[0]] + front;
    } else if s != "" && IsSpace(s[|s| - 1]) {
      var n := |s| - 1;
      front, back := TrimParts(s[..n]);
      assert s == s[..n] + [s[n]] == front + Trim(s) + (back + [s[n]]);
      back := back + [s[n]];
    }
  }

  lemma {:induction false} Trimmed(front: string, core: string, back: string)
    requires Spaces(front) && Spaces(back) && core != "" && Bare(core)
    ensures Trim(front + core + back) == core
    decreases |front| + |back|
  {
    var s := front + core + back;
    if front != "" {
      assert s[0] == front[0] && s[1..] == front[1..] + core + back;
      Trimmed(front[1..], core, back);
    } else if back != "" {
      assert s[0] == core[0] && s[|s| - 1] == back[|back| - 1];
      assert s[..|s| - 1] == front + core + back[..|back| - 1];
      Trimmed(front, core, back[..|back| - 1]);
    } else {
      assert s == core;
    }
  }

  lemma GroupedIsBare(sign: string, figures: string)
    requires Grouped(figures) && (sign == "" || sign == "+" || sign == "-")
    ensures Bare(sign + figures) && sign + figures != ""
  {
    assert GroupedAt(figures, 0) && GroupedAt(figures, |figures| - 1);
  }

  /** What is parsed once the white space is gone. */
  lemma SignedParse(text: string, sign: string, figures: string)
    requires Trim(text) == sign + figures && (sign == "" || sign == "+" || sign == "-")
    requires sign == "" && figures != "" ==> figures[0] != '+' && figures[0] != '-'
    ensures ParseInt(text) ==
      if Grouped(figures) then Some(if sign == "-" then -Decimal(figures) else Decimal(figures)) else None
  {
    var s := Trim(text);
    hide Trim, Decimal, ParseDigits, GroupedFrom, Grouped;
    var digits := if s != "" && (s[0] == '-' || s[0] == '+') then s[1..] else s;
    assert digits == figures;
    DigitsParse(figures, 0);
    GroupedFits(figures);
    assert figures[..0] == "";
    NothingDecimal();
    NothingGrouped();
  }

  lemma NothingDecimal()
    ensures Decimal("") == 0
  {
  }

  lemma NothingGrouped()
    ensures !Grouped("")
  {
  }

  /** Parsing gives a number exactly for the texts that spell it. */
  lemma ParseIntIff(text: string, n: int)
    ensures ParseInt(text) == Some(n) <==>
      exists front, sign, figures, back :: SpellsNumber(text, front, sign, figures, back, n)
  {
    hide Trim, Decimal, ParseInt, Grouped, Spaces;
    if ParseInt(text) == Some(n) {
      var front, back := TrimParts(text);
      var s := Trim(text);
      var signed := s != "" && (s[0] == '-' || s[0] == '+');
      var sign, figures := if signed then s[..1] else "", if signed then s[1..] else s;
      assert s == sign + figures;
      SignedParse(text, sign, figures);
      assert SpellsNumber(text, front, sign, figures, back, n);
    }
    forall front, sign, figures, back | SpellsNumber(text, front, sign, figures, back, n)
      ensures ParseInt(text) == Some(n)
    {
      SpelledParse(text, front, sign, figures, back, n);
    }
  }

  lemma SpelledParse(text: string, front: string, sign: string, figures: string, back: string, n: int)
    requires SpellsNumber(text, front, sign, figures, back, n)
    ensures ParseInt(text) == Some(n)
  {
    hide Trim, Decimal, ParseInt, Spaces;
    GroupedIsBare(sign, figures);
    Trimmed(front, sign + figures, back);
    assert GroupedAt(figures, 0);
    SignedParse(text, sign, figures);
  }

  // ---- verification of any stored text ----

  /** The stored text has exactly these four fields. */
  predicate Fields(stored: string, a: string, b: string, c: string, d: string) {
    stored == a + "$" + b + "$" + c + "$" + d && Lacks(a, '$') && Lacks(b, '$') && Lacks(c, '$') && Lacks(d, '$')
  }

  /** A first character that is no separator joins the first part of the rest. */
  lemma SplitNext(s: string, c: char, first: string, more: seq<string>)
    requires s != "" && s[0] != c && Split(s[1..], c) == [first] + more
    ensures Split(s, c) == [[s[0]] + first] + more
  {
    assert ([first] + more)[1..] == more;
  }

  lemma LacksMore(d: char, a: string, c: char)
    requires Lacks(a, c) && d != c
    ensures Lacks([d] + a, c)
  {
  }

  lemma Behind(s: string, head: string, tail: string)
    requires s != "" && s[1..] == head + tail
    ensures s == ([s[0]] + head) + tail
  {
  }

  /** The first part stands in front of the first separator, and the others behind it. */
  lemma {:induction false} FirstPart(s: string, c: char) returns (first: string, rest: Option<string>)
    ensures Lacks(first, c)
    ensures
      match rest
      case None => s == first && Split(s, c) == [first]
      case Some(r) => s == first + ([c] + r) && Split(s, c) == [first] + Split(r, c)
  {
    first, rest := "", None;
    if s != "" {
      if s[0] == c {
        rest := Some(s[1..]);
        assert "" + ([c] + s[1..]) == s;
      } else {
        hide Split, Lacks;
        var f, r := FirstPart(s[1..], c);
        first, rest := [s[0]] + f, r;
        LacksMore(s[0], f, c);
        if r.Some? {
          Behind(s, f, [c] + r.value);
          SplitNext(s, c, f, Split(r.value, c));
        } else {
          assert [f] + [] == [f];
          SplitNext(s, c, f, []);
          assert [first] + [] == [first];
        }
      }
    }
  }

  /** Four parts are four fields. */
  lemma FourParts(stored: string)
    requires |Split(stored, '$')| == 4
    ensures var p := Split(stored, '$'); Fields(stored, p[0], p[1], p[2], p[3])
  {
    hide Split, Lacks;
    var a, s1 := FirstPart(stored, '$');
    var b, s2 := FirstPart(s1.value, '$');
    var c, s3 := FirstPart(s2.value, '$');
    var d, s4 := FirstPart(s3.value, '$');
    var p := Split(stored, '$');
    assert p == [a] + ([b] + ([c] + Split(s3.value, '$')));
    assert s4 == None;
    assert p == [a, b, c, d];
    FieldsJoin(stored, a, b, c, d, s1.value, s2.value);
  }

  lemma FieldsJoin(stored: string, a: string, b: string, c: string, d: string, s1: string, s2: string)
    requires stored == a + "$" + s1 && s1 == b + "$" + s2 && s2 == c + "$" + d
    ensures stored == a + "$" + b + "$" + c + "$" + d
  {
    assert a + "$" + (b + "$" + s2) == a + "$" + b + "$" + s2;
    assert (a + "$" + b + "$") + (c + "$" + d) == a + "$" + b + "$" + c + "$" + d;
  }

  /** The stored text is a hash of the scheme, and the token derives its digest. */
  ghost predicate Matches(
      kdf: Kdf, token: string, stored: string, count: string, salt: string, digest: string, n: int)
  {
    Fields(stored, "pbkdf2_sha256", count, salt, digest) && ParseInt(count) == Some(n) && n >= 1 &&
    Decode(salt).Some? && Decode(digest).Some? && kdf(token, Decode(salt).value, n) == Decode(digest).value
  }

  /** A token is accepted exactly when the stored text has the four fields of the scheme and its digest is derived. */
  lemma AcceptedIff(kdf: Kdf, token: string, stored: string)
    ensures VerifyAgentToken(kdf, token, stored) == Ok(true) <==>
      exists count, salt, digest, n :: Matches(kdf, token, stored, count, salt, digest, n)
  {
    hide Split, ParseInt, Decode, Fields;
    if VerifyAgentToken(kdf, token, stored) == Ok(true) {
      var p := Split(stored, '$');
      FourParts(stored);
      assert Matches(kdf, token, stored, p[1], p[2], p[3], ParseInt(p[1]).value);
    }
    forall count, salt, digest, n | Matches(kdf, token, stored, count, salt, digest, n)
      ensures VerifyAgentToken(kdf, token, stored) == Ok(true)
    {
      FieldsSplit(stored, "pbkdf2_sha256", count, salt, digest);
    }
  }

  lemma FieldsSplit(stored: string, a: string, b: string, c: string, d: string)
    requires Fields(stored, a, b, c, d)
    ensures Split(stored, '$') == [a, b, c, d]
  {
    FourFields(a, b, c, d);
  }

  /** An error is raised exactly for a hash of the scheme with malformed base64 or without iterations. */
  lemma RaisedIff(kdf: Kdf, token: string, stored: string)
    ensures VerifyAgentToken(kdf, token, stored).Err? <==>
      exists count, salt, digest ::
        Fields(stored, "pbkdf2_sha256", count, salt, digest) && ParseInt(count).Some? &&
        (Decode(salt) == None || Decode(digest) == None || ParseInt(count).value < 1)
  {
    hide Split, ParseInt, Decode, Fields;
    if VerifyAgentToken(kdf, token, stored).Err? {
      FourParts(stored);
    }
    forall count, salt, digest | Fields(stored, "pbkdf2_sha256", count, salt, digest)
      ensures Split(stored, '$') == ["pbkdf2_sha256", count, salt, digest]
    {
      FieldsSplit(stored, "pbkdf2_sha256", count, salt, digest);
    }
  }
}
