/**
 * The ways to write a JSON value (RFC 8259, sections 2 to 7, with the words NaN and Infinity): every
 * choice of white space, escapes and hexadecimal digits.  Decoding gives back what was written.
 */
module JsonWriting {
  import opened Prelude
  import opened JsonDecoder
  import opened JsonPrefix

  // ---- strings ----

  /** One character of a string: as it is, by a short escape, by its number, or by a surrogate pair. */
  datatype Unit =
    | Raw(c: char)
    | Short(letter: char, meant: char)
    | Numbered(digits: string, number: nat)
    | Paired(high: string, low: string, number: nat)

  const LOWER := "0123456789abcdef"
  const UPPER := "0123456789ABCDEF"

  predicate SpellsDigit(c: char, v: nat) {
    v < 16 && (c == LOWER[v] || c == UPPER[v])
  }

  predicate Spells(digits: string, n: nat) {
    |digits| == 4 && n < 0x10000 && SpellsDigit(digits[0], n / 4096) && SpellsDigit(digits[1], n / 256 % 16) &&
    SpellsDigit(digits[2], n / 16 % 16) && SpellsDigit(digits[3], n % 16)
  }

  /** The letter of each short escape, with the character it stands for. */
  predicate ShortEscape(letter: char, meant: char) {
    (letter == '"' && meant == '"') || (letter == '\\' && meant == '\\') || (letter == '/' && meant == '/') ||
    (letter == 'b' && meant == '\U{8}') || (letter == 'f' && meant == '\U{C}') ||
    (letter == 'n' && meant == '\n') || (letter == 'r' && meant == '\r') || (letter == 't' && meant == '\t')
  }

  /** The surrogate pair of a code point above the first plane. */
  function HighPart(n: nat): nat
    requires 0x10000 <= n < 0x110000
  {
    0xD800 + (n - 0x10000) / 1024
  }

  function LowPart(n: nat): nat
    requires 0x10000 <= n < 0x110000
  {
    0xDC00 + (n - 0x10000) % 1024
  }

  predicate UnitOk(u: Unit) {
    match u
    case Raw(c) => c >= ' ' && c != '"' && c != '\\'
    case Short(letter, meant) => ShortEscape(letter, meant)
    case Numbered(digits, n) => Spells(digits, n)
    case Paired(high, low, n) =>
      0x10000 <= n < 0x110000 && Spells(high, HighPart(n)) && Spells(low, LowPart(n))
  }

  function UnitText(u: Unit): (r: string)
    ensures r != ""
  {
    match u
    case Raw(c) => [c]
    case Short(letter, _) => ['\\', letter]
    case Numbered(digits, _) => "\\u" + digits
    case Paired(high, low, _) => "\\u" + high + "\\u" + low
  }

  /** The code point that is meant. */
  function Meant(u: Unit): nat {
    match u
    case Raw(c) => c as nat
    case Short(_, meant) => meant as nat
    case Numbered(_, n) => n
    case Paired(_, _, n) => n
  }

  /** Two escapes by number that would be read as one surrogate pair. */
  predicate Merges(u: Unit, v: Unit) {
    u.Numbered? && v.Numbered? && 0xD800 <= u.number < 0xDC00 && 0xDC00 <= v.number < 0xE000
  }

  predicate UnitsOk(us: seq<Unit>) {
    us != [] ==> UnitOk(us[0]) && (|us| > 1 ==> !Merges(us[0], us[1])) && UnitsOk(us[1..])
  }

  function UnitsText(us: seq<Unit>): string {
    if us == [] then "" else UnitText(us[0]) + UnitsText(us[1..])
  }

  function MeantBy(us: seq<Unit>): seq<nat> {
    if us == [] then [] else [Meant(us[0])] + MeantBy(us[1..])
  }

  // ---- numbers ----

  predicate Digits(s: string) {
    s != "" && forall i :: 0 <= i < |s| ==> '0' <= s[i] <= '9'
  }

  /** Sign, whole part, fraction and exponent; the last two may be missing. */
  datatype Number = Number(minus: string, whole: string, fraction: string, exponent: string)

  predicate NumberOk(n: Number) {
    (n.minus == "" || n.minus == "-") &&
    (n.whole == "0" || (Digits(n.whole) && n.whole[0] != '0')) &&
    (n.fraction == "" || (n.fraction[0] == '.' && Digits(n.fraction[1..]))) &&
    (n.exponent == "" || ExponentOk(n.exponent))
  }

  predicate ExponentOk(e: string) {
    |e| > 1 && (e[0] == 'e' || e[0] == 'E') &&
    (Digits(e[1..]) || ((e[1] == '+' || e[1] == '-') && Digits(e[2..])))
  }

  function NumberText(n: Number): string {
    n.minus + n.whole + n.fraction + n.exponent
  }

  // ---- values ----

  predicate Gap(s: string) {
    forall i :: 0 <= i < |s| ==> s[i] == ' ' || s[i] == '\t' || s[i] == '\n' || s[i] == '\r'
  }

  datatype Written =
    | Word(text: string)
    | Num(number: Number)
    | Str(units: seq<Unit>)
    | NoItems(gap: string)
    | Arr(items: Items)
    | NoMembers(gap: string)
    | Obj(members: Members)

  datatype Items =
    | LastItem(before: string, value: Written, after: string)
    | MoreItems(before: string, value: Written, after: string, rest: Items)

  datatype Members =
    | LastMember(before: string, key: seq<Unit>, mid: string, colon: string, value: Written, after: string)
    | MoreMembers(before: string, key: seq<Unit>, mid: string, colon: string, value: Written, after: string, rest: Members)

  predicate WordOk(text: string) {
    text == "null" || text == "true" || text == "false" || text == "NaN" || text == "Infinity" || text == "-Infinity"
  }

  predicate WrittenOk(w: Written) {
    match w
    case Word(text) => WordOk(text)
    case Num(n) => NumberOk(n)
    case Str(us) => UnitsOk(us)
    case NoItems(gap) => Gap(gap)
    case Arr(items) => ItemsOk(items)
    case NoMembers(gap) => Gap(gap)
    case Obj(members) => MembersOk(members)
  }

  predicate ItemsOk(items: Items) {
    Gap(items.before) && WrittenOk(items.value) && Gap(items.after) && (items.MoreItems? ==> ItemsOk(items.rest))
  }

  predicate MembersOk(ms: Members) {
    Gap(ms.before) && UnitsOk(ms.key) && Gap(ms.mid) && Gap(ms.colon) && WrittenOk(ms.value) && Gap(ms.after) &&
    (ms.MoreMembers? ==> MembersOk(ms.rest))
  }

  function Text(w: Written): string {
    match w
    case Word(text) => text
    case Num(n) => NumberText(n)
    case Str(us) => "\"" + UnitsText(us) + "\""
    case NoItems(gap) => "[" + gap + "]"
    case Arr(items) => "[" + ItemsText(items)
    case NoMembers(gap) => "{" + gap + "}"
    case Obj(members) => "{" + MembersText(members)
  }

  function ItemsText(items: Items): string {
    items.before + Text(items.value) + items.after + if items.MoreItems? then "," + ItemsText(items.rest) else "]"
  }

  function MembersText(ms: Members): string {
    ms.before + ("\"" + UnitsText(ms.key) + "\"") + ms.mid + ":" + ms.colon + Text(ms.value) + ms.after +
    if ms.MoreMembers? then "," + MembersText(ms.rest) else "}"
  }

  /** The value that is written. */
  function Value(w: Written): Json {
    match w
    case Word(text) =>
      if text == "null" then JNull else if text == "true" then JBool(true) else if text == "false" then JBool(false)
      else JWord(text)
    case Num(n) => JNumber(NumberText(n))
    case Str(us) => JString(MeantBy(us))
    case NoItems(_) => JArray([])
    case Arr(items) => JArray(ItemValues(items))
    case NoMembers(_) => JObject([])
    case Obj(members) => JObject(MemberValues(members))
  }

  function ItemValues(items: Items): seq<Json> {
    [Value(items.value)] + if items.MoreItems? then ItemValues(items.rest) else []
  }

  function MemberValues(ms: Members): seq<Member> {
    [Member(MeantBy(ms.key), Value(ms.value))] + if ms.MoreMembers? then MemberValues(ms.rest) else []
  }

  // ---- text at a position ----

  predicate Here(s: string, i: nat, x: string) {
    i + |x| <= |s| && s[i..i + |x|] == x
  }

  lemma HereParts(s: string, i: nat, x: string, y: string)
    ensures Here(s, i, x + y) <==> Here(s, i, x) && Here(s, i + |x|, y)
  {
    if Here(s, i, x + y) {
      assert s[i..i + |x|] == (x + y)[..|x|] == x;
      assert s[i + |x|..i + |x| + |y|] == (x + y)[|x|..] == y;
    }
    if Here(s, i, x) && Here(s, i + |x|, y) {
      assert s[i..i + |x + y|] == s[i..i + |x|] + s[i + |x|..i + |x| + |y|];
    }
  }

  lemma HereAt(s: string, i: nat, x: string, k: nat)
    requires Here(s, i, x) && k < |x|
    ensures i + |x| <= |s| && s[i + k] == x[k]
  {
    assert s[i..i + |x|][k] == s[i + k];
  }

  lemma HereFits(s: string, i: nat, x: string)
    requires Here(s, i, x)
    ensures i + |x| <= |s|
  {
  }

  // ---- strings are read back ----

  lemma DigitRead(c: char, v: nat)
    requires SpellsDigit(c, v)
    ensures HexValue(c) == v
  {
  }

  lemma NumberSpelled(n: nat)
    requires n < 0x10000
    ensures n / 4096 * 4096 + n / 256 % 16 * 256 + n / 16 % 16 * 16 + n % 16 == n && n / 4096 < 16
  {
    var a := n / 16;
    var b := a / 16;
    assert n == a * 16 + n % 16 && a == b * 16 + a % 16 && b == b / 16 * 16 + b % 16;
    assert b == n / 256 && b / 16 == n / 4096;
  }

  lemma SpelledRead(s: string, i: nat, digits: string, n: nat)
    requires Here(s, i, digits) && Spells(digits, n)
    ensures Hex4(s, i) == n
  {
    hide SpellsDigit, HexValue;
    HereAt(s, i, digits, 0);
    HereAt(s, i, digits, 1);
    HereAt(s, i, digits, 2);
    HereAt(s, i, digits, 3);
    DigitRead(digits[0], n / 4096);
    DigitRead(digits[1], n / 256 % 16);
    DigitRead(digits[2], n / 16 % 16);
    DigitRead(digits[3], n % 16);
    NumberSpelled(n);
  }

  /** What follows a unit: the closing quote, or another unit that does not merge with it. */
  predicate Follows(s: string, j: nat, u: Unit, us: seq<Unit>) {
    UnitsOk(us) && Here(s, j, UnitsText(us) + "\"") && (us != [] ==> !Merges(u, us[0]))
  }

  lemma FirstUnit(s: string, j: nat, us: seq<Unit>)
    requires UnitsOk(us) && us != [] && Here(s, j, UnitsText(us) + "\"")
    ensures UnitOk(us[0]) && Here(s, j, UnitText(us[0]))
    ensures Here(s, j + |UnitText(us[0])|, UnitsText(us[1..]) + "\"")
  {
    hide Here, UnitText, UnitOk;
    var first, rest := UnitText(us[0]), UnitsText(us[1..]);
    assert (first + rest) + "\"" == first + (rest + "\"");
    HereParts(s, j, first, rest + "\"");
  }

  /** An escape by number at `j`, as its digits spell it. */
  lemma EscapeRead(s: string, j: nat, digits: string, n: nat)
    requires Here(s, j, "\\u" + digits) && Spells(digits, n)
    ensures UnicodeEscapeAt(s, j) && Hex4(s, j + 2) == n && j + 6 <= |s|
  {
    hide Spells, Hex4;
    HereParts(s, j, "\\u", digits);
    HereAt(s, j, "\\u", 0);
    HereAt(s, j, "\\u", 1);
    SpelledRead(s, j + 2, digits, n);
    SpelledLength(digits, n);
  }

  lemma SpelledLength(digits: string, n: nat)
    requires Spells(digits, n)
    ensures |digits| == 4 && n < 0x10000
  {
  }

  lemma PairParts(n: nat)
    requires 0x10000 <= n < 0x110000
    ensures HighSurrogate(HighPart(n)) && LowSurrogate(LowPart(n))
    ensures n == 0x10000 + (HighPart(n) - 0xD800) * 1024 + (LowPart(n) - 0xDC00)
  {
  }

  /** Both escapes of a pair stand in the text. */
  lemma PairHere(s: string, i: nat, high: string, low: string, n: nat)
    requires UnitOk(Paired(high, low, n)) && Here(s, i, UnitText(Paired(high, low, n)))
    ensures 0x10000 <= n < 0x110000 && |UnitText(Paired(high, low, n))| == 12 && i + 12 <= |s|
    ensures UnicodeEscapeAt(s, i) && Hex4(s, i + 2) == HighPart(n)
    ensures UnicodeEscapeAt(s, i + 6) && Hex4(s, i + 8) == LowPart(n)
  {
    hide Spells, Hex4, Here, HighPart, LowPart, UnicodeEscapeAt;
    var first, second := "\\u" + high, "\\u" + low;
    SpelledLength(high, HighPart(n));
    SpelledLength(low, LowPart(n));
    assert UnitText(Paired(high, low, n)) == first + second;
    HereParts(s, i, first, second);
    EscapeRead(s, i, high, HighPart(n));
    EscapeRead(s, i + 6, low, LowPart(n));
  }

  /** The unit at `j` is no low surrogate that would merge with `u`. */
  lemma NextIsNotLow(s: string, j: nat, u: Unit, v: Unit)
    requires UnitOk(v) && Here(s, j, UnitText(v)) && !Merges(u, v) && u.Numbered? && HighSurrogate(u.number)
    ensures UnicodeEscapeAt(s, j) ==> Hex4(s, j + 2) >= 0 && !LowSurrogate(Hex4(s, j + 2))
  {
    hide Spells, Hex4, HighPart, LowPart, Here;
    match v {
      case Raw(c) => HereAt(s, j, UnitText(v), 0);
      case Short(letter, _) => HereAt(s, j, UnitText(v), 1);
      case Numbered(digits, n) => EscapeRead(s, j, digits, n);
      case Paired(high, low, n) =>
        PairHere(s, j, high, low, n);
        PairParts(n);
    }
  }

  /** Behind a high surrogate comes no low one, unless as part of a pair. */
  lemma NoLowFollows(s: string, j: nat, u: Unit, us: seq<Unit>)
    requires Follows(s, j, u, us) && u.Numbered? && HighSurrogate(u.number)
    ensures UnicodeEscapeAt(s, j) ==> Hex4(s, j + 2) >= 0 && !LowSurrogate(Hex4(s, j + 2))
  {
    hide Spells, Hex4, UnitsText, UnitOk, Merges;
    if us == [] {
      QuoteHere(s, j);
    } else {
      FirstUnit(s, j, us);
      NextIsNotLow(s, j, u, us[0]);
    }
  }

  lemma QuoteHere(s: string, j: nat)
    requires Here(s, j, UnitsText([]) + "\"")
    ensures j < |s| && s[j] == '"'
  {
    assert UnitsText([]) + "\"" == "\"";
    HereAt(s, j, "\"", 0);
  }

  lemma PairScanned(s: string, i: nat, a: nat, b: nat)
    requires i + 12 <= |s| && UnicodeEscapeAt(s, i) && Hex4(s, i + 2) == a && HighSurrogate(a)
    requires UnicodeEscapeAt(s, i + 6) && Hex4(s, i + 8) == b && LowSurrogate(b)
    ensures ScanUnit(s, i) == Got(0x10000 + (a - 0xD800) * 1024 + (b - 0xDC00), i + 12)
  {
    hide Hex4;
  }

  lemma PairRead(s: string, i: nat, high: string, low: string, n: nat)
    requires UnitOk(Paired(high, low, n)) && Here(s, i, UnitText(Paired(high, low, n)))
    ensures |UnitText(Paired(high, low, n))| == 12 && i < |s| && ScanUnit(s, i) == Got(n, i + 12)
  {
    hide UnitOk, Here, UnitText, Hex4, HighPart, LowPart, ScanUnit, UnicodeEscapeAt;
    PairHere(s, i, high, low, n);
    PairParts(n);
    PairScanned(s, i, HighPart(n), LowPart(n));
  }

  lemma NumberedRead(s: string, i: nat, u: Unit, us: seq<Unit>)
    requires u.Numbered? && UnitOk(u) && Here(s, i, UnitText(u)) && Follows(s, i + |UnitText(u)|, u, us)
    ensures i < |s| && ScanUnit(s, i) == Got(u.number, i + 6)
  {
    hide Spells, Hex4, HexValue, Follows;
    SpelledLength(u.digits, u.number);
    EscapeRead(s, i, u.digits, u.number);
    if HighSurrogate(u.number) { NoLowFollows(s, i + 6, u, us); }
  }

  /** Every unit is read as what it means. */
  lemma UnitRead(s: string, i: nat, u: Unit, us: seq<Unit>)
    requires UnitOk(u) && Here(s, i, UnitText(u)) && Follows(s, i + |UnitText(u)|, u, us)
    ensures i < |s| && s[i] != '"' && ScanUnit(s, i) == Got(Meant(u), i + |UnitText(u)|)
  {
    hide Spells, Hex4, HexValue, Follows, HighPart, LowPart, Here;
    HereAt(s, i, UnitText(u), 0);
    match u {
      case Raw(_) => HereFits(s, i, UnitText(u));
      case Short(letter, _) =>
        HereFits(s, i, UnitText(u));
        HereAt(s, i, UnitText(u), 1);
      case Numbered(digits, n) =>
        SpelledLength(digits, n);
        NumberedRead(s, i, u, us);
      case Paired(high, low, n) =>
        PairRead(s, i, high, low, n);
    }
  }

  lemma {:induction false} UnitsRead(s: string, i: nat, us: seq<Unit>)
    requires UnitsOk(us) && Here(s, i, UnitsText(us) + "\"")
    ensures i <= |s| && ScanString(s, i) == Got(MeantBy(us), i + |UnitsText(us)| + 1)
    decreases |us|
  {
    hide ScanUnit, UnitOk, Merges, Here;
    if us == [] {
      QuoteHere(s, i);
    } else {
      FirstUnit(s, i, us);
      UnitRead(s, i, us[0], us[1..]);
      UnitsRead(s, i + |UnitText(us[0])|, us[1..]);
    }
  }

  // ---- numbers are read back ----

  lemma {:induction false} DigitsRead(s: string, i: nat, x: string)
    requires Here(s, i, x) && (forall k :: 0 <= k < |x| ==> '0' <= x[k] <= '9')
    requires i + |x| < |s| ==> !Digit(s[i + |x|])
    ensures i <= |s| && DigitsEnd(s, i) == i + |x|
    decreases |x|
  {
    if x != "" {
      HereAt(s, i, x, 0);
      assert x == [x[0]] + x[1..];
      HereParts(s, i, [x[0]], x[1..]);
      DigitsRead(s, i + 1, x[1..]);
    }
  }

  /** The text ends here, or goes on with something that can stand behind a value. */
  predicate Ends(s: string, e: nat) {
    e < |s| ==> JsonSpace(s[e]) || s[e] == ',' || s[e] == ']' || s[e] == '}'
  }

  /** Nothing that could continue a number follows. */
  predicate Stops(s: string, e: nat) {
    e < |s| ==> !Digit(s[e]) && s[e] != '.' && s[e] != 'e' && s[e] != 'E'
  }

  lemma ExponentRead(s: string, i: nat, x: string)
    requires (x == "" || ExponentOk(x)) && Here(s, i, x) && Stops(s, i + |x|)
    ensures i <= |s| && ExponentEnd(s, i) == i + |x|
  {
    hide Digits;
    if x != "" {
      HereAt(s, i, x, 0);
      HereAt(s, i, x, 1);
      DigitsFrom(s, i, x, if Digits(x[1..]) then 1 else 2);
    }
  }

  /** Digits from the `k`-th character of a text on. */
  lemma DigitsFrom(s: string, i: nat, x: string, k: nat)
    requires Here(s, i, x) && k <= |x| && Digits(x[k..]) && Stops(s, i + |x|)
    ensures k < |x| && i + k < |s| && s[i + k] == x[k] && '0' <= x[k] <= '9' && DigitsEnd(s, i + k) == i + |x|
  {
    assert '0' <= x[k..][0] <= '9' && x[k..][0] == x[k];
    HereAt(s, i, x, k);
    assert x == x[..k] + x[k..];
    HereParts(s, i, x[..k], x[k..]);
    DigitsRead(s, i + k, x[k..]);
  }

  lemma FractionRead(s: string, i: nat, x: string)
    requires (x == "" || (x[0] == '.' && Digits(x[1..]))) && Here(s, i, x)
    requires i + |x| < |s| ==> !Digit(s[i + |x|]) && s[i + |x|] != '.'
    ensures i <= |s| && FractionEnd(s, i) == i + |x|
  {
    if x != "" {
      assert '0' <= x[1..][0] <= '9' && x[1..][0] == x[1];
      HereAt(s, i, x, 0);
      HereAt(s, i, x, 1);
      assert x == [x[0]] + x[1..];
      HereParts(s, i, [x[0]], x[1..]);
      DigitsRead(s, i + 1, x[1..]);
    }
  }

  lemma WholeRead(s: string, i: nat, x: string)
    requires (x == "0" || (Digits(x) && x[0] != '0')) && Here(s, i, x)
    requires i + |x| < |s| ==> !Digit(s[i + |x|])
    ensures i < |s| && Digit(s[i]) && IntegerEnd(s, i) == i + |x|
  {
    HereAt(s, i, x, 0);
    if x != "0" { DigitsRead(s, i, x); }
  }

  /** Whatever starts behind a part of a number: an optional part that is not empty starts with its sign. */
  lemma PartStarts(s: string, i: nat, x: string, c: char)
    requires Here(s, i, x) && x != "" && x[0] == c
    ensures i < |s| && s[i] == c
  {
    HereAt(s, i, x, 0);
  }

  /** A number from its parts. */
  lemma NumberStep(s: string, i: nat, text: string, i1: nat, i2: nat, i3: nat)
    requires i <= |s| && NumberStart(s, i) == i1 < |s| && Digit(s[i1]) && IntegerEnd(s, i1) == i2 <= |s|
    requires FractionEnd(s, i2) == i3 <= |s| && ExponentEnd(s, i3) == i + |text| && Here(s, i, text)
    ensures ParseNumber(s, i) == Got(text, i + |text|)
  {
    hide NumberStart, Digit, IntegerEnd, FractionEnd, ExponentEnd;
  }

  lemma NumberRead(s: string, i: nat, n: Number)
    requires NumberOk(n) && Here(s, i, NumberText(n)) && Stops(s, i + |NumberText(n)|)
    ensures i < |s| && ParseNumber(s, i) == Got(NumberText(n), i + |NumberText(n)|)
  {
    hide NumberStart, ExponentEnd, FractionEnd, IntegerEnd, ExponentOk, Digits, ParseNumber, Here;
    var w, f, x := n.whole, n.fraction, n.exponent;
    var i1 := i + |n.minus|;
    var i2 := i1 + |w|;
    var i3 := i2 + |f|;
    NumberParts(s, i, n);
    ExponentStarts(s, i3, x);
    if f != "" { PartStarts(s, i2, f, '.'); }
    WholeStarts(s, i, n);
    ExponentRead(s, i3, x);
    FractionRead(s, i2, f);
    WholeRead(s, i1, w);
    NumberStep(s, i, NumberText(n), i1, i2, i3);
  }

  lemma NumberParts(s: string, i: nat, n: Number)
    requires Here(s, i, NumberText(n))
    ensures Here(s, i, n.minus) && Here(s, i + |n.minus|, n.whole)
    ensures Here(s, i + |n.minus| + |n.whole|, n.fraction)
    ensures Here(s, i + |n.minus| + |n.whole| + |n.fraction|, n.exponent)
  {
    HereParts(s, i, n.minus + n.whole + n.fraction, n.exponent);
    HereParts(s, i, n.minus + n.whole, n.fraction);
    HereParts(s, i, n.minus, n.whole);
  }

  lemma ExponentStarts(s: string, i: nat, x: string)
    requires (x == "" || ExponentOk(x)) && Here(s, i, x) && Stops(s, i + |x|)
    ensures i < |s| ==> !Digit(s[i]) && s[i] != '.'
  {
    if x != "" { HereAt(s, i, x, 0); }
  }

  lemma WholeStarts(s: string, i: nat, n: Number)
    requires NumberOk(n) && Here(s, i, n.minus) && Here(s, i + |n.minus|, n.whole)
    ensures i + |n.minus| < |s| && NumberStart(s, i) == i + |n.minus|
  {
    HereAt(s, i + |n.minus|, n.whole, 0);
    if n.minus != "" { HereAt(s, i, n.minus, 0); }
  }

  // ---- values are read back ----

  lemma NotAWord(s: string, i: nat, text: string, other: string)
    requires text != "" && Here(s, i, text) && other != "" && text[0] != other[0]
    ensures i < |s| && !HasWord(s, i, other)
  {
    HereAt(s, i, text, 0);
    if HasWord(s, i, other) { WordStarts(s, i, other); }
  }

  lemma WordParsed(s: string, i: nat, text: string)
    requires WordOk(text) && Here(s, i, text)
    ensures i < |s| && ParseWord(s, i) == Got(Value(Word(text)), i + |text|)
  {
    hide HasWord, Here;
    HasWordHere(s, i, text);
    if text[0] != 'n' { NotAWord(s, i, text, "null"); }
    if text[0] != 't' { NotAWord(s, i, text, "true"); }
    if text[0] != 'f' { NotAWord(s, i, text, "false"); }
    if text[0] != 'N' { NotAWord(s, i, text, "NaN"); }
    if text[0] != 'I' { NotAWord(s, i, text, "Infinity"); }
    if text[0] != '-' { NotAWord(s, i, text, "-Infinity"); }
  }

  lemma HasWordHere(s: string, i: nat, text: string)
    requires text != "" && Here(s, i, text)
    ensures i < |s| && HasWord(s, i, text)
  {
  }

  lemma WordIsNoNumber(s: string, i: nat, text: string)
    requires WordOk(text) && Here(s, i, text)
    ensures i < |s| && ParseNumber(s, i).Bad? && s[i] != '"' && s[i] != '[' && s[i] != '{'
  {
    HereAt(s, i, text, 0);
    if text == "-Infinity" { HereAt(s, i, text, 1); }
  }

  lemma WordRead(s: string, i: nat, text: string)
    requires WordOk(text) && Here(s, i, text)
    ensures i < |s| && ParseValue(s, i) == Got(Value(Word(text)), i + |text|)
  {
    hide ParseNumber, ParseWord, Here, WordOk;
    WordParsed(s, i, text);
    WordIsNoNumber(s, i, text);
  }

  lemma NumberIsValue(s: string, i: nat, n: Number)
    requires NumberOk(n) && Here(s, i, NumberText(n)) && Ends(s, i + |NumberText(n)|)
    ensures i < |s| && ParseValue(s, i) == Got(JNumber(NumberText(n)), i + |NumberText(n)|)
  {
    hide ParseNumber, Digits;
    NumberRead(s, i, n);
    NumberParts(s, i, n);
    NumberFirst(s, i, n);
  }

  lemma NumberFirst(s: string, i: nat, n: Number)
    requires NumberOk(n) && Here(s, i, n.minus) && Here(s, i + |n.minus|, n.whole)
    ensures i < |s| && (s[i] == '-' || '0' <= s[i] <= '9')
  {
    HereAt(s, i + |n.minus|, n.whole, 0);
    if n.minus != "" { HereAt(s, i, n.minus, 0); }
  }

  lemma StringIsValue(s: string, i: nat, us: seq<Unit>)
    requires UnitsOk(us) && Here(s, i, "\"" + UnitsText(us) + "\"")
    ensures i < |s| && s[i] == '"' && ScanString(s, i + 1) == Got(MeantBy(us), i + |UnitsText(us)| + 2)
    ensures ParseValue(s, i) == Got(JString(MeantBy(us)), i + |UnitsText(us)| + 2)
  {
    assert "\"" + UnitsText(us) + "\"" == "\"" + (UnitsText(us) + "\"");
    HereParts(s, i, "\"", UnitsText(us) + "\"");
    HereAt(s, i, "\"", 0);
    UnitsRead(s, i + 1, us);
  }

  /** White space is skipped up to the character behind it. */
  lemma {:induction false} GapRead(s: string, i: nat, gap: string)
    requires Gap(gap) && Here(s, i, gap) && (i + |gap| < |s| ==> !JsonSpace(s[i + |gap|]))
    ensures i <= |s| && SkipJson(s, i) == i + |gap|
    decreases |gap|
  {
    if gap != "" {
      HereAt(s, i, gap, 0);
      assert gap == [gap[0]] + gap[1..];
      HereParts(s, i, [gap[0]], gap[1..]);
      GapRead(s, i + 1, gap[1..]);
    }
  }

  lemma GapThen(s: string, i: nat, gap: string, c: char)
    requires Gap(gap) && Here(s, i, gap + [c]) && !JsonSpace(c)
    ensures SkipJson(s, i) == i + |gap| < |s| && s[i + |gap|] == c
    ensures c == ',' || c == ']' || c == '}' ==> Ends(s, i)
  {
    HereParts(s, i, gap, [c]);
    HereAt(s, i + |gap|, [c], 0);
    GapRead(s, i, gap);
    if gap != "" { HereAt(s, i, gap, 0); }
  }

  lemma EmptyRead(s: string, i: nat, open: char, gap: string, close: char)
    requires Gap(gap) && Here(s, i, [open] + gap + [close]) && !JsonSpace(close)
    ensures i < |s| && s[i] == open && SkipJson(s, i + 1) == i + 1 + |gap| < |s| && s[i + 1 + |gap|] == close
  {
    assert [open] + gap + [close] == [open] + (gap + [close]);
    HereParts(s, i, [open], gap + [close]);
    HereAt(s, i, [open], 0);
    GapThen(s, i + 1, gap, close);
  }

  /** The sign behind an element, and what it leads to. */
  function SignText(more: bool, rest: string, close: char): string {
    if more then "," + rest else [close]
  }

  lemma SignHere(s: string, e: nat, gap: string, more: bool, rest: string, close: char)
    requires Gap(gap) && Here(s, e, gap + SignText(more, rest, close)) && (close == ']' || close == '}')
    ensures var j := e + |gap|;
      Here(s, e, gap + [if more then ',' else close]) && j < |s| && (more ==> Here(s, j + 1, rest))
  {
    hide Gap;
    if more {
      assert gap + SignText(more, rest, close) == (gap + [',']) + rest;
      HereParts(s, e, gap + [','], rest);
    }
  }

  lemma SignRead(s: string, e: nat, gap: string, more: bool, rest: string, close: char)
    requires Gap(gap) && Here(s, e, gap + SignText(more, rest, close)) && (close == ']' || close == '}')
    ensures e <= |s| && Ends(s, e)
    ensures var j := e + |gap|;
      j < |s| && (more ==> Here(s, j + 1, rest)) &&
      AfterElement(s, e, close) == if more then More(SkipJson(s, j + 1)) else Closed(j + 1)
  {
    hide Here, Gap, SkipJson, SignText;
    SignHere(s, e, gap, more, rest, close);
    GapThen(s, e, gap, if more then ',' else close);
  }

  /** One element and what its sign leads to. */
  lemma ElementsStep(s: string, k: nat, v: Json, e: nat, next: Next, rest: Decoded<seq<Json>>)
    requires k <= |s| && ParseValue(s, k) == Got(v, e) && e <= |s| && AfterElement(s, e, ']') == next && !next.Neither?
    requires next.More? ==> rest.Got? && next.start <= |s| && ParseElements(s, next.start) == rest
    ensures ParseElements(s, k) == if next.More? then Got([v] + rest.value, rest.end) else Got([v], next.end)
  {
    hide ParseValue, AfterElement;
  }

  lemma MembersStep(s: string, k: nat, key: seq<nat>, x: nat, v: Json, e: nat, next: Next, rest: Decoded<seq<Member>>)
    requires k <= |s| && ParseKey(s, k) == Got(key, x) && x <= |s| && ParseValue(s, x) == Got(v, e) && e <= |s|
    requires AfterElement(s, e, '}') == next && !next.Neither?
    requires next.More? ==> rest.Got? && next.start <= |s| && ParseMembers(s, next.start) == rest
    ensures ParseMembers(s, k) ==
      if next.More? then Got([Member(key, v)] + rest.value, rest.end) else Got([Member(key, v)], next.end)
  {
    hide ParseKey, ParseValue, AfterElement;
  }

  /** The text behind the comma of the first item, if there is one. */
  function ItemRest(items: Items): string {
    if items.MoreItems? then ItemsText(items.rest) else ""
  }

  lemma ItemSplit(items: Items)
    ensures ItemsText(items) ==
      items.before + (Text(items.value) + (items.after + SignText(items.MoreItems?, ItemRest(items), ']')))
  {
    hide Text;
  }

  lemma ItemParts(s: string, j: nat, items: Items)
    requires Here(s, j, ItemsText(items))
    ensures var k := j + |items.before|;
      var e := k + |Text(items.value)|;
      Here(s, j, items.before) && Here(s, k, Text(items.value)) &&
      Here(s, e, items.after + SignText(items.MoreItems?, ItemRest(items), ']')) &&
      |ItemsText(items)| == |items.before| + |Text(items.value)| + |items.after| + 1 + |ItemRest(items)|
  {
    hide Text, ItemsText, Here, ItemRest;
    var sign := SignText(items.MoreItems?, ItemRest(items), ']');
    NoRest(items);
    ItemSplit(items);
    HereParts(s, j, items.before, Text(items.value) + (items.after + sign));
    HereParts(s, j + |items.before|, Text(items.value), items.after + sign);
  }

  lemma NoRest(items: Items)
    ensures items.LastItem? ==> ItemRest(items) == ""
  {
  }

  lemma {:induction false} ItemsRead(s: string, j: nat, items: Items)
    requires ItemsOk(items) && Here(s, j, ItemsText(items))
    ensures j <= |s| && SkipJson(s, j) < |s| && s[SkipJson(s, j)] != ']'
    ensures ParseElements(s, SkipJson(s, j)) == Got(ItemValues(items), j + |ItemsText(items)|)
    decreases items
  {
    hide Text, Value, ParseValue, AfterElement, Here, JsonSpace, ParseElements, Ends, Gap, WrittenOk, SkipJson, SignText;
    ItemParts(s, j, items);
    var rest := ItemRest(items);
    var k := j + |items.before|;
    var e := k + |Text(items.value)|;
    SignRead(s, e, items.after, items.MoreItems?, rest, ']');
    ValueRead(s, k, items.value);
    ValueVisible(s, k);
    GapRead(s, j, items.before);
    var n := e + |items.after| + 1;
    if items.MoreItems? {
      ItemsRead(s, n, items.rest);
      ElementsStep(s, k, Value(items.value), e, More(SkipJson(s, n)), ParseElements(s, SkipJson(s, n)));
    } else {
      ElementsStep(s, k, Value(items.value), e, Closed(n), Bad);
      assert [Value(items.value)] + [] == [Value(items.value)];
    }
  }

  lemma ValueVisible(s: string, i: nat)
    requires i <= |s| && ParseValue(s, i).Got?
    ensures i < |s| && !JsonSpace(s[i]) && s[i] != ']' && s[i] != '}'
  {
    ValueIsVisible(s, i);
  }

  function KeyText(us: seq<Unit>): (r: string)
    ensures |r| == |UnitsText(us)| + 2
  {
    "\"" + UnitsText(us) + "\""
  }

  /** A member from its colon on. */
  function ValuePart(ms: Members): string {
    var rest := if ms.MoreMembers? then MembersText(ms.rest) else "";
    ms.colon + (Text(ms.value) + (ms.after + SignText(ms.MoreMembers?, rest, '}')))
  }

  lemma ValuePartHere(s: string, v: nat, ms: Members)
    requires Here(s, v, ValuePart(ms))
    ensures var rest := if ms.MoreMembers? then MembersText(ms.rest) else "";
      var x := v + |ms.colon|;
      var e := x + |Text(ms.value)|;
      Here(s, v, ms.colon) && Here(s, x, Text(ms.value)) &&
      Here(s, e, ms.after + SignText(ms.MoreMembers?, rest, '}')) &&
      v + |ValuePart(ms)| == e + |ms.after| + 1 + |rest|
  {
    var rest := if ms.MoreMembers? then MembersText(ms.rest) else "";
    var tail := ms.after + SignText(ms.MoreMembers?, rest, '}');
    hide Text, MembersText, Here;
    HereParts(s, v, ms.colon, Text(ms.value) + tail);
    HereParts(s, v + |ms.colon|, Text(ms.value), tail);
  }

  lemma MemberSplit(ms: Members)
    ensures MembersText(ms) == ms.before + (KeyText(ms.key) + ((ms.mid + ":") + ValuePart(ms)))
  {
    hide Text, UnitsText;
  }

  lemma MemberParts(s: string, j: nat, ms: Members)
    requires Here(s, j, MembersText(ms))
    ensures var k := j + |ms.before|;
      var c := k + |KeyText(ms.key)|;
      var v := c + |ms.mid| + 1;
      Here(s, j, ms.before) && Here(s, k, KeyText(ms.key)) && Here(s, c, ms.mid + ":") && Here(s, v, ValuePart(ms)) &&
      j + |MembersText(ms)| == v + |ValuePart(ms)|
  {
    hide MembersText, ValuePart, KeyText, Here;
    MemberSplit(ms);
    var k := j + |ms.before|;
    HereParts(s, j, ms.before, KeyText(ms.key) + ((ms.mid + ":") + ValuePart(ms)));
    HereParts(s, k, KeyText(ms.key), (ms.mid + ":") + ValuePart(ms));
    HereParts(s, k + |KeyText(ms.key)|, ms.mid + ":", ValuePart(ms));
  }

  /** A key from the string and the colon that are read. */
  lemma KeyStep(s: string, k: nat, key: seq<nat>, e: nat, c: nat)
    requires k < |s| && s[k] == '"' && ScanString(s, k + 1) == Got(key, e) && e <= |s|
    requires SkipJson(s, e) == c && c < |s| && s[c] == ':'
    ensures ParseKey(s, k) == Got(key, SkipJson(s, c + 1))
  {
    hide ScanString, SkipJson;
  }

  lemma KeyRead(s: string, k: nat, us: seq<Unit>, mid: string, colon: string)
    requires UnitsOk(us) && Gap(mid) && Gap(colon) && Here(s, k, KeyText(us))
    requires var c := k + |UnitsText(us)| + 2;
      var x := c + |mid| + 1 + |colon|;
      Here(s, c, mid + ":") && Here(s, c + |mid| + 1, colon) && (x < |s| ==> !JsonSpace(s[x]))
    ensures k < |s| && s[k] == '"'
    ensures ParseKey(s, k) == Got(MeantBy(us), k + |UnitsText(us)| + 2 + |mid| + 1 + |colon|)
  {
    hide ScanString, ParseValue, ParseKey, Here, Gap, SkipJson, UnitsText, UnitsOk, MeantBy;
    StringIsValue(s, k, us);
    var c := k + |UnitsText(us)| + 2;
    ColonRead(s, c, mid);
    GapRead(s, c + |mid| + 1, colon);
    KeyStep(s, k, MeantBy(us), c, c + |mid|);
  }

  lemma ColonRead(s: string, c: nat, mid: string)
    requires Gap(mid) && Here(s, c, mid + ":")
    ensures SkipJson(s, c) == c + |mid| < |s| && s[c + |mid|] == ':'
  {
    assert mid + ":" == mid + [':'];
    GapThen(s, c, mid, ':');
  }

  lemma {:induction false} MembersRead(s: string, j: nat, ms: Members)
    requires MembersOk(ms) && Here(s, j, MembersText(ms))
    ensures j <= |s| && SkipJson(s, j) < |s| && s[SkipJson(s, j)] != '}'
    ensures ParseMembers(s, SkipJson(s, j)) == Got(MemberValues(ms), j + |MembersText(ms)|)
    decreases ms
  {
    hide Text, Value, ParseValue, ParseKey, AfterElement, Here, JsonSpace, UnitsText, MeantBy, ParseMembers, Ends, Gap;
    hide WrittenOk, UnitsOk, SkipJson, SignText;
    MemberParts(s, j, ms);
    hide KeyText, ValuePart;
    ValuePartHere(s, j + |ms.before| + |KeyText(ms.key)| + |ms.mid| + 1, ms);
    var rest := if ms.MoreMembers? then MembersText(ms.rest) else "";
    var k := j + |ms.before|;
    var x := k + |UnitsText(ms.key)| + 2 + |ms.mid| + 1 + |ms.colon|;
    var e := x + |Text(ms.value)|;
    SignRead(s, e, ms.after, ms.MoreMembers?, rest, '}');
    ValueRead(s, x, ms.value);
    ValueVisible(s, x);
    KeyRead(s, k, ms.key, ms.mid, ms.colon);
    QuoteVisible();
    GapRead(s, j, ms.before);
    var n := e + |ms.after| + 1;
    var m := Member(MeantBy(ms.key), Value(ms.value));
    if ms.MoreMembers? {
      MembersRead(s, n, ms.rest);
      MembersStep(s, k, m.key, x, m.value, e, More(SkipJson(s, n)), ParseMembers(s, SkipJson(s, n)));
    } else {
      MembersStep(s, k, m.key, x, m.value, e, Closed(n), Bad);
      assert [m] + [] == [m];
    }
  }

  lemma QuoteVisible()
    ensures !JsonSpace('"')
  {
  }

  /** What is written is decoded, whatever stands before it and whatever may stand behind a value. */
  lemma {:induction false} ValueRead(s: string, i: nat, w: Written)
    requires WrittenOk(w) && Here(s, i, Text(w)) && Ends(s, i + |Text(w)|)
    ensures i < |s| && ParseValue(s, i) == Got(Value(w), i + |Text(w)|)
    decreases w
  {
    hide Here, NumberOk, UnitsOk, Gap, ItemsText, MembersText, SkipJson, ScanString, ParseElements, ParseMembers;
    match w {
      case Word(text) => WordRead(s, i, text);
      case Num(n) => NumberIsValue(s, i, n);
      case Str(us) => StringIsValue(s, i, us);
      case NoItems(gap) => EmptyRead(s, i, '[', gap, ']');
      case NoMembers(gap) => EmptyRead(s, i, '{', gap, '}');
      case Arr(items) =>
        OpenRead(s, i, '[', ItemsText(items));
        ItemsRead(s, i + 1, items);
      case Obj(members) =>
        OpenRead(s, i, '{', MembersText(members));
        MembersRead(s, i + 1, members);
    }
  }

  lemma OpenRead(s: string, i: nat, open: char, rest: string)
    requires Here(s, i, [open] + rest)
    ensures i < |s| && s[i] == open && Here(s, i + 1, rest)
  {
    HereParts(s, i, [open], rest);
    HereAt(s, i, [open], 0);
  }

  /** A document is a value with white space around it. */
  lemma DocumentRead(before: string, w: Written, after: string)
    requires Gap(before) && WrittenOk(w) && Gap(after)
    ensures var t := before + Text(w) + after; LoadDocument(t) == Got(Value(w), |t|)
  {
    hide ParseValue, Text, Value, WrittenOk, Here;
    var t := before + Text(w) + after;
    DocumentParts(before, Text(w), after);
    var e := |before| + |Text(w)|;
    GapRead(t, e, after);
    ValueRead(t, |before|, w);
    ValueVisible(t, |before|);
    GapRead(t, 0, before);
  }

  lemma DocumentParts(before: string, x: string, after: string)
    requires Gap(after)
    ensures var t := before + x + after;
      Here(t, 0, before) && Here(t, |before|, x) && Here(t, |before| + |x|, after) && Ends(t, |before| + |x|)
  {
    var t := before + x + after;
    assert Here(t, 0, t);
    HereParts(t, 0, before + x, after);
    HereParts(t, 0, before, x);
    if after != "" { HereAt(t, |before| + |x|, after, 0); }
  }
}
