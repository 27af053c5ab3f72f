/**
 * A decoder for JSON texts (RFC 8259, sections 2 to 7), standing for the raw_decode call of the
 * reader.  Like it, the decoder starts at a position, returns the first value there with the
 * position after it, and also knows the words NaN and Infinity.
 */
module JsonDecoder {
  /** A decoded object keeps its members in text order; looking a key up takes the last one. */
  datatype Json =
    | JNull
    | JBool(value: bool)
    | JNumber(lexeme: string)
    | JWord(word: string)
    | JString(codes: seq<nat>)
    | JArray(items: seq<Json>)
    | JObject(members: seq<Member>)

  datatype Member = Member(key: seq<nat>, value: Json)

  datatype Decoded<+T> = Got(value: T, end: nat) | Bad

  // ---- white space ----

  predicate JsonSpace(c: char) {
    c == ' ' || c == '\t' || c == '\n' || c == '\r'
  }

  function SkipJson(s: string, i: nat): (j: nat)
    requires i <= |s|
    ensures i <= j <= |s| && (j < |s| ==> !JsonSpace(s[j]))
    decreases |s| - i
  {
    if i < |s| && JsonSpace(s[i]) then SkipJson(s, i + 1) else i
  }

  // ---- strings ----

  function HexValue(c: char): (v: int)
    ensures -1 <= v < 16
  {
    if '0' <= c <= '9' then c as int - '0' as int
    else if 'a' <= c <= 'f' then c as int - 'a' as int + 10
    else if 'A' <= c <= 'F' then c as int - 'A' as int + 10
    else -1
  }

  /** The four hexadecimal digits at `i`, or -1. */
  function Hex4(s: string, i: nat): int {
    if i + 4 <= |s| && HexValue(s[i]) >= 0 && HexValue(s[i + 1]) >= 0 && HexValue(s[i + 2]) >= 0 &&
      HexValue(s[i + 3]) >= 0
    then HexValue(s[i]) * 4096 + HexValue(s[i + 1]) * 256 + HexValue(s[i + 2]) * 16 + HexValue(s[i + 3])
    else -1
  }

  function SimpleEscape(c: char): int {
    match c
    case '"' => 34
    case '\\' => 92
    case '/' => 47
    case 'b' => 8
    case 'f' => 12
    case 'n' => 10
    case 'r' => 13
    case 't' => 9
    case _ => -1
  }

  predicate HighSurrogate(u: int) {
    0xD800 <= u <= 0xDBFF
  }

  predicate LowSurrogate(u: int) {
    0xDC00 <= u <= 0xDFFF
  }

  function Prepend(code: nat, rest: Decoded<seq<nat>>): Decoded<seq<nat>> {
    match rest
    case Got(codes, end) => Got([code] + codes, end)
    case Bad => Bad
  }

  predicate UnicodeEscapeAt(s: string, i: nat) {
    i + 2 <= |s| && s[i] == '\\' && s[i + 1] == 'u'
  }

  /** One character of a string, or one escape sequence; a surrogate pair counts as one. */
  function ScanUnit(s: string, i: nat): (r: Decoded<nat>)
    requires i < |s|
    ensures r.Got? ==> i < r.end <= |s|
  {
    if s[i] < ' ' then Bad
    else if s[i] != '\\' then Got(s[i] as int, i + 1)
    else if i + 1 >= |s| then Bad
    else if s[i + 1] != 'u' then
      if SimpleEscape(s[i + 1]) < 0 then Bad else Got(SimpleEscape(s[i + 1]), i + 2)
    else
      var u := Hex4(s, i + 2);
      if u < 0 then Bad
      else if HighSurrogate(u) && UnicodeEscapeAt(s, i + 6) then
        var v := Hex4(s, i + 8);
        if v < 0 then Bad
        else if LowSurrogate(v) then Got(0x10000 + (u - 0xD800) * 1024 + (v - 0xDC00), i + 12)
        else Got(u, i + 6)
      else Got(u, i + 6)
  }

  /** Scan a string whose opening quote is just before `i`. */
  function ScanString(s: string, i: nat): (r: Decoded<seq<nat>>)
    requires i <= |s|
    ensures r.Got? ==> i < r.end <= |s|
    decreases |s| - i
  {
    if i >= |s| then Bad
    else if s[i] == '"' then Got([], i + 1)
    else
      match ScanUnit(s, i)
      case Bad => Bad
      case Got(code, next) => Prepend(code, ScanString(s, next))
  }

  // ---- numbers ----

  predicate Digit(c: char) {
    '0' <= c <= '9'
  }

  function DigitsEnd(s: string, i: nat): (j: nat)
    requires i <= |s|
    ensures i <= j <= |s| && (j < |s| ==> !Digit(s[j]))
    decreases |s| - i
  {
    if i < |s| && Digit(s[i]) then DigitsEnd(s, i + 1) else i
  }

  function FractionEnd(s: string, i: nat): (j: nat)
    requires i <= |s|
    ensures i <= j <= |s|
  {
    if i + 1 < |s| && s[i] == '.' && Digit(s[i + 1]) then DigitsEnd(s, i + 1) else i
  }

  function ExponentEnd(s: string, i: nat): (j: nat)
    requires i <= |s|
    ensures i <= j <= |s|
  {
    if i < |s| && (s[i] == 'e' || s[i] == 'E') then
      var p := if i + 1 < |s| && (s[i + 1] == '+' || s[i + 1] == '-') then i + 2 else i + 1;
      if p < |s| && Digit(s[p]) then DigitsEnd(s, p) else i
    else i
  }

  function IntegerEnd(s: string, i: nat): (j: nat)
    requires i < |s| && Digit(s[i])
    ensures i < j <= |s|
  {
    if s[i] == '0' then i + 1 else DigitsEnd(s, i)
  }

  function NumberStart(s: string, i: nat): nat
    requires i <= |s|
  {
    if i < |s| && s[i] == '-' then i + 1 else i
  }

  function ParseNumber(s: string, i: nat): (r: Decoded<string>)
    requires i <= |s|
    ensures r.Got? ==> NumberStart(s, i) < r.end <= |s| && r.value == s[i..r.end]
  {
    var j := NumberStart(s, i);
    if j < |s| && Digit(s[j]) then
      var end := ExponentEnd(s, FractionEnd(s, IntegerEnd(s, j)));
      Got(s[i..end], end)
    else Bad
  }

  // ---- values ----

  predicate HasWord(s: string, i: nat, w: string) {
    i + |w| <= |s| && s[i..i + |w|] == w
  }

  /** The literal words, tried where the number syntax does not match. */
  function ParseWord(s: string, i: nat): (r: Decoded<Json>)
    requires i < |s|
    ensures r.Got? ==> i < r.end <= |s| && !r.value.JNumber? && !r.value.JString? && !r.value.JArray? && !r.value.JObject?
  {
    if HasWord(s, i, "null") then Got(JNull, i + 4)
    else if HasWord(s, i, "true") then Got(JBool(true), i + 4)
    else if HasWord(s, i, "false") then Got(JBool(false), i + 5)
    else if HasWord(s, i, "NaN") then Got(JWord("NaN"), i + 3)
    else if HasWord(s, i, "Infinity") then Got(JWord("Infinity"), i + 8)
    else if HasWord(s, i, "-Infinity") then Got(JWord("-Infinity"), i + 9)
    else Bad
  }

  /** A number or a word. */
  function ParseScalar(s: string, i: nat): (r: Decoded<Json>)
    requires i < |s|
    ensures r.Got? ==> i < r.end <= |s| && !r.value.JString? && !r.value.JArray? && !r.value.JObject?
  {
    match ParseNumber(s, i)
    case Got(lexeme, end) => Got(JNumber(lexeme), end)
    case Bad => ParseWord(s, i)
  }

  /** What follows an element: the closing character, a comma and the next element, or neither. */
  datatype Next = Closed(end: nat) | More(start: nat) | Neither

  function AfterElement(s: string, e: nat, closer: char): (r: Next)
    requires e <= |s|
    ensures r.Closed? ==> e < r.end <= |s|
    ensures r.More? ==> e < r.start <= |s|
  {
    var j := SkipJson(s, e);
    if j < |s| && s[j] == closer then Closed(j + 1)
    else if j < |s| && s[j] == ',' then More(SkipJson(s, j + 1))
    else Neither
  }

  function ParseValue(s: string, i: nat): (r: Decoded<Json>)
    requires i <= |s|
    ensures r.Got? ==> i < r.end <= |s|
    decreases |s| - i, 0
  {
    if i >= |s| then Bad
    else if s[i] == '"' then
      match ScanString(s, i + 1)
      case Got(codes, end) => Got(JString(codes), end)
      case Bad => Bad
    else if s[i] == '[' then
      match ParseArray(s, SkipJson(s, i + 1))
      case Got(items, end) => Got(JArray(items), end)
      case Bad => Bad
    else if s[i] == '{' then
      match ParseObject(s, SkipJson(s, i + 1))
      case Got(members, end) => Got(JObject(members), end)
      case Bad => Bad
    else ParseScalar(s, i)
  }

  function ParseArray(s: string, j: nat): (r: Decoded<seq<Json>>)
    requires j <= |s|
    ensures r.Got? ==> j < r.end <= |s|
    decreases |s| - j, 2
  {
    if j < |s| && s[j] == ']' then Got([], j + 1) else ParseElements(s, j)
  }

  function ParseObject(s: string, j: nat): (r: Decoded<seq<Member>>)
    requires j <= |s|
    ensures r.Got? ==> j < r.end <= |s|
    decreases |s| - j, 2
  {
    if j < |s| && s[j] == '}' then Got([], j + 1) else ParseMembers(s, j)
  }

  /** One or more values separated by commas, up to and including the closing bracket. */
  function ParseElements(s: string, i: nat): (r: Decoded<seq<Json>>)
    requires i <= |s|
    ensures r.Got? ==> i < r.end <= |s| && r.value != []
    decreases |s| - i, 1
  {
    match ParseValue(s, i)
    case Bad => Bad
    case Got(v, e) =>
      match AfterElement(s, e, ']')
      case Closed(end) => Got([v], end)
      case Neither => Bad
      case More(start) =>
        match ParseElements(s, start)
        case Got(rest, end) => Got([v] + rest, end)
        case Bad => Bad
  }

  /** A string key and a colon; the end is the position where the value starts. */
  function ParseKey(s: string, i: nat): (r: Decoded<seq<nat>>)
    requires i <= |s|
    ensures r.Got? ==> i < r.end <= |s| && s[i] == '"'
  {
    if i < |s| && s[i] == '"' then
      match ScanString(s, i + 1)
      case Bad => Bad
      case Got(key, e) =>
        var j := SkipJson(s, e);
        if j < |s| && s[j] == ':' then Got(key, SkipJson(s, j + 1)) else Bad
    else Bad
  }

  /** One or more members separated by commas, up to and including the closing brace. */
  function ParseMembers(s: string, i: nat): (r: Decoded<seq<Member>>)
    requires i <= |s|
    ensures r.Got? ==> i < r.end <= |s| && r.value != []
    decreases |s| - i, 1
  {
    match ParseKey(s, i)
    case Bad => Bad
    case Got(key, start) =>
      match ParseValue(s, start)
      case Bad => Bad
      case Got(v, e) =>
        match AfterElement(s, e, '}')
        case Closed(end) => Got([Member(key, v)], end)
        case Neither => Bad
        case More(next) =>
          match ParseMembers(s, next)
          case Got(rest, end) => Got([Member(key, v)] + rest, end)
          case Bad => Bad
  }

  /** Decoding a whole document: one value with only white space around it. */
  function LoadDocument(s: string): Decoded<Json> {
    match ParseValue(s, SkipJson(s, 0))
    case Got(v, e) => if SkipJson(s, e) == |s| then Got(v, |s|) else Bad
    case Bad => Bad
  }
}
