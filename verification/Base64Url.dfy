/** Unpadded base64url (RFC 4648, sections 4 and 5) as the token hashes use it. */
module Base64Url {
  import opened Prelude

  newtype byte = x: int | 0 <= x < 256

  type Sextet = x: int | 0 <= x < 64

  // ---- the alphabet ----

  function Symbol(v: Sextet): (c: char)
    ensures c != '=' && c != '$'
  {
    if v < 26 then 'A' + v as char
    else if v < 52 then 'a' + (v - 26) as char
    else if v < 62 then '0' + (v - 52) as char
    else if v == 62 then '-'
    else '_'
  }

  /** The value of a character; the decoder knows both alphabets, and -1 stands for any other character. */
  function ValueOf(c: char): (v: int)
    ensures -1 <= v < 64
  {
    if 'A' <= c <= 'Z' then c as int - 'A' as int
    else if 'a' <= c <= 'z' then c as int - 'a' as int + 26
    else if '0' <= c <= '9' then c as int - '0' as int + 52
    else if c == '-' || c == '+' then 62
    else if c == '_' || c == '/' then 63
    else -1
  }

  lemma SymbolsDecode(v: Sextet)
    ensures ValueOf(Symbol(v)) == v
  {
  }

  const CAPITALS := "ABCDEFGHIJKLMNOPQRSTUVWXYZ"
  const SMALL := "abcdefghijklmnopqrstuvwxyz"
  const FIGURES := "0123456789"

  /** The character of a value in an alphabet that ends with the given two. */
  predicate Writes(v: Sextet, c: char, minus: char, underscore: char) {
    if v < 26 then c == CAPITALS[v]
    else if v < 52 then c == SMALL[v - 26]
    else if v < 62 then c == FIGURES[v - 52]
    else if v == 62 then c == minus
    else c == underscore
  }

  lemma CapitalAt(v: nat)
    requires v < 26
    ensures CAPITALS[v] == 'A' + v as char
  {
  }

  lemma SmallAt(v: nat)
    requires v < 26
    ensures SMALL[v] == 'a' + v as char
  {
  }

  /** Each value is written by its character of the URL alphabet, and read from either alphabet and nothing else. */
  lemma AlphabetExact(v: Sextet, c: char)
    ensures Symbol(v) == c <==> Writes(v, c, '-', '_')
    ensures ValueOf(c) == v <==> Writes(v, c, '-', '_') || Writes(v, c, '+', '/')
  {
    WritesCode(v, c, '-', '_');
    WritesCode(v, c, '+', '/');
    hide Writes;
  }

  lemma WritesCode(v: Sextet, c: char, minus: char, underscore: char)
    ensures Writes(v, c, minus, underscore) <==>
      c == if v < 26 then 'A' + v as char else if v < 52 then 'a' + (v - 26) as char
        else if v < 62 then '0' + (v - 52) as char else if v == 62 then minus else underscore
  {
    if v < 26 {
      CapitalAt(v);
    } else if v < 52 {
      SmallAt(v - 26);
    }
  }

  // ---- encoding ----

  /** The four groups of six bits in three bytes. */
  function Bits0(a: byte): Sextet {
    a as int / 4
  }

  function Bits1(a: byte, b: byte): Sextet {
    a as int % 4 * 16 + b as int / 16
  }

  function Bits2(b: byte, c: byte): Sextet {
    b as int % 16 * 4 + c as int / 64
  }

  function Bits3(c: byte): Sextet {
    c as int % 64
  }

  /** A group of four symbols is the number of its three bytes, the first byte leading. */
  lemma GroupNumber(a: byte, b: byte, c: byte)
    ensures ((Bits0(a) * 64 + Bits1(a, b)) * 64 + Bits2(b, c)) * 64 + Bits3(c) ==
      (a as int * 256 + b as int) * 256 + c as int
  {
  }

  function FullGroup(a: byte, b: byte, c: byte): (r: string)
    ensures |r| == 4
  {
    [Symbol(Bits0(a)), Symbol(Bits1(a, b)), Symbol(Bits2(b, c)), Symbol(Bits3(c))]
  }

  function LastTwo(a: byte, b: byte): (r: string)
    ensures |r| == 3
  {
    [Symbol(Bits0(a)), Symbol(Bits1(a, b)), Symbol(Bits2(b, 0))]
  }

  function LastOne(a: byte): (r: string)
    ensures |r| == 2
  {
    [Symbol(Bits0(a)), Symbol(Bits1(a, 0))]
  }

  /** Encoding with padding, three bytes at a time. */
  function EncodePadded(bytes: seq<byte>): string
    decreases |bytes|
  {
    if |bytes| == 0 then ""
    else if |bytes| == 1 then LastOne(bytes[0]) + "=="
    else if |bytes| == 2 then LastTwo(bytes[0], bytes[1]) + "="
    else FullGroup(bytes[0], bytes[1], bytes[2]) + EncodePadded(bytes[3..])
  }

  function StripRight(s: string, c: char): string {
    if s != "" && s[|s| - 1] == c then StripRight(s[..|s| - 1], c) else s
  }

  function Encode(bytes: seq<byte>): string {
    StripRight(EncodePadded(bytes), '=')
  }

  // ---- decoding ----

  /** Between characters: the position in a group of four, the bits left over, the padding seen, the bytes so far. */
  datatype Scan = Scan(quad: nat, left: int, pads: nat, bytes: seq<byte>)

  function Take(s: Scan, v: Sextet): Scan
    requires s.quad < 4 && 0 <= s.left < 64
  {
    if s.quad == 0 then Scan(1, v, 0, s.bytes)
    else if s.quad == 1 then Scan(2, v % 16, 0, s.bytes + [((s.left * 4 + v / 16) % 256) as byte])
    else if s.quad == 2 then Scan(3, v % 4, 0, s.bytes + [((s.left * 16 + v / 4) % 256) as byte])
    else Scan(0, 0, 0, s.bytes + [((s.left * 64 + v) % 256) as byte])
  }

  /** The lenient decoder: characters outside the alphabet are skipped, and complete padding ends the input. */
  function DecodeFrom(text: string, i: nat, s: Scan): Option<seq<byte>>
    requires i <= |text| && s.quad < 4 && 0 <= s.left < 64
    decreases |text| - i
  {
    if i == |text| then if s.quad == 0 then Some(s.bytes) else None
    else if text[i] == '=' then
      if s.quad >= 2 then
        if s.quad + s.pads + 1 >= 4 then Some(s.bytes) else DecodeFrom(text, i + 1, s.(pads := s.pads + 1))
      else DecodeFrom(text, i + 1, s)
    else if ValueOf(text[i]) < 0 then DecodeFrom(text, i + 1, s)
    else DecodeFrom(text, i + 1, Take(s, ValueOf(text[i])))
  }

  /** Enough padding to fill the last group of four. */
  function Padding(n: int): (r: string)
    ensures |r| == (-n) % 4 && forall i :: 0 <= i < |r| ==> r[i] == '='
  {
    var short: int := (-n) % 4;
    seq(short, i => '=')
  }

  function Decode(value: string): Option<seq<byte>> {
    var padded := value + Padding(|value|);
    DecodeFrom(padded, 0, Scan(0, 0, 0, []))
  }

  // ---- the round trip ----

  predicate NoDollar(s: string) {
    forall i :: 0 <= i < |s| ==> s[i] != '$'
  }

  lemma StripTail(group: string, pads: string)
    requires group != "" && group[|group| - 1] != '=' && (pads == "" || pads == "=" || pads == "==")
    ensures StripRight(group + pads, '=') == group
  {
    StripBehind(group, pads);
    assert StripRight("", '=') == "" && "="[..0] == "" && "=="[..1] == "=";
    assert StripRight("=", '=') == "" && StripRight("==", '=') == "";
    assert group + "" == group;
  }

  lemma ShortPadding(n: int)
    requires n == 2 || n == 3
    ensures Padding(n) == if n == 2 then "==" else "="
  {
  }

  /** The padding that is computed from the length is what was stripped. */
  lemma {:induction false} PaddingRestored(bytes: seq<byte>)
    ensures Encode(bytes) + Padding(|Encode(bytes)|) == EncodePadded(bytes)
    decreases |bytes|
  {
    if |bytes| == 0 {
      assert Padding(0) == "";
    } else if |bytes| == 1 {
      StripTail(LastOne(bytes[0]), "==");
      ShortPadding(2);
    } else if |bytes| == 2 {
      StripTail(LastTwo(bytes[0], bytes[1]), "=");
      ShortPadding(3);
    } else {
      var group, rest := FullGroup(bytes[0], bytes[1], bytes[2]), bytes[3..];
      PaddingRestored(rest);
      StripBehind(group, EncodePadded(rest));
      FourMore(group, Encode(rest), EncodePadded(rest));
    }
  }

  lemma FourMore(group: string, short: string, padded: string)
    requires |group| == 4 && short + Padding(|short|) == padded
    ensures group + short + Padding(|group + short|) == group + padded
  {
    assert Padding(|group + short|) == Padding(|short|);
  }

  /** No field of a stored hash can contain the separator. */
  lemma {:induction false} EncodedNoDollar(bytes: seq<byte>)
    ensures NoDollar(EncodePadded(bytes))
    decreases |bytes|
  {
    if |bytes| > 2 { EncodedNoDollar(bytes[3..]); }
  }

  lemma {:induction false} StrippedNoDollar(s: string)
    requires NoDollar(s)
    ensures NoDollar(StripRight(s, '='))
  {
    if s != "" && s[|s| - 1] == '=' { StrippedNoDollar(s[..|s| - 1]); }
  }

  lemma {:induction false} StripBehind(group: string, rest: string)
    requires group != "" && group[|group| - 1] != '='
    ensures StripRight(group + rest, '=') == group + StripRight(rest, '=')
    decreases |rest|
  {
    if rest == "" {
      assert group + rest == group;
    } else if rest[|rest| - 1] == '=' {
      assert (group + rest)[..|group + rest| - 1] == group + rest[..|rest| - 1];
      StripBehind(group, rest[..|rest| - 1]);
    }
  }

  /** A symbol is decoded to the bits it stands for. */
  lemma DecodeSymbol(text: string, i: nat, s: Scan, v: Sextet)
    requires i < |text| && text[i] == Symbol(v) && s.quad < 4 && 0 <= s.left < 64
    ensures DecodeFrom(text, i, s) == DecodeFrom(text, i + 1, Take(s, v))
  {
    hide Symbol, ValueOf, Take;
    SymbolsDecode(v);
  }

  lemma TakeFirst(bytes: seq<byte>, a: byte)
    ensures Take(Scan(0, 0, 0, bytes), Bits0(a)) == Scan(1, Bits0(a), 0, bytes)
  {
  }

  /** The second symbol completes the first byte, and so on. */
  lemma TakeSecond(bytes: seq<byte>, a: byte, b: byte)
    ensures Take(Scan(1, Bits0(a), 0, bytes), Bits1(a, b)) == Scan(2, b as int / 16, 0, bytes + [a])
  {
  }

  lemma TakeThird(bytes: seq<byte>, b: byte, c: byte)
    ensures Take(Scan(2, b as int / 16, 0, bytes), Bits2(b, c)) == Scan(3, c as int / 64, 0, bytes + [b])
  {
  }

  lemma TakeFourth(bytes: seq<byte>, c: byte)
    ensures Take(Scan(3, c as int / 64, 0, bytes), Bits3(c)) == Scan(0, 0, 0, bytes + [c])
  {
  }

  /** Two symbols give a byte back. */
  lemma FirstBack(text: string, i: nat, bytes: seq<byte>, a: byte, b: byte)
    requires i + 2 <= |text| && text[i] == Symbol(Bits0(a)) && text[i + 1] == Symbol(Bits1(a, b))
    ensures DecodeFrom(text, i, Scan(0, 0, 0, bytes)) == DecodeFrom(text, i + 2, Scan(2, b as int / 16, 0, bytes + [a]))
  {
    hide Symbol, Bits0, Bits1, Take, DecodeFrom;
    TakeFirst(bytes, a);
    TakeSecond(bytes, a, b);
    DecodeSymbol(text, i, Scan(0, 0, 0, bytes), Bits0(a));
    DecodeSymbol(text, i + 1, Scan(1, Bits0(a), 0, bytes), Bits1(a, b));
  }

  /** A full group of four characters gives its three bytes back. */
  lemma GroupBack(text: string, i: nat, bytes: seq<byte>, a: byte, b: byte, c: byte)
    requires i + 4 <= |text| && text[i..i + 4] == FullGroup(a, b, c)
    ensures DecodeFrom(text, i, Scan(0, 0, 0, bytes)) == DecodeFrom(text, i + 4, Scan(0, 0, 0, bytes + [a, b, c]))
  {
    hide Symbol, Bits0, Bits1, Bits2, Bits3, Take, DecodeFrom;
    assert text[i] == text[i..i + 4][0] && text[i + 1] == text[i..i + 4][1];
    assert text[i + 2] == text[i..i + 4][2] && text[i + 3] == text[i..i + 4][3];
    FirstBack(text, i, bytes, a, b);
    TakeThird(bytes + [a], b, c);
    DecodeSymbol(text, i + 2, Scan(2, b as int / 16, 0, bytes + [a]), Bits2(b, c));
    TakeFourth(bytes + [a] + [b], c);
    DecodeSymbol(text, i + 3, Scan(3, c as int / 64, 0, bytes + [a] + [b]), Bits3(c));
    assert bytes + [a] + [b] + [c] == bytes + [a, b, c];
  }

  lemma {:induction false} DecodeRest(text: string, i: nat, done: seq<byte>, rest: seq<byte>)
    requires i <= |text| && text[i..] == EncodePadded(rest)
    ensures DecodeFrom(text, i, Scan(0, 0, 0, done)) == Some(done + rest)
    decreases |rest|
  {
    var tail := text[i..];
    if |rest| == 0 {
      assert done + rest == done;
    } else if |rest| == 1 {
      LastOneBack(text, i, done, rest[0]);
      assert rest == [rest[0]];
    } else if |rest| == 2 {
      LastTwoBack(text, i, done, rest[0], rest[1]);
      assert rest == [rest[0], rest[1]];
    } else {
      var group := FullGroup(rest[0], rest[1], rest[2]);
      assert text[i..i + 4] == tail[..4] == group;
      GroupBack(text, i, done, rest[0], rest[1], rest[2]);
      assert text[i + 4..] == tail[4..] == EncodePadded(rest[3..]);
      DecodeRest(text, i + 4, done + [rest[0], rest[1], rest[2]], rest[3..]);
      assert done + [rest[0], rest[1], rest[2]] + rest[3..] == done + rest;
    }
  }

  lemma LastOneBack(text: string, i: nat, done: seq<byte>, a: byte)
    requires i <= |text| && text[i..] == LastOne(a) + "=="
    ensures DecodeFrom(text, i, Scan(0, 0, 0, done)) == Some(done + [a])
  {
    assert |text| == i + 4 && text[i] == text[i..][0] && text[i + 1] == text[i..][1];
    assert text[i + 2] == text[i..][2] && text[i + 3] == text[i..][3];
    FirstBack(text, i, done, a, 0);
    var s2 := Scan(2, 0, 0, done + [a]);
    assert DecodeFrom(text, i + 2, s2) == DecodeFrom(text, i + 3, s2.(pads := 1));
  }

  lemma LastTwoBack(text: string, i: nat, done: seq<byte>, a: byte, b: byte)
    requires i <= |text| && text[i..] == LastTwo(a, b) + "="
    ensures DecodeFrom(text, i, Scan(0, 0, 0, done)) == Some(done + [a, b])
  {
    hide Symbol, Bits0, Bits1, Bits2, Take;
    assert |text| == i + 4 && text[i] == text[i..][0] && text[i + 1] == text[i..][1];
    assert text[i + 2] == text[i..][2] && text[i + 3] == text[i..][3];
    FirstBack(text, i, done, a, b);
    TakeThird(done + [a], b, 0);
    DecodeSymbol(text, i + 2, Scan(2, b as int / 16, 0, done + [a]), Bits2(b, 0));
    assert done + [a] + [b] == done + [a, b];
  }

  /** Decoding gives back every byte string from its unpadded encoding. */
  lemma DecodeEncode(bytes: seq<byte>)
    ensures Decode(Encode(bytes)) == Some(bytes)
  {
    PaddingRestored(bytes);
    var text := EncodePadded(bytes);
    assert text[0..] == text;
    DecodeRest(text, 0, [], bytes);
    assert [] + bytes == bytes;
  }

  // ---- decoding anything ----

  /** The values of the alphabet characters of a text; the others are passed over. */
  function Values(text: string): seq<Sextet> {
    if text == "" then []
    else
      var rest, v := Values(text[..|text| - 1]), ValueOf(text[|text| - 1]);
      if v >= 0 then rest + [v] else rest
  }

  /** The number written with these values as its figures. */
  function Number64(vs: seq<Sextet>): int {
    if vs == [] then 0 else Number64(vs[..|vs| - 1]) * 64 + vs[|vs| - 1]
  }

  function Number256(bytes: seq<byte>): int {
    if bytes == [] then 0 else Number256(bytes[..|bytes| - 1]) * 256 + bytes[|bytes| - 1] as int
  }

  /** How many numbers the bits beyond the last whole byte can hold, after so many characters of a group. */
  function Spare(quad: nat): int {
    if quad == 0 then 1 else if quad == 1 then 64 else if quad == 2 then 16 else 4
  }

  /** How many bytes are complete after so many characters: three for each group, and those of the last one. */
  function WholeBytes(n: nat): nat {
    n / 4 * 3 + if n % 4 == 0 then 0 else n % 4 - 1
  }

  /** The number of whole bytes with what is left over behind it. */
  function WithRest(bytes: int, quad: nat, left: int): int {
    if quad == 0 then bytes + left
    else if quad == 1 then bytes * 64 + left
    else if quad == 2 then bytes * 16 + left
    else bytes * 4 + left
  }

  /** After so many characters: the place in the group, the bytes, what is left over, and what they stand for. */
  predicate Tally(chars: nat, number64: int, quad: nat, bytes: nat, number256: int, left: int) {
    quad == chars % 4 && bytes == WholeBytes(chars) && 0 <= left < Spare(quad) &&
    number64 == WithRest(number256, quad, left)
  }

  /** The bytes are the leading bits of the number, and the rest is left over. */
  predicate Holds(s: Scan, vs: seq<Sextet>) {
    s.pads == 0 && Tally(|vs|, Number64(vs), s.quad, |s.bytes|, Number256(s.bytes), s.left)
  }

  lemma Number256Append(bytes: seq<byte>, b: byte)
    ensures Number256(bytes + [b]) == Number256(bytes) * 256 + b as int
  {
    assert (bytes + [b])[..|bytes|] == bytes;
  }

  lemma NextGroup(n: nat)
    ensures (n + 1) % 4 == if n % 4 == 3 then 0 else n % 4 + 1
    ensures WholeBytes(n + 1) == WholeBytes(n) + if n % 4 == 0 then 0 else 1
  {
  }

  /** The byte that a further character completes. */
  function CompletedByte(quad: nat, left: int, v: Sextet): (b: int)
    requires 1 <= quad <= 3 && 0 <= left < Spare(quad)
    ensures 0 <= b < 256
  {
    if quad == 1 then left * 4 + v / 16 else if quad == 2 then left * 16 + v / 4 else left * 64 + v
  }

  /** What a further character leaves over. */
  function LeftOver(quad: nat, v: Sextet): (left: int)
    ensures 0 <= left < 64
  {
    if quad == 0 then v else if quad == 1 then v % 16 else if quad == 2 then v % 4 else 0
  }

  lemma OneByte(n: int)
    requires 0 <= n < 256
    ensures n % 256 == n
  {
  }

  /** The first character of a group is left over, any other completes a byte. */
  lemma TakeParts(s: Scan, v: Sextet)
    requires s.quad < 4 && 0 <= s.left < Spare(s.quad)
    ensures var t := Take(s, v);
      t.quad == (if s.quad == 3 then 0 else s.quad + 1) && t.pads == 0 && t.left == LeftOver(s.quad, v) &&
      t.bytes == if s.quad == 0 then s.bytes else s.bytes + [CompletedByte(s.quad, s.left, v) as byte]
  {
    if s.quad > 0 {
      var n := CompletedByte(s.quad, s.left, v);
      OneByte(n);
      TakesByte(s, v, n);
    }
  }

  lemma TakesByte(s: Scan, v: Sextet, n: int)
    requires 1 <= s.quad <= 3 && 0 <= s.left < 64 && 0 <= n < 256 && n % 256 == n
    requires n == if s.quad == 1 then s.left * 4 + v / 16 else if s.quad == 2 then s.left * 16 + v / 4 else s.left * 64 + v
    ensures Take(s, v) == Scan(if s.quad == 3 then 0 else s.quad + 1, LeftOver(s.quad, v), 0, s.bytes + [n as byte])
  {
  }

  /** The number with one more figure. */
  lemma NextNumber(k: int, quad: nat, left: int, v: Sextet)
    requires quad < 4 && 0 <= left < Spare(quad)
    ensures var next := if quad == 3 then 0 else quad + 1;
      LeftOver(quad, v) < Spare(next) &&
      WithRest(k, quad, left) * 64 + v ==
        WithRest(if quad == 0 then k else k * 256 + CompletedByte(quad, left, v), next, LeftOver(quad, v))
  {
    if quad == 1 {
      assert v == v / 16 * 16 + v % 16;
    } else if quad == 2 {
      assert v == v / 4 * 4 + v % 4;
    }
  }

  lemma NextTally(chars: nat, number64: int, quad: nat, bytes: nat, number256: int, left: int, v: Sextet)
    requires Tally(chars, number64, quad, bytes, number256, left) && quad < 4
    ensures var next := if quad == 3 then 0 else quad + 1;
      if quad == 0 then Tally(chars + 1, number64 * 64 + v, next, bytes, number256, LeftOver(quad, v))
      else
        Tally(chars + 1, number64 * 64 + v, next, bytes + 1, number256 * 256 + CompletedByte(quad, left, v), LeftOver(quad, v))
  {
    hide Spare, WholeBytes, WithRest, LeftOver, CompletedByte;
    NextGroup(chars);
    NextNumber(number256, quad, left, v);
  }

  lemma TallyBounds(chars: nat, number64: int, quad: nat, bytes: nat, number256: int, left: int)
    requires Tally(chars, number64, quad, bytes, number256, left)
    ensures quad < 4 && 0 <= left < Spare(quad) <= 64
  {
  }

  lemma Number64Append(vs: seq<Sextet>, v: Sextet)
    ensures Number64(vs + [v]) == Number64(vs) * 64 + v
  {
    assert (vs + [v])[..|vs|] == vs;
  }

  lemma TakeHolds(s: Scan, vs: seq<Sextet>, v: Sextet)
    requires Holds(s, vs)
    ensures s.quad < 4 && 0 <= s.left < 64
    ensures Holds(Take(s, v), vs + [v])
  {
    hide Take, Number64, Number256, Tally, LeftOver, CompletedByte, Spare;
    TallyBounds(|vs|, Number64(vs), s.quad, |s.bytes|, Number256(s.bytes), s.left);
    NextTally(|vs|, Number64(vs), s.quad, |s.bytes|, Number256(s.bytes), s.left, v);
    Number64Append(vs, v);
    TakeParts(s, v);
    if s.quad > 0 { Number256Append(s.bytes, CompletedByte(s.quad, s.left, v) as byte); }
  }

  predicate Unpadded(text: string) {
    forall i :: 0 <= i < |text| ==> text[i] != '='
  }

  /** Reading a text without padding, whatever comes behind it. */
  lemma {:induction false} ReadsOver(text: string, i: nat, behind: string, s: Scan) returns (end: Scan)
    requires i <= |text| && Unpadded(text) && Holds(s, Values(text[..i]))
    ensures Holds(end, Values(text)) && end.quad < 4 && 0 <= end.left < 64
    ensures DecodeFrom(text + behind, i, s) == DecodeFrom(text + behind, |text|, end)
    decreases |text| - i
  {
    end := s;
    if i == |text| {
      assert text[..i] == text;
    } else {
      var v := ValueOf(text[i]);
      assert text[..i + 1][..i] == text[..i] && (text + behind)[i] == text[i];
      if v >= 0 { TakeHolds(s, Values(text[..i]), v); }
      end := ReadsOver(text, i + 1, behind, if v >= 0 then Take(s, v) else s);
    }
  }

  /** At the padding, a group of at least two characters has to be filled up. */
  lemma {:induction false} ReadsPadding(text: string, i: nat, s: Scan)
    requires i <= |text| && s.quad < 4 && 0 <= s.left < 64 && (s.quad < 2 ==> s.pads == 0) && s.quad + s.pads < 4
    requires forall k :: i <= k < |text| ==> text[k] == '='
    ensures DecodeFrom(text, i, s) ==
      if s.quad == 0 || (s.quad >= 2 && s.quad + s.pads + (|text| - i) >= 4) then Some(s.bytes) else None
    decreases |text| - i
  {
    if i < |text| {
      if s.quad < 2 {
        ReadsPadding(text, i + 1, s);
      } else if s.quad + s.pads + 1 < 4 {
        ReadsPadding(text, i + 1, s.(pads := s.pads + 1));
      }
    }
  }

  /**
   * A text without padding is decoded if and only if the padding that its length calls for fills up
   * the last group of its alphabet characters, and then the bytes are the leading bits of the number
   * that these characters write.
   */
  lemma DecodesNumber(text: string)
    requires Unpadded(text)
    ensures var vs := Values(text);
      var open := |vs| % 4;
      (Decode(text).Some? <==> open == 0 || (open >= 2 && open + (-|text|) % 4 >= 4)) &&
      (Decode(text).Some? ==>
        |Decode(text).value| == WholeBytes(|vs|) && Number256(Decode(text).value) == Number64(vs) / Spare(open))
  {
    hide Take, Values, Number64, Number256;
    var padding := Padding(|text|);
    NothingRead();
    assert text[..0] == "";
    var end := ReadsOver(text, 0, padding, Scan(0, 0, 0, []));
    ReadsPadding(text + padding, |text|, end);
    LeadingBits(Number256(end.bytes), end.quad, end.left);
  }

  lemma LeadingBits(k: int, quad: nat, left: int)
    requires quad < 4 && 0 <= left < Spare(quad)
    ensures WithRest(k, quad, left) / Spare(quad) == k
  {
    if quad == 1 {
      assert (k * 64 + left) / 64 == k;
    } else if quad == 2 {
      assert (k * 16 + left) / 16 == k;
    } else if quad == 3 {
      assert (k * 4 + left) / 4 == k;
    }
  }

  lemma NothingRead()
    ensures Holds(Scan(0, 0, 0, []), Values(""))
  {
  }
}
