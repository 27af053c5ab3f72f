/** Slugs of spawn requests: made from a display name, then numbered until one is free. */
module Slugs {
  // ---- numerals ----

  function DigitChar(d: nat): char
    requires d < 10
  {
    '0' + d as char
  }

  function Numeral(n: nat): (r: string)
    ensures r != ""
  {
    if n < 10 then [DigitChar(n)] else Numeral(n / 10) + [DigitChar(n % 10)]
  }

  lemma {:induction false} NumeralInjective(m: nat, n: nat)
    requires Numeral(m) == Numeral(n)
    ensures m == n
  {
    var a, b := Numeral(m), Numeral(n);
    assert a[|a| - 1] == DigitChar(m % 10) && b[|b| - 1] == DigitChar(n % 10);
    if m >= 10 {
      assert a[..|a| - 1] == Numeral(m / 10);
    }
    if n >= 10 {
      assert b[..|b| - 1] == Numeral(n / 10);
    }
    if m >= 10 && n >= 10 { NumeralInjective(m / 10, n / 10); }
  }

  /** The number that decimal figures stand for. */
  function Decimal(s: string): int {
    if s == "" then 0 else Decimal(s[..|s| - 1]) * 10 + (s[|s| - 1] as int - '0' as int)
  }

  predicate Figures(s: string) {
    s != "" && (forall i :: 0 <= i < |s| ==> '0' <= s[i] <= '9') && (s[0] == '0' ==> s == "0")
  }

  /** A numeral is the decimal notation of its number. */
  lemma {:induction false} NumeralReads(n: nat)
    ensures Figures(Numeral(n)) && Decimal(Numeral(n)) == n && (n > 0 ==> Numeral(n)[0] != '0')
  {
    if n < 10 {
      assert Numeral(n)[..0] == "";
    } else {
      NumeralReads(n / 10);
      var s := Numeral(n);
      assert s[..|s| - 1] == Numeral(n / 10);
    }
  }

  // ---- making a slug ----

  function Normalize(value: string, isAlnum: char -> bool, lower: char -> string): string {
    if value == "" then ""
    else (if isAlnum(value[0]) then lower(value[0]) else "-") + Normalize(value[1..], isAlnum, lower)
  }

  /** The non-empty parts between dashes. */
  function Parts(s: string): (r: seq<string>)
    ensures forall i :: 0 <= i < |r| ==> r[i] != "" && forall j :: 0 <= j < |r[i]| ==> r[i][j] != '-'
    decreases |s|
  {
    if s == "" then []
    else if s[|s| - 1] == '-' then Parts(s[..|s| - 1])
    else
      var k := PartStart(s, |s| - 1);
      Parts(s[..k]) + [s[k..]]
  }

  /** Where the run of other characters that ends behind position `i` begins. */
  function PartStart(s: string, i: nat): (k: nat)
    requires i < |s| && s[i] != '-'
    ensures k <= i && forall j :: k <= j <= i ==> s[j] != '-'
  {
    if i == 0 || s[i - 1] == '-' then i else PartStart(s, i - 1)
  }

  function Join(parts: seq<string>): string {
    if parts == [] then ""
    else if |parts| == 1 then parts[0]
    else Join(parts[..|parts| - 1]) + "-" + parts[|parts| - 1]
  }

  function Slugify(value: string, isAlnum: char -> bool, lower: char -> string): string {
    var collapsed := Join(Parts(Normalize(value, isAlnum, lower)));
    if collapsed == "" then "silo" else collapsed
  }

  /** Not empty, no dash at either end, and no two dashes in a row. */
  predicate WellFormed(s: string) {
    s != "" && s[0] != '-' && s[|s| - 1] != '-' && forall i :: 0 < i < |s| ==> s[i - 1] != '-' || s[i] != '-'
  }

  lemma {:induction false} JoinWellFormed(parts: seq<string>)
    requires parts != []
    requires forall i :: 0 <= i < |parts| ==> parts[i] != "" && forall j :: 0 <= j < |parts[i]| ==> parts[i][j] != '-'
    ensures WellFormed(Join(parts))
  {
    if |parts| > 1 {
      var init, last := parts[..|parts| - 1], parts[|parts| - 1];
      JoinWellFormed(init);
      var a := Join(init);
      var s := a + "-" + last;
      forall i | 0 < i < |s| ensures s[i - 1] != '-' || s[i] != '-' {
        if i < |a| { assert s[i - 1] == a[i - 1] && s[i] == a[i]; }
        if i == |a| { assert s[i - 1] == a[i - 1]; }
        if i > |a| { assert s[i] == last[i - |a| - 1]; }
      }
      assert s[0] == a[0] && s[|s| - 1] == last[|last| - 1];
    }
  }

  /** Every display name gives a well-formed slug, whatever letters there are. */
  lemma SlugIsWellFormed(value: string, isAlnum: char -> bool, lower: char -> string)
    ensures WellFormed(Slugify(value, isAlnum, lower))
  {
    var parts := Parts(Normalize(value, isAlnum, lower));
    if parts != [] { JoinWellFormed(parts); }
  }

  // ---- the words of a name ----

  /** A display name as its words in order, with what stands around them. */
  datatype Name = Gap(gap: string) | Word(before: Name, word: string, gap: string)

  predicate OnlyAlnum(s: string, isAlnum: char -> bool) {
    forall i :: 0 <= i < |s| ==> isAlnum(s[i])
  }

  predicate NoAlnum(s: string, isAlnum: char -> bool) {
    forall i :: 0 <= i < |s| ==> !isAlnum(s[i])
  }

  /** Words are runs of letters and digits, and something else stands between two of them. */
  predicate NameOk(n: Name, isAlnum: char -> bool) {
    NoAlnum(n.gap, isAlnum) &&
    (n.Word? ==>
      n.word != "" && OnlyAlnum(n.word, isAlnum) && NameOk(n.before, isAlnum) && (n.before.Word? ==> n.before.gap != ""))
  }

  function NameText(n: Name): string {
    match n
    case Gap(gap) => gap
    case Word(before, word, gap) => NameText(before) + word + gap
  }

  function Lowered(word: string, lower: char -> string): string {
    if word == "" then "" else lower(word[0]) + Lowered(word[1..], lower)
  }

  /** The lower-cased words in their order, one dash between two of them. */
  function Dashed(n: Name, lower: char -> string): string {
    match n
    case Gap(_) => ""
    case Word(before, word, _) => (if before.Word? then Dashed(before, lower) + "-" else "") + Lowered(word, lower)
  }

  function LoweredWords(n: Name, lower: char -> string): seq<string> {
    match n
    case Gap(_) => []
    case Word(before, word, _) => LoweredWords(before, lower) + [Lowered(word, lower)]
  }

  predicate NoDash(s: string) {
    forall i :: 0 <= i < |s| ==> s[i] != '-'
  }

  /** Lower-casing a letter or digit gives some characters without a dash. */
  ghost predicate LowersWell(isAlnum: char -> bool, lower: char -> string) {
    forall c :: isAlnum(c) ==> lower(c) != "" && NoDash(lower(c))
  }

  function Dashes(n: nat): string {
    if n == 0 then "" else Dashes(n - 1) + "-"
  }

  function Normalized(c: char, isAlnum: char -> bool, lower: char -> string): string {
    if isAlnum(c) then lower(c) else "-"
  }

  lemma NormalizeHead(s: string, isAlnum: char -> bool, lower: char -> string)
    requires s != ""
    ensures Normalize(s, isAlnum, lower) == Normalized(s[0], isAlnum, lower) + Normalize(s[1..], isAlnum, lower)
  {
  }

  lemma Regroup(x: string, y: string, z: string)
    ensures x + (y + z) == (x + y) + z
  {
  }

  lemma {:induction false} NormalizeJoin(a: string, b: string, isAlnum: char -> bool, lower: char -> string)
    ensures Normalize(a + b, isAlnum, lower) == Normalize(a, isAlnum, lower) + Normalize(b, isAlnum, lower)
  {
    if a == "" {
      assert a + b == b;
    } else {
      hide Normalize, Normalized;
      NormalizeJoin(a[1..], b, isAlnum, lower);
      NormalizeHead(a, isAlnum, lower);
      NormalizeHead(a + b, isAlnum, lower);
      assert (a + b)[0] == a[0] && (a + b)[1..] == a[1..] + b;
      Regroup(Normalized(a[0], isAlnum, lower), Normalize(a[1..], isAlnum, lower), Normalize(b, isAlnum, lower));
    }
  }

  lemma {:induction false} NormalizeWord(w: string, isAlnum: char -> bool, lower: char -> string)
    requires OnlyAlnum(w, isAlnum) && LowersWell(isAlnum, lower)
    ensures Normalize(w, isAlnum, lower) == Lowered(w, lower) && NoDash(Lowered(w, lower))
    ensures w != "" ==> Lowered(w, lower) != ""
  {
    if w != "" { NormalizeWord(w[1..], isAlnum, lower); }
  }

  lemma {:induction false} NormalizeGap(g: string, isAlnum: char -> bool, lower: char -> string)
    requires NoAlnum(g, isAlnum)
    ensures Normalize(g, isAlnum, lower) == Dashes(|g|)
    decreases |g|
  {
    if g != "" {
      var init, last := g[..|g| - 1], g[|g| - 1..];
      assert g == init + last;
      NormalizeJoin(init, last, isAlnum, lower);
      NormalizeGap(init, isAlnum, lower);
      assert last[1..] == "";
      assert Normalize(last, isAlnum, lower) == "-" + Normalize("", isAlnum, lower) == "-";
    }
  }

  lemma {:induction false} DashesDropped(x: string, n: nat)
    ensures Parts(x + Dashes(n)) == Parts(x)
  {
    if n == 0 {
      assert x + Dashes(0) == x;
    } else {
      DashesDropped(x, n - 1);
      var s := x + Dashes(n);
      assert s[..|s| - 1] == x + Dashes(n - 1) && s[|s| - 1] == '-';
    }
  }

  lemma {:induction false} StartOfWord(y: string, w: string, i: nat)
    requires i < |w| && NoDash(w) && (y == "" || y[|y| - 1] == '-')
    ensures (y + w)[|y| + i] != '-' && PartStart(y + w, |y| + i) == |y|
  {
    if i > 0 { StartOfWord(y, w, i - 1); }
  }

  lemma PartsStep(s: string, k: nat)
    requires s != "" && s[|s| - 1] != '-' && PartStart(s, |s| - 1) == k
    ensures Parts(s) == Parts(s[..k]) + [s[k..]]
  {
    hide PartStart;
  }

  lemma Halves(y: string, w: string)
    ensures (y + w)[..|y|] == y && (y + w)[|y|..] == w
  {
  }

  lemma LastWord(y: string, w: string)
    requires w != "" && NoDash(w) && (y == "" || y[|y| - 1] == '-')
    ensures Parts(y + w) == Parts(y) + [w]
  {
    hide NoDash, PartStart, Parts;
    StartOfWord(y, w, |w| - 1);
    PartsStep(y + w, |y|);
    Halves(y, w);
  }

  lemma {:induction false} PartsAreWords(n: Name, isAlnum: char -> bool, lower: char -> string)
    requires NameOk(n, isAlnum) && LowersWell(isAlnum, lower)
    ensures Parts(Normalize(NameText(n), isAlnum, lower)) == LoweredWords(n, lower)
    decreases n
  {
    hide Normalize, NoAlnum, OnlyAlnum, LowersWell, Parts, NoDash;
    NormalizeGap(n.gap, isAlnum, lower);
    match n {
      case Gap(gap) =>
        assert "" + Dashes(|gap|) == Dashes(|gap|);
        DashesDropped("", |gap|);
        NoParts();
      case Word(before, word, gap) =>
        var y, w := Normalize(NameText(before), isAlnum, lower), Lowered(word, lower);
        NormalizeWord(word, isAlnum, lower);
        NormalizeJoin(NameText(before) + word, gap, isAlnum, lower);
        NormalizeJoin(NameText(before), word, isAlnum, lower);
        PartsAreWords(before, isAlnum, lower);
        EndsInDash(before, isAlnum, lower);
        LastWord(y, w);
        DashesDropped(y + w, |gap|);
    }
  }

  lemma NoParts()
    ensures Parts("") == []
  {
  }

  /** What stands in front of a word is empty or ends in a dash. */
  lemma EndsInDash(n: Name, isAlnum: char -> bool, lower: char -> string)
    requires NameOk(n, isAlnum) && (n.Word? ==> n.gap != "")
    ensures var y := Normalize(NameText(n), isAlnum, lower); y == "" || y[|y| - 1] == '-'
  {
    hide Normalize;
    NormalizeGap(n.gap, isAlnum, lower);
    if n.Word? { NormalizeJoin(NameText(n.before) + n.word, n.gap, isAlnum, lower); }
  }

  lemma {:induction false} JoinIsDashed(n: Name, lower: char -> string)
    ensures Join(LoweredWords(n, lower)) == Dashed(n, lower) && (n.Gap? <==> LoweredWords(n, lower) == [])
    decreases n
  {
    if n.Word? {
      JoinIsDashed(n.before, lower);
      var ws := LoweredWords(n, lower);
      assert ws[..|ws| - 1] == LoweredWords(n.before, lower);
    }
  }

  lemma DashedNotEmpty(n: Name, isAlnum: char -> bool, lower: char -> string)
    requires NameOk(n, isAlnum) && LowersWell(isAlnum, lower)
    ensures n.Word? <==> Dashed(n, lower) != ""
  {
    if n.Word? { NormalizeWord(n.word, isAlnum, lower); }
  }

  /** The slug is the lower-cased words in their order with single dashes between them. */
  lemma SlugOfWords(n: Name, isAlnum: char -> bool, lower: char -> string)
    requires NameOk(n, isAlnum) && LowersWell(isAlnum, lower)
    ensures Slugify(NameText(n), isAlnum, lower) == if n.Gap? then "silo" else Dashed(n, lower)
  {
    PartsAreWords(n, isAlnum, lower);
    JoinIsDashed(n, lower);
    DashedNotEmpty(n, isAlnum, lower);
  }

  /** Every name has its words. */
  lemma {:induction false} NameHasWords(value: string, isAlnum: char -> bool) returns (n: Name)
    ensures NameOk(n, isAlnum) && NameText(n) == value
    decreases |value|
  {
    if value == "" {
      n := Gap("");
    } else {
      var k := |value| - 1;
      var c := value[k];
      var m := NameHasWords(value[..k], isAlnum);
      assert value == value[..k] + [c];
      if !isAlnum(c) {
        n := if m.Gap? then Gap(m.gap + [c]) else Word(m.before, m.word, m.gap + [c]);
      } else if m.Word? && m.gap == "" {
        n := Word(m.before, m.word + [c], "");
      } else {
        n := Word(m, [c], "");
      }
    }
  }

  // ---- finding a free one ----

  function Numbered(base: string, n: nat): string {
    base + "-" + Numeral(n)
  }

  lemma NumberedDistinct(base: string, m: nat, n: nat)
    ensures Numbered(base, m) == Numbered(base, n) ==> m == n
    ensures Numbered(base, m) != base
  {
    var k := |base| + 1;
    assert Numbered(base, m)[k..] == Numeral(m) && Numbered(base, n)[k..] == Numeral(n);
    if Numeral(m) == Numeral(n) { NumeralInjective(m, n); }
    assert |Numbered(base, m)| > |base|;
  }

  /** Whatever finite set of slugs is taken, the search ends: with the base slug or the least free suffix. */
  method FreeSlug(base: string, taken: set<string>) returns (slug: string)
    ensures slug !in taken
    ensures base !in taken ==> slug == base
    ensures base in taken ==> exists n :: n >= 2 && slug == Numbered(base, n) && forall m :: 2 <= m < n ==> Numbered(base, m) in taken
  {
    slug := base;
    var counter := 2;
    ghost var untried := taken;
    while slug in taken
      invariant counter >= 2 && slug == (if counter == 2 then base else Numbered(base, counter - 1))
      invariant counter > 2 ==> base in taken
      invariant forall m :: 2 <= m < counter - 1 ==> Numbered(base, m) in taken
      invariant untried <= taken && (slug in taken ==> slug in untried)
      invariant forall n :: n >= counter && Numbered(base, n) in taken ==> Numbered(base, n) in untried
      decreases untried
    {
      forall n: nat ensures Numbered(base, n) == slug ==> counter > 2 && n == counter - 1 {
        NumberedDistinct(base, n, if counter > 2 then counter - 1 else 0);
      }
      untried := untried - {slug};
      slug := Numbered(base, counter);
      counter := counter + 1;
    }
  }
}
