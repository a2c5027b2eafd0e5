/** The Go string operations the cron parser calls: strings.Fields, strings.Split and strconv.Atoi. */
module GoStrings {
  import opened Common

  // ---------------------------------------------------------------- strings.Fields

  /** unicode.IsSpace. */
  predicate IsSpace(c: char) {
    || c in ['\t', '\n', '\U{0B}', '\U{0C}', '\r', ' ', '\U{85}', '\U{A0}', '\U{1680}']
    || '\U{2000}' <= c <= '\U{200A}'
    || c in ['\U{2028}', '\U{2029}', '\U{202F}', '\U{205F}', '\U{3000}']
  }

  /** strings.Fields: the maximal runs of non-space characters. */
  function Fields(s: string): seq<string> {
    if s == [] then []
    else if IsSpace(s[0]) then Fields(s[1..])
    else
      var n := WordLength(s);
      [s[..n]] + Fields(s[n..])
  }

  function WordLength(s: string): (n: nat)
    ensures n <= |s|
    ensures s != [] && !IsSpace(s[0]) ==> n > 0
  {
    if s == [] || IsSpace(s[0]) then 0 else 1 + WordLength(s[1..])
  }

  predicate IsWord(w: string) {
    w != "" && forall c :: c in w ==> !IsSpace(c)
  }

  lemma {:induction false} WordLengthOf(w: string, rest: string)
    requires forall c :: c in w ==> !IsSpace(c)
    requires rest == "" || IsSpace(rest[0])
    ensures WordLength(w + rest) == |w|
  {
    if w == "" {
      assert w + rest == rest;
    } else {
      assert (w + rest)[0] == w[0] && (w + rest)[1..] == w[1..] + rest;
      WordLengthOf(w[1..], rest);
    }
  }

  lemma FieldsOfWord(w: string, rest: string)
    requires IsWord(w) && (rest == "" || IsSpace(rest[0]))
    ensures Fields(w + rest) == [w] + Fields(rest)
  {
    var s := w + rest;
    WordLengthOf(w, rest);
    assert w[0] in w && s[0] == w[0];
    assert s[..|w|] == w && s[|w|..] == rest;
  }

  predicate IsGap(g: string) {
    forall c :: c in g ==> IsSpace(c)
  }

  /** White space before, between and after `n` words; that between them is not empty. */
  ghost predicate SpaceAround(gaps: seq<string>, n: nat) {
    |gaps| == n + 1 && forall i :: 0 <= i < |gaps| ==> IsGap(gaps[i]) && (0 < i < n ==> gaps[i] != "")
  }

  ghost predicate GapsFor(gaps: seq<string>, words: seq<string>) {
    SpaceAround(gaps, |words|) && forall i :: 0 <= i < |words| ==> IsWord(words[i])
  }

  /** The words with the gaps around them. */
  function Spaced(gaps: seq<string>, words: seq<string>): string
    requires |gaps| == |words| + 1
  {
    if words == [] then gaps[0] else gaps[0] + (words[0] + Spaced(gaps[1..], words[1..]))
  }

  lemma {:induction false} FieldsOfGap(g: string, rest: string)
    requires IsGap(g)
    ensures Fields(g + rest) == Fields(rest)
  {
    if g == "" {
      assert g + rest == rest;
    } else {
      assert g[0] in g;
      assert (g + rest)[0] == g[0] && (g + rest)[1..] == g[1..] + rest;
      FieldsOfGap(g[1..], rest);
    }
  }

  /** strings.Fields finds the words of any text that is words with white space around them. */
  lemma {:induction false} FieldsOfSpaced(gaps: seq<string>, words: seq<string>)
    requires GapsFor(gaps, words)
    ensures Fields(Spaced(gaps, words)) == words
  {
    assert IsGap(gaps[0]);
    if words == [] {
      assert gaps[0] + "" == gaps[0];
      FieldsOfGap(gaps[0], "");
    } else {
      var rest := Spaced(gaps[1..], words[1..]);
      FieldsOfGap(gaps[0], words[0] + rest);
      assert IsGap(gaps[1]) && gaps[1..][0] == gaps[1];
      assert gaps[1] != "" ==> gaps[1][0] in gaps[1];
      if |words| > 1 {
        assert rest == gaps[1] + (words[1..][0] + Spaced(gaps[1..][1..], words[1..][1..]));
      }
      assert rest == "" || IsSpace(rest[0]);
      FieldsOfWord(words[0], rest);
      FieldsOfSpaced(gaps[1..], words[1..]);
      assert words == [words[0]] + words[1..];
    }
  }

  lemma WidenGap(c: char, gaps: seq<string>, words: seq<string>)
    requires GapsFor(gaps, words) && IsSpace(c)
    ensures var wider := [[c] + gaps[0]] + gaps[1..];
            GapsFor(wider, words) && Spaced(wider, words) == [c] + Spaced(gaps, words)
  {
    var wider := [[c] + gaps[0]] + gaps[1..];
    assert IsGap(gaps[0]) && wider[1..] == gaps[1..];
    if words != [] {
      Assoc([c], gaps[0], words[0] + Spaced(gaps[1..], words[1..]));
    }
  }

  lemma AddWord(w: string, gaps: seq<string>, words: seq<string>)
    requires GapsFor(gaps, words) && IsWord(w) && (words != [] ==> gaps[0] != "")
    ensures GapsFor([""] + gaps, [w] + words)
    ensures Spaced([""] + gaps, [w] + words) == w + Spaced(gaps, words)
  {
    var more, all := [""] + gaps, [w] + words;
    assert more[1..] == gaps && all[1..] == words;
    assert "" + (w + Spaced(gaps, words)) == w + Spaced(gaps, words);
  }

  lemma {:induction false} WordIsMaximal(s: string)
    ensures forall c :: c in s[..WordLength(s)] ==> !IsSpace(c)
    ensures WordLength(s) < |s| ==> IsSpace(s[WordLength(s)])
  {
    if s != "" && !IsSpace(s[0]) {
      WordIsMaximal(s[1..]);
      assert s[..WordLength(s)] == [s[0]] + s[1..][..WordLength(s[1..])];
    }
  }

  /** `s` is the words with the gaps around them; it starts with white space only if the first gap does. */
  ghost predicate Separates(gaps: seq<string>, words: seq<string>, s: string) {
    && GapsFor(gaps, words)
    && Spaced(gaps, words) == s
    && (s != "" && IsSpace(s[0]) ==> gaps[0] != "")
  }

  lemma SpaceStep(c: char, rest: string, gaps: seq<string>, words: seq<string>)
    requires IsSpace(c) && Separates(gaps, words, rest)
    ensures Separates([[c] + gaps[0]] + gaps[1..], words, [c] + rest)
  {
    WidenGap(c, gaps, words);
  }

  lemma WordStep(word: string, rest: string, gaps: seq<string>, words: seq<string>)
    requires IsWord(word) && Separates(gaps, words, rest)
    requires if rest == "" then words == [] else IsSpace(rest[0])
    ensures Separates([""] + gaps, [word] + words, word + rest)
  {
    AddWord(word, gaps, words);
    assert word[0] in word && (word + rest)[0] == word[0];
  }

  lemma FirstWord(s: string)
    requires s != "" && !IsSpace(s[0])
    ensures var n := WordLength(s); 0 < n <= |s| && IsWord(s[..n]) && (n < |s| ==> IsSpace(s[n]))
    ensures Fields(s) == [s[..WordLength(s)]] + Fields(s[WordLength(s)..])
  {
    WordIsMaximal(s);
  }

  lemma SpaceCase(s: string, gaps: seq<string>)
    requires s != "" && IsSpace(s[0]) && Separates(gaps, Fields(s[1..]), s[1..])
    ensures Separates([[s[0]] + gaps[0]] + gaps[1..], Fields(s), s)
  {
    SpaceStep(s[0], s[1..], gaps, Fields(s[1..]));
    assert s == [s[0]] + s[1..];
  }

  lemma WordCase(s: string, word: string, rest: string, gaps: seq<string>, words: seq<string>)
    requires s == word + rest && IsWord(word) && Separates(gaps, words, rest)
    requires if rest == "" then words == [] else IsSpace(rest[0])
    ensures Separates([""] + gaps, [word] + words, s)
  {
    WordStep(word, rest, gaps, words);
  }

  /** Every text is its fields with white space around them. */
  lemma {:induction false} SpacedFields(s: string) returns (gaps: seq<string>)
    ensures Separates(gaps, Fields(s), s)
    decreases |s|
  {
    if s == "" {
      gaps := [""];
    } else if IsSpace(s[0]) {
      gaps := SpacedFields(s[1..]);
      SpaceCase(s, gaps);
      gaps := [[s[0]] + gaps[0]] + gaps[1..];
    } else {
      FirstWord(s);
      var word, rest := s[..WordLength(s)], s[WordLength(s)..];
      gaps := SpacedFields(rest);
      assert s == word + rest;
      WordCase(s, word, rest, gaps, Fields(rest));
      gaps := [""] + gaps;
    }
  }

  function JoinSpaces(words: seq<string>): string {
    if words == [] then ""
    else if |words| == 1 then words[0]
    else words[0] + " " + JoinSpaces(words[1..])
  }

  lemma FieldsOfNext(w: string, rest: string)
    requires IsWord(w)
    ensures Fields(w + " " + rest) == [w] + Fields(rest)
  {
    Assoc(w, " ", rest);
    FieldsOfWord(w, " " + rest);
    FieldsOfGap(" ", rest);
  }

  lemma FieldsOfLast(w: string)
    requires IsWord(w)
    ensures Fields(w) == [w]
  {
    FieldsOfWord(w, "");
    assert w + "" == w;
  }

  /** An expression as it is usually written: one space between its fields. */
  lemma {:induction false} FieldsOfJoin(words: seq<string>)
    requires forall i :: 0 <= i < |words| ==> IsWord(words[i])
    ensures Fields(JoinSpaces(words)) == words
  {
    if |words| == 1 {
      FieldsOfLast(words[0]);
      assert words == [words[0]];
    } else if |words| > 1 {
      FieldsOfNext(words[0], JoinSpaces(words[1..]));
      FieldsOfJoin(words[1..]);
      assert words == [words[0]] + words[1..];
    }
  }

  // ---------------------------------------------------------------- strings.Split

  /** strings.Split for a one-character separator: always at least one part. */
  function Split(s: string, sep: char): (parts: seq<string>)
    ensures |parts| >= 1
  {
    var i := IndexOf(s, sep);
    if i == |s| then [s] else [s[..i]] + Split(s[i + 1..], sep)
  }

  function Join(parts: seq<string>, sep: char): string {
    if parts == [] then ""
    else if |parts| == 1 then parts[0]
    else parts[0] + [sep] + Join(parts[1..], sep)
  }

  lemma IndexOfSep(s: string, c: char, rest: string)
    requires c !in s
    ensures IndexOf(s + [c] + rest, c) == |s|
    ensures IndexOf(s, c) == |s|
  {
    var t := s + [c] + rest;
    assert t[|s|] == c && t[..|s|] == s;
    IndexOfIs(t, c, |s|);
  }

  /** Splitting at a separator undoes joining parts that do not contain it. */
  lemma {:induction false} SplitOfJoin(parts: seq<string>, sep: char)
    requires parts != [] && forall p :: p in parts ==> sep !in p
    ensures Split(Join(parts, sep), sep) == parts
  {
    assert parts[0] in parts;
    if |parts| == 1 {
      IndexOfSep(parts[0], sep, "");
      assert parts == [parts[0]];
    } else {
      var rest := Join(parts[1..], sep);
      var s := parts[0] + [sep] + rest;
      IndexOfSep(parts[0], sep, rest);
      SplitOfJoin(parts[1..], sep);
      assert s[..|parts[0]|] == parts[0] && s[|parts[0]| + 1..] == rest;
      assert parts == [parts[0]] + parts[1..];
    }
  }

  // ---------------------------------------------------------------- strconv.Atoi

  predicate IsDigit(c: char) { '0' <= c <= '9' }

  predicate IsDigits(s: string) {
    s != "" && forall c :: c in s ==> IsDigit(c)
  }

  function DigitsValue(s: string): nat
    requires forall c :: c in s ==> IsDigit(c)
  {
    if s == "" then 0
    else
      assert s[|s| - 1] in s && IsDigit(s[|s| - 1]);
      10 * DigitsValue(s[..|s| - 1]) + (s[|s| - 1] as int - '0' as int)
  }

  /** strconv.Atoi: an optional sign, decimal digits, and a 64-bit range check. */
  function Atoi(s: string): (r: Option<int>)
    ensures r.Some? ==> -0x8000_0000_0000_0000 <= r.value < 0x8000_0000_0000_0000
  {
    if s == "" then None
    else if s[0] == '-' then
      if IsDigits(s[1..]) && DigitsValue(s[1..]) <= 0x8000_0000_0000_0000
      then Some(-(DigitsValue(s[1..]) as int)) else None
    else
      var digits := if s[0] == '+' then s[1..] else s;
      if IsDigits(digits) && DigitsValue(digits) < 0x8000_0000_0000_0000
      then Some(DigitsValue(digits)) else None
  }

  /** Decimal notation of a natural number. */
  function Itoa(n: nat): (s: string)
    ensures IsDigits(s)
  {
    if n < 10 then [('0' as int + n) as char] else Itoa(n / 10) + [('0' as int + n % 10) as char]
  }

  predicate IsZeros(z: string) {
    forall c :: c in z ==> c == '0'
  }

  lemma {:induction false} DigitsValueOfZeros(z: string)
    requires IsZeros(z)
    ensures DigitsValue(z) == 0
  {
    if z != "" {
      var front := z[..|z| - 1];
      assert z[|z| - 1] in z;
      forall c | c in front ensures c == '0' {
        assert c in z;
      }
      DigitsValueOfZeros(front);
    }
  }

  lemma {:induction false} DigitsValueOfItoa(z: string, n: nat)
    requires IsZeros(z)
    ensures DigitsValue(z + Itoa(n)) == n
  {
    var s := z + Itoa(n);
    if n < 10 {
      assert s[..|s| - 1] == z;
      DigitsValueOfZeros(z);
    } else {
      DigitsValueOfItoa(z, n / 10);
      assert s[..|s| - 1] == z + Itoa(n / 10);
    }
  }

  datatype Sign = NoSign | PlusSign | MinusSign

  function ShowSign(sign: Sign): string {
    match sign case NoSign => "" case PlusSign => "+" case MinusSign => "-"
  }

  function Signed(sign: Sign, n: nat): int {
    if sign == MinusSign then -(n as int) else n
  }

  function InRange(n: int): Option<int> {
    if -0x8000_0000_0000_0000 <= n < 0x8000_0000_0000_0000 then Some(n) else None
  }

  lemma AtoiOfDigits(sign: Sign, digits: string)
    requires IsDigits(digits)
    ensures Atoi(ShowSign(sign) + digits) == InRange(Signed(sign, DigitsValue(digits)))
  {
    var s := ShowSign(sign) + digits;
    assert digits[0] in digits;
    if sign == NoSign {
      assert s == digits;
    } else {
      assert s[1..] == digits;
    }
  }

  /** A decimal numeral, with or without a sign and leading zeros, parses to its value, if a 64-bit
      int holds that. */
  lemma AtoiOfNumeral(sign: Sign, z: string, n: nat)
    requires IsZeros(z)
    ensures Atoi(ShowSign(sign) + z + Itoa(n)) == InRange(Signed(sign, n))
  {
    DigitsValueOfItoa(z, n);
    AtoiOfDigits(sign, z + Itoa(n));
    Assoc(ShowSign(sign), z, Itoa(n));
  }

  /** `s` writes a number: an optional sign, then zeros, then the number's digits. */
  ghost predicate IsNumeral(s: string) {
    exists sign, z, n :: WritesNumber(s, sign, z, n)
  }

  ghost predicate WritesNumber(s: string, sign: Sign, z: string, n: nat) {
    IsZeros(z) && s == ShowSign(sign) + z + Itoa(n)
  }

  lemma UnparsedIfNotNumeral(s: string)
    requires !IsNumeral(s)
    ensures Atoi(s).None?
  {
    if Atoi(s).Some? {
      var sign, z, n := AtoiOnlyNumerals(s);
      assert WritesNumber(s, sign, z, n);
    }
  }

  /** After its first character a numeral has digits only. */
  lemma NumeralDigits(s: string, k: nat)
    requires IsNumeral(s) && 0 < k < |s|
    ensures IsDigit(s[k])
  {
    var sign, z, n :| WritesNumber(s, sign, z, n);
    var digits := z + Itoa(n);
    Assoc(ShowSign(sign), z, Itoa(n));
    assert s == ShowSign(sign) + digits;
    assert s[k] == digits[k - |ShowSign(sign)|];
    assert digits[k - |ShowSign(sign)|] in digits;
  }

  lemma {:induction false} DigitsAreNumeral(digits: string) returns (z: string)
    requires IsDigits(digits)
    ensures IsZeros(z) && digits == z + Itoa(DigitsValue(digits))
  {
    var n := |digits| - 1;
    var front, last := digits[..n], digits[n];
    assert last in digits && digits == front + [last];
    if DigitsValue(front) == 0 {
      z := front;
      ZeroMeansZeros(front);
    } else {
      z := DigitsAreNumeral(front);
      assert digits == z + (Itoa(DigitsValue(front)) + [last]);
    }
  }

  lemma {:induction false} ZeroMeansZeros(s: string)
    requires forall c :: c in s ==> IsDigit(c)
    requires DigitsValue(s) == 0
    ensures IsZeros(s)
  {
    if s != "" {
      var front, last := s[..|s| - 1], s[|s| - 1];
      assert last in s && IsDigit(last) && DigitsValue(s) == 10 * DigitsValue(front) + (last as int - '0' as int);
      ZeroMeansZeros(front);
      assert s == front + [last];
    }
  }

  /** Nothing but such numerals parses. */
  lemma AtoiOnlyNumerals(s: string) returns (sign: Sign, z: string, n: nat)
    requires Atoi(s).Some?
    ensures IsZeros(z) && s == ShowSign(sign) + z + Itoa(n) && Atoi(s) == Some(Signed(sign, n))
  {
    sign := if s[0] == '-' then MinusSign else if s[0] == '+' then PlusSign else NoSign;
    var digits := if sign == NoSign then s else s[1..];
    z := DigitsAreNumeral(digits);
    n := DigitsValue(digits);
    assert s == ShowSign(sign) + digits;
  }

  /** Parsing undoes printing, for every number a Go int holds. */
  lemma AtoiOfItoa(n: nat)
    requires n < 0x8000_0000_0000_0000
    ensures Atoi(Itoa(n)) == Some(n)
  {
    AtoiOfNumeral(NoSign, "", n);
    assert ShowSign(NoSign) + "" + Itoa(n) == Itoa(n);
  }
}
