/** The parts of Go's integer arithmetic, `strconv` and `strings` that the modelled code relies on. */
module GoText {
  import opened Wrappers

  const MAX_INT64: int := 0x7FFF_FFFF_FFFF_FFFF
  const MIN_INT64: int := -0x8000_0000_0000_0000
  const TWO_64: int := 0x1_0000_0000_0000_0000

  predicate IsInt64(x: int) { MIN_INT64 <= x <= MAX_INT64 }

  /** What a 64-bit signed integer holds after arithmetic that would give `x`. */
  function Wrap64(x: int): (r: int)
    ensures IsInt64(r)
    ensures IsInt64(x) ==> r == x
  {
    (x - MIN_INT64) % TWO_64 + MIN_INT64
  }

  predicate IsDigit(c: char) { '0' <= c <= '9' }

  predicate AllDigits(s: string) { forall i :: 0 <= i < |s| ==> IsDigit(s[i]) }

  /** The number that a string of decimal digits denotes, leading zeros and all. */
  function DigitsValue(s: string): nat
    requires AllDigits(s)
  {
    if s == "" then 0
    else 10 * DigitsValue(s[..|s| - 1]) + (s[|s| - 1] as int - '0' as int)
  }

  /** strconv.Atoi: an optional sign, at least one digit, nothing else, and a value that fits. */
  function Atoi(s: string): (v: Option<int>)
    ensures v.Some? ==> IsInt64(v.value)
  {
    var signed := s != "" && (s[0] == '-' || s[0] == '+');
    var digits := if signed then s[1..] else s;
    if digits == "" || !AllDigits(digits) then None
    else
      var magnitude: int := DigitsValue(digits);
      var v := if s[0] == '-' then -magnitude else magnitude;
      if IsInt64(v) then Some(v) else None
  }

  /** strconv.Itoa of a natural number. */
  function Decimal(n: nat): string {
    if n < 10 then [('0' as int + n) as char] else Decimal(n / 10) + [('0' as int + n % 10) as char]
  }

  lemma AtoiOfDecimal(n: nat)
    ensures AllDigits(Decimal(n)) && Decimal(n) != "" && DigitsValue(Decimal(n)) == n
    ensures Atoi(Decimal(n)) == if n <= MAX_INT64 then Some(n) else None
  {
    DecimalDigits(n);
    assert IsDigit(Decimal(n)[0]);
  }

  lemma {:induction false} DecimalDigits(n: nat)
    ensures AllDigits(Decimal(n)) && Decimal(n) != "" && DigitsValue(Decimal(n)) == n
  {
    var last := ('0' as int + n % 10) as char;
    if n < 10 {
      assert "" + [last] == Decimal(n);
    } else {
      DecimalDigits(n / 10);
    }
  }

  function Pow10(n: nat): int {
    if n == 0 then 1 else 10 * Pow10(n - 1)
  }

  /** Place value: what stands left of `n` digits counts 10^n times. */
  lemma {:induction false} PlaceValue(a: string, b: string)
    requires AllDigits(a) && AllDigits(b)
    ensures AllDigits(a + b) && DigitsValue(a + b) == DigitsValue(a) * Pow10(|b|) + DigitsValue(b)
  {
    if b == "" {
      assert a + b == a;
    } else {
      var n := |b| - 1;
      assert (a + b)[..|a| + n] == a + b[..n];
      PlaceValue(a, b[..n]);
      Distribute(DigitsValue(a), Pow10(n));
    }
  }

  lemma Distribute(x: int, p: int)
    ensures x * (10 * p) == 10 * (x * p)
  {
  }

  /** Zeros on the left do not count. */
  lemma ZeroPadding(zeros: string, d: string)
    requires AllDigits(d) && forall i :: 0 <= i < |zeros| ==> zeros[i] == '0'
    ensures AllDigits(zeros + d) && DigitsValue(zeros + d) == DigitsValue(d)
  {
    PlaceValue(zeros, d);
    ZerosAreNothing(zeros);
  }

  lemma {:induction false} ZerosAreNothing(zeros: string)
    requires forall i :: 0 <= i < |zeros| ==> zeros[i] == '0'
    ensures AllDigits(zeros) && DigitsValue(zeros) == 0
  {
    if zeros != "" { ZerosAreNothing(zeros[..|zeros| - 1]); }
  }

  /** `s` is the digits `d`, signed or not, and stands for `v`. */
  predicate Numeral(s: string, d: string, v: int) {
    && d != "" && AllDigits(d) && IsInt64(v)
    && (((s == d || s == "+" + d) && v == DigitsValue(d)) || (s == "-" + d && v == 0 - DigitsValue(d)))
  }

  /** Exactly the numerals that fit are read. */
  lemma AtoiIff(s: string, v: int)
    ensures Atoi(s) == Some(v) <==> exists d :: Numeral(s, d, v)
  {
    if Atoi(s) == Some(v) {
      var d := if s[0] == '-' || s[0] == '+' then s[1..] else s;
      assert s == d || s == [s[0]] + d;
      assert Numeral(s, d, v);
    }
    if d :| Numeral(s, d, v) {
      assert IsDigit(d[0]);
      assert s != d ==> s[1..] == d;
    }
  }

  /** The index of the first `sep` in `s`, or |s|. */
  function IndexOf(s: string, sep: char): (i: nat)
    ensures i <= |s|
    ensures forall j :: 0 <= j < i ==> s[j] != sep
    ensures i < |s| ==> s[i] == sep
  {
    if s == "" || s[0] == sep then 0 else 1 + IndexOf(s[1..], sep)
  }

  /** strings.Cut around the first `sep`. */
  function Cut(s: string, sep: char): (string, string, bool) {
    var i := IndexOf(s, sep);
    if i < |s| then (s[..i], s[i + 1..], true) else (s, "", false)
  }

  /** strings.Split on a one-character separator; never empty. */
  function Split(s: string, sep: char): (parts: seq<string>)
    ensures parts != []
    decreases |s|
  {
    var i := IndexOf(s, sep);
    if i < |s| then [s[..i]] + Split(s[i + 1..], sep) else [s]
  }

  /** The parts with a separator between any two. */
  function Join(parts: seq<string>, sep: char): string
    requires parts != []
  {
    if |parts| == 1 then parts[0] else parts[0] + [sep] + Join(parts[1..], sep)
  }

  predicate Without(parts: seq<string>, sep: char) {
    forall i :: 0 <= i < |parts| ==> sep !in parts[i]
  }

  /** There is one way to join a text from parts without the separator, and that is the split. */
  lemma SplitIff(s: string, sep: char, parts: seq<string>)
    ensures Split(s, sep) == parts <==> parts != [] && Without(parts, sep) && Join(parts, sep) == s
  {
    SplitJoins(s, sep);
    if parts != [] && Without(parts, sep) { SplitOfJoined(parts, sep); }
  }

  lemma {:induction false} SplitJoins(s: string, sep: char)
    ensures Without(Split(s, sep), sep) && Join(Split(s, sep), sep) == s
    decreases |s|
  {
    var i := IndexOf(s, sep);
    if i < |s| {
      SplitJoins(s[i + 1..], sep);
      assert Split(s, sep)[1..] == Split(s[i + 1..], sep);
      assert s == s[..i] + [sep] + s[i + 1..];
    }
  }

  lemma {:induction false} SplitOfJoined(parts: seq<string>, sep: char)
    requires parts != [] && Without(parts, sep)
    ensures Split(Join(parts, sep), sep) == parts
  {
    if |parts| == 1 {
      assert IndexOf(parts[0], sep) == |parts[0]|;
    } else {
      SplitOfJoined(parts[1..], sep);
      FirstPart(parts[0], Join(parts[1..], sep), sep);
      assert parts == [parts[0]] + parts[1..];
    }
  }

  lemma FirstPart(part: string, rest: string, sep: char)
    requires sep !in part
    ensures Split(part + [sep] + rest, sep) == [part] + Split(rest, sep)
  {
    var s, n := part + [sep] + rest, |part|;
    assert s[..n] == part && s[n] == sep && s[n + 1..] == rest;
    assert forall j :: 0 <= j < n ==> s[j] == part[j];
    assert IndexOf(s, sep) == n;
  }

  /** unicode.IsSpace. */
  predicate IsSpace(c: char) {
    || c in "\t\n\r " || c == '\U{0B}' || c == '\U{0C}' || c == '\U{85}' || c == '\U{A0}'
    || c == '\U{1680}' || '\U{2000}' <= c <= '\U{200A}' || c == '\U{2028}' || c == '\U{2029}'
    || c == '\U{202F}' || c == '\U{205F}' || c == '\U{3000}'
  }

  /** The length of the longest prefix of `s` without (or with only) space. */
  function RunLength(s: string, space: bool): (n: nat)
    ensures n <= |s|
    ensures s != "" && IsSpace(s[0]) == space ==> n > 0
  {
    if s == "" || IsSpace(s[0]) != space then 0 else 1 + RunLength(s[1..], space)
  }

  /** strings.Fields: the maximal runs of non-space characters. */
  function Fields(s: string): seq<string>
    decreases |s|
  {
    if s == "" then []
    else if IsSpace(s[0]) then Fields(s[RunLength(s, true)..])
    else
      var n := RunLength(s, false);
      [s[..n]] + Fields(s[n..])
  }

  predicate IsBlank(s: string) { forall i :: 0 <= i < |s| ==> IsSpace(s[i]) }

  predicate IsWord(s: string) { s != "" && forall i :: 0 <= i < |s| ==> !IsSpace(s[i]) }

  /** Words with a gap before each and after the last; only the outer gaps may be empty. */
  predicate WellSpaced(words: seq<string>, gaps: seq<string>) {
    && |gaps| == |words| + 1
    && (forall i :: 0 <= i < |words| ==> IsWord(words[i]))
    && (forall i :: 0 <= i < |gaps| ==> IsBlank(gaps[i]))
    && (forall i :: 0 < i < |words| ==> gaps[i] != "")
  }

  function Lay(words: seq<string>, gaps: seq<string>): string
    requires |gaps| == |words| + 1
  {
    if words == [] then gaps[0] else gaps[0] + words[0] + Lay(words[1..], gaps[1..])
  }

  /** The fields of a text are the words that it is laid out of, in order. */
  lemma FieldsIff(s: string, words: seq<string>)
    ensures Fields(s) == words <==> exists gaps :: WellSpaced(words, gaps) && Lay(words, gaps) == s
  {
    var gaps := GapsOf(s);
    forall other | WellSpaced(words, other) && Lay(words, other) == s ensures Fields(s) == words {
      FieldsOfLaid(words, other);
    }
  }

  lemma {:induction false} FieldsOfLaid(words: seq<string>, gaps: seq<string>)
    requires WellSpaced(words, gaps)
    ensures Fields(Lay(words, gaps)) == words
    decreases |words|
  {
    if words == [] {
      FieldsAfterGap(gaps[0], "");
      assert gaps[0] + "" == gaps[0];
    } else {
      var rest := Lay(words[1..], gaps[1..]);
      FieldsOfLaid(words[1..], gaps[1..]);
      assert gaps[0] + words[0] + rest == gaps[0] + (words[0] + rest);
      FieldsAfterGap(gaps[0], words[0] + rest);
      assert rest == "" || IsSpace(rest[0]) by { if |words| == 1 { } else { assert gaps[1..][0] == gaps[1]; } }
      FieldsOfWord(words[0], rest);
      assert words == [words[0]] + words[1..];
    }
  }

  lemma {:induction false} FieldsAfterGap(gap: string, s: string)
    requires IsBlank(gap)
    ensures Fields(gap + s) == Fields(s)
  {
    if gap == "" {
      assert gap + s == s;
    } else {
      FieldsAfterGap(gap[1..], s);
      assert (gap + s)[1..] == gap[1..] + s;
      FieldsAfterSpace(gap + s);
    }
  }

  lemma FieldsAfterSpace(s: string)
    requires s != "" && IsSpace(s[0])
    ensures Fields(s) == Fields(s[1..])
  {
    var n := RunLength(s[1..], true);
    assert s[1..][n..] == s[n + 1..];
  }

  lemma FieldsOfWord(word: string, s: string)
    requires IsWord(word) && (s == "" || IsSpace(s[0]))
    ensures Fields(word + s) == [word] + Fields(s)
  {
    RunOfWord(word, s);
    assert (word + s)[..|word|] == word && (word + s)[|word|..] == s;
  }

  lemma {:induction false} RunOfWord(word: string, s: string)
    requires (forall i :: 0 <= i < |word| ==> !IsSpace(word[i])) && (s == "" || IsSpace(s[0]))
    ensures RunLength(word + s, false) == |word|
  {
    if word == "" {
      assert word + s == s;
    } else {
      assert (word + s)[1..] == word[1..] + s;
      RunOfWord(word[1..], s);
    }
  }

  lemma {:induction false} RunIs(s: string, space: bool)
    ensures forall i :: 0 <= i < RunLength(s, space) ==> IsSpace(s[i]) == space
    ensures RunLength(s, space) < |s| ==> IsSpace(s[RunLength(s, space)]) != space
  {
    if s != "" && IsSpace(s[0]) == space { RunIs(s[1..], space); }
  }

  /** `gaps` are those of `s`; a text that does not begin with space has no gap before its first word. */
  predicate AreGaps(s: string, gaps: seq<string>) {
    WellSpaced(Fields(s), gaps) && Lay(Fields(s), gaps) == s && (s == "" || !IsSpace(s[0]) ==> gaps[0] == "")
  }

  lemma {:induction false} GapsOf(s: string) returns (gaps: seq<string>)
    ensures AreGaps(s, gaps)
    decreases |s|
  {
    if s == "" {
      gaps := [""];
    } else {
      var n := RunLength(s, IsSpace(s[0]));
      var rest := GapsOf(s[n..]);
      if IsSpace(s[0]) {
        gaps := [s[..n]] + rest[1..];
        GapsAfterSpace(s, n, rest);
      } else {
        gaps := [""] + rest;
        GapsAfterWord(s, n, rest);
      }
    }
  }

  lemma GapsAfterSpace(s: string, n: nat, rest: seq<string>)
    requires s != "" && IsSpace(s[0]) && n == RunLength(s, true) && AreGaps(s[n..], rest)
    ensures AreGaps(s, [s[..n]] + rest[1..])
  {
    RunIs(s, true);
    LayWithGap(Fields(s[n..]), rest, s[..n]);
    assert s[..n] + s[n..] == s;
  }

  lemma GapsAfterWord(s: string, n: nat, rest: seq<string>)
    requires s != "" && !IsSpace(s[0]) && n == RunLength(s, false) && AreGaps(s[n..], rest)
    ensures AreGaps(s, [""] + rest)
  {
    RunIs(s, false);
    if Fields(s[n..]) != [] { BeginsWithWord(Fields(s[n..]), rest); }
    LayWithWord(Fields(s[n..]), rest, s[..n]);
    assert s[..n] + s[n..] == s;
  }

  lemma LayWithWord(words: seq<string>, gaps: seq<string>, word: string)
    requires WellSpaced(words, gaps) && IsWord(word) && (words != [] ==> gaps[0] != "")
    ensures WellSpaced([word] + words, [""] + gaps) && Lay([word] + words, [""] + gaps) == word + Lay(words, gaps)
  {
    assert ([word] + words)[1..] == words && ([""] + gaps)[1..] == gaps;
    assert "" + word == word;
  }

  lemma BeginsWithWord(words: seq<string>, gaps: seq<string>)
    requires WellSpaced(words, gaps) && words != []
    ensures Lay(words, gaps) != ""
    ensures gaps[0] == "" ==> !IsSpace(Lay(words, gaps)[0])
  {
    assert gaps[0] == "" ==> Lay(words, gaps)[0] == words[0][0];
  }

  lemma LayWithGap(words: seq<string>, gaps: seq<string>, gap: string)
    requires WellSpaced(words, gaps) && IsBlank(gap) && gaps[0] == ""
    ensures WellSpaced(words, [gap] + gaps[1..]) && Lay(words, [gap] + gaps[1..]) == gap + Lay(words, gaps)
  {
    var with := [gap] + gaps[1..];
    if words != [] {
      assert with[1..] == gaps[1..];
      assert gap + words[0] + Lay(words[1..], gaps[1..]) == gap + ("" + words[0] + Lay(words[1..], gaps[1..]));
    }
  }

  // ----- remainders of a variable divisor

  lemma MulMonotone(a: int, b: int, d: int)
    requires a <= b && d > 0
    ensures a * d <= b * d
  {
    assert 0 <= (b - a) * d;
  }

  lemma RemainderUnique(x: int, d: int, q: int, r: int)
    requires d > 0 && x == q * d + r && 0 <= r < d
    ensures x % d == r
  {
    var q', r' := x / d, x % d;
    assert x == q' * d + r';
    if q' < q {
      MulMonotone(q' + 1, q, d);
    } else if q < q' {
      MulMonotone(q + 1, q', d);
    }
  }
}
