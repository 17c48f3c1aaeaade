/** Character classes, decimal numerals, substring search and string order,
    as the two navigation scripts use them through Python's `re` module and
    string comparison. */
module Text {

  /** `\d` restricted to the ASCII digits. */
  predicate IsDigit(c: char) {
    '0' <= c <= '9'
  }

  /** The code-point ranges of the characters `str.isspace` accepts, which is what `\s`
      matches in a `str` pattern. */
  const SpaceRanges: seq<(char, char)> := [
    ('\t', '\r'), ('\U{1C}', ' '), ('\U{85}', '\U{85}'), ('\U{A0}', '\U{A0}'),
    ('\U{1680}', '\U{1680}'), ('\U{2000}', '\U{200A}'), ('\U{2028}', '\U{2029}'),
    ('\U{202F}', '\U{202F}'), ('\U{205F}', '\U{205F}'), ('\U{3000}', '\U{3000}')]

  predicate InRanges(c: char, rs: seq<(char, char)>) {
    |rs| > 0 && (rs[0].0 <= c <= rs[0].1 || InRanges(c, rs[1..]))
  }

  predicate IsSpace(c: char) {
    InRanges(c, SpaceRanges)
  }

  /** Below the first range nothing is a blank. */
  lemma {:induction false} BelowRanges(c: char, rs: seq<(char, char)>)
    requires forall i :: 0 <= i < |rs| ==> c < rs[i].0
    ensures !InRanges(c, rs)
  {
    if |rs| > 0 {
      BelowRanges(c, rs[1..]);
    }
  }

  lemma NewlineIsSpace()
    ensures IsSpace('\n')
  {
  }

  /** Printable ASCII after the blank is not a blank. */
  lemma AsciiNotSpace(c: char)
    requires '!' <= c <= '~'
    ensures !IsSpace(c)
  {
    var rs := SpaceRanges;
    BelowRanges(c, rs[2..]);
    assert rs[1..][1..] == rs[2..];
    assert !InRanges(c, rs[1..]);
  }


  function DigitValue(c: char): (v: nat)
    requires IsDigit(c)
    ensures v < 10
  {
    (c as int - '0' as int) as nat
  }

  function DigitChar(v: nat): (c: char)
    requires v < 10
    ensures IsDigit(c) && DigitValue(c) == v
  {
    ('0' as int + v) as char
  }

  predicate AllDigits(s: string) {
    forall i :: 0 <= i < |s| ==> IsDigit(s[i])
  }

  /** Number of digits at the start of `s` (the greedy `\d+` run, possibly empty). */
  function LeadingDigits(s: string): (n: nat)
    ensures n <= |s|
    ensures AllDigits(s[..n])
    ensures n < |s| ==> !IsDigit(s[n])
  {
    if |s| == 0 || !IsDigit(s[0]) then 0
    else
      var n := 1 + LeadingDigits(s[1..]);
      assert s[..n] == [s[0]] + s[1..][..n - 1];
      n
  }

  /** Value of a decimal numeral, as `int()` reads it. */
  function ParseNat(ds: string): nat
    requires AllDigits(ds)
  {
    if |ds| == 0 then 0 else 10 * ParseNat(ds[..|ds| - 1]) + DigitValue(ds[|ds| - 1])
  }

  /** Decimal numeral of `n` without leading zeros. */
  function NatToDigits(n: nat): (ds: string)
    ensures |ds| > 0 && AllDigits(ds)
  {
    if n < 10 then [DigitChar(n)] else NatToDigits(n / 10) + [DigitChar(n % 10)]
  }

  lemma {:induction false} ParseNatToDigits(n: nat)
    ensures ParseNat(NatToDigits(n)) == n
  {
    if n >= 10 {
      var ds := NatToDigits(n);
      assert ds[..|ds| - 1] == NatToDigits(n / 10);
      ParseNatToDigits(n / 10);
    }
  }

  /** Index of the first character at or after `from` that is not `\s` (the greedy `\s*` run). */
  function SkipSpaces(s: string, from: nat): (i: nat)
    requires from <= |s|
    ensures from <= i <= |s|
    decreases |s| - from
  {
    if from == |s| || !IsSpace(s[from]) then from else SkipSpaces(s, from + 1)
  }

  /** `SkipSpaces` passes only blanks and stops at a non-blank or at the end. */
  lemma {:induction false} SkipSpacesSpec(s: string, from: nat)
    requires from <= |s|
    ensures forall k :: from <= k < SkipSpaces(s, from) ==> IsSpace(s[k])
    ensures SkipSpaces(s, from) < |s| ==> !IsSpace(s[SkipSpaces(s, from)])
    decreases |s| - from
  {
    if from < |s| && IsSpace(s[from]) {
      SkipSpacesSpec(s, from + 1);
    }
  }

  /** `SkipSpaces` stops at the first non-blank: any index with that property is its result. */
  lemma {:induction false} SkipSpacesAt(s: string, from: nat, i: nat)
    requires from <= i <= |s|
    requires forall k :: from <= k < i ==> IsSpace(s[k])
    requires i < |s| ==> !IsSpace(s[i])
    ensures SkipSpaces(s, from) == i
    decreases i - from
  {
    if from < i {
      SkipSpacesAt(s, from + 1, i);
    }
  }

  /** `sub` occurs in `s` starting at index `i`. */
  predicate OccursAt(s: string, sub: string, i: nat) {
    i + |sub| <= |s| && s[i..i + |sub|] == sub
  }

  /** Python's `sub in s`. */
  predicate Contains(s: string, sub: string) {
    exists i: nat :: i <= |s| && OccursAt(s, sub, i)
  }

  /** First index at or after `from` where `c` stands. */
  function IndexOfChar(s: string, c: char, from: nat): (r: Option<nat>)
    ensures r.Some? ==> from <= r.value < |s| && s[r.value] == c
    decreases |s| - from
  {
    if from >= |s| then None
    else if s[from] == c then Some(from)
    else IndexOfChar(s, c, from + 1)
  }

  /** `IndexOfChar` finds the first occurrence, and finds nothing only when there is none. */
  lemma {:induction false} IndexOfCharSpec(s: string, c: char, from: nat)
    ensures IndexOfChar(s, c, from).Some? ==> forall k :: from <= k < IndexOfChar(s, c, from).value ==> s[k] != c
    ensures IndexOfChar(s, c, from).None? ==> forall k :: from <= k < |s| ==> s[k] != c
    decreases |s| - from
  {
    if from < |s| && s[from] != c {
      IndexOfCharSpec(s, c, from + 1);
    }
  }

  /** Any first occurrence of `c` at or after `from` is what `IndexOfChar` returns. */
  lemma {:induction false} IndexOfCharIs(s: string, c: char, from: nat, i: nat)
    requires from <= i < |s| && s[i] == c
    requires forall k :: from <= k < i ==> s[k] != c
    ensures IndexOfChar(s, c, from) == Some(i)
    decreases i - from
  {
    if from < i {
      IndexOfCharIs(s, c, from + 1, i);
    }
  }

  /** First index at or after `from` where `sub` occurs. */
  function IndexOf(s: string, sub: string, from: nat): (r: Option<nat>)
    ensures r.Some? ==> from <= r.value && OccursAt(s, sub, r.value)
    decreases |s| - from
  {
    if from + |sub| > |s| then None
    else if s[from..from + |sub|] == sub then Some(from)
    else IndexOf(s, sub, from + 1)
  }

  /** `IndexOf` finds the first occurrence, and finds nothing only when there is none. */
  lemma {:induction false} IndexOfSpec(s: string, sub: string, from: nat)
    ensures IndexOf(s, sub, from).Some? ==> forall k :: from <= k < IndexOf(s, sub, from).value ==> !OccursAt(s, sub, k)
    ensures IndexOf(s, sub, from).None? ==> forall k :: from <= k ==> !OccursAt(s, sub, k)
    decreases |s| - from
  {
    if from + |sub| <= |s| && s[from..from + |sub|] != sub {
      IndexOfSpec(s, sub, from + 1);
    }
  }

  /** Any first occurrence of `sub` at or after `from` is what `IndexOf` returns. */
  lemma {:induction false} IndexOfIs(s: string, sub: string, from: nat, i: nat)
    requires from <= i && OccursAt(s, sub, i)
    requires forall k :: from <= k < i ==> !OccursAt(s, sub, k)
    ensures IndexOf(s, sub, from) == Some(i)
    decreases i - from
  {
    if from < i {
      assert !OccursAt(s, sub, from);
      IndexOfIs(s, sub, from + 1, i);
    }
  }

  /** Python's `a < b` on strings: lexicographic by code point, a proper prefix first. */
  predicate LexLess(a: string, b: string) {
    if |a| == 0 then |b| > 0
    else if |b| == 0 then false
    else if a[0] != b[0] then a[0] < b[0]
    else LexLess(a[1..], b[1..])
  }

  lemma {:induction false} LexLessIrreflexive(a: string)
    ensures !LexLess(a, a)
  {
    if |a| > 0 {
      LexLessIrreflexive(a[1..]);
    }
  }

  lemma {:induction false} LexLessTransitive(a: string, b: string, c: string)
    requires LexLess(a, b) && LexLess(b, c)
    ensures LexLess(a, c)
  {
    if |a| > 0 && |b| > 0 && |c| > 0 && a[0] == b[0] == c[0] {
      LexLessTransitive(a[1..], b[1..], c[1..]);
    }
  }

  lemma {:induction false} LexLessTotal(a: string, b: string)
    requires a != b
    ensures LexLess(a, b) || LexLess(b, a)
  {
    if |a| > 0 && |b| > 0 && a[0] == b[0] {
      assert a == [a[0]] + a[1..] && b == [b[0]] + b[1..];
      LexLessTotal(a[1..], b[1..]);
    }
  }

  /** ASCII lower-casing: the only case folding that can match the letters of `</html>`. */
  function Lower(c: char): (l: char)
    ensures c != l ==> 'A' <= c <= 'Z'
  {
    if 'A' <= c <= 'Z' then (c as int + 32) as char else c
  }

  /** `t` with every ASCII capital replaced by its small letter. */
  function LowerAll(t: string): (r: string)
    ensures |r| == |t| && forall k :: 0 <= k < |t| ==> r[k] == Lower(t[k])
  {
    seq(|t|, k requires 0 <= k < |t| => Lower(t[k]))
  }

  /** `pat` (written in lower case) matches `s` at `i`, ignoring case. */
  predicate CiOccursAt(s: string, pat: string, i: nat) {
    i + |pat| <= |s| && LowerAll(s[i..i + |pat|]) == pat
  }

  datatype Option<+T> = None | Some(value: T)
}
