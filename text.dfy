/**
 * The parts of .NET's character and string behaviour that the validator and the
 * service rely on: `char.IsWhiteSpace`, `char.IsLetter`, `string.IsNullOrWhiteSpace`,
 * `string.Trim`, `StringComparison.OrdinalIgnoreCase`, anchored regular expressions
 * of the form `^[class]+$`, `string.Join` and the decimal formatting of a count.
 */
module Text {
  import opened Wrappers

  /**
   * `char.IsWhiteSpace`: the Unicode space, line and paragraph separators and the
   * control characters U+0009..U+000D and U+0085. The regular-expression class `\s`
   * and `string.Trim` use the same set.
   */
  predicate IsWhiteSpace(c: char): (w: bool)
    ensures c < '\U{80}' ==> (w <==> c == ' ' || '\t' <= c <= '\r')
    ensures w ==> !IsAsciiLetter(c) && !('0' <= c <= '9')
  {
    || c == ' '
    || ('\t' <= c <= '\r')
    || c == '\U{85}' || c == '\U{A0}' || c == '\U{1680}'
    || ('\U{2000}' <= c <= '\U{200A}')
    || c == '\U{2028}' || c == '\U{2029}' || c == '\U{202F}' || c == '\U{205F}' || c == '\U{3000}'
  }

  /** The regular-expression class `[A-Za-z]`. */
  predicate IsAsciiLetter(c: char) {
    ('A' <= c <= 'Z') || ('a' <= c <= 'z')
  }

  /**
   * `char.IsLetter`, exact for the characters up to U+00FF (ASCII letters and the
   * Latin-1 letters); every character above U+00FF counts as a non-letter here.
   */
  predicate IsLetter(c: char): (l: bool)
    ensures c < '\U{80}' ==> (l <==> IsAsciiLetter(c))
    ensures l ==> !IsWhiteSpace(c) && !('0' <= c <= '9')
  {
    || IsAsciiLetter(c)
    || c == '\U{AA}' || c == '\U{B5}' || c == '\U{BA}'
    || ('\U{C0}' <= c <= '\U{D6}') || ('\U{D8}' <= c <= '\U{F6}') || ('\U{F8}' <= c <= '\U{FF}')
  }

  /** Whether every character of `s` is white space (true of the empty string). */
  predicate IsBlank(s: string) {
    forall i :: 0 <= i < |s| ==> IsWhiteSpace(s[i])
  }

  /** `string.IsNullOrWhiteSpace`. */
  predicate IsNullOrWhiteSpace(s: Option<string>) {
    s.None? || IsBlank(s.value)
  }

  /** `s` without its trailing white space. */
  function TrimEnd(s: string): (r: string)
    ensures |r| <= |s| && r == s[..|r|]
    ensures IsBlank(s[|r|..])
    ensures r == [] || !IsWhiteSpace(r[|r| - 1])
    decreases |s|
  {
    if |s| > 0 && IsWhiteSpace(s[|s| - 1]) then
      var init := s[..|s| - 1];
      var r := TrimEnd(init);
      assert r == s[..|r|];
      assert forall i :: |r| <= i < |s| - 1 ==> s[i] == init[i] && IsWhiteSpace(init[i]);
      assert IsBlank(s[|r|..]);
      r
    else s
  }

  /** `string.Trim`: `s` without its leading and trailing white space. */
  function Trim(s: string): (r: string)
    ensures |r| <= |s|
    ensures r == [] || (!IsWhiteSpace(r[0]) && !IsWhiteSpace(r[|r| - 1]))
    decreases |s|
  {
    if |s| > 0 && IsWhiteSpace(s[0]) then Trim(s[1..])
    else
      var r := TrimEnd(s);
      assert r != [] ==> r[0] == s[0];
      r
  }

  /** Whether `r` occurs in `s` at offset `a` with only white space before and after it. */
  predicate SitsBetweenBlanks(s: string, r: string, a: int) {
    && 0 <= a <= |s| - |r|
    && (forall i :: 0 <= i < |r| ==> s[a + i] == r[i])
    && (forall i :: 0 <= i < a ==> IsWhiteSpace(s[i]))
    && (forall i :: a + |r| <= i < |s| ==> IsWhiteSpace(s[i]))
  }

  /** Trimming removes only white space: what it keeps sits between two blank ends of `s`. */
  lemma {:induction false} TrimKeepsMiddle(s: string)
    ensures exists a :: SitsBetweenBlanks(s, Trim(s), a)
    decreases |s|
  {
    var r := Trim(s);
    if |s| > 0 && IsWhiteSpace(s[0]) {
      var t := s[1..];
      TrimKeepsMiddle(t);
      assert Trim(t) == r;
      var b :| SitsBetweenBlanks(t, r, b);
      assert forall i :: 0 <= i < |t| ==> t[i] == s[i + 1];
      assert SitsBetweenBlanks(s, r, b + 1);
    } else {
      assert r == TrimEnd(s);
      assert forall i :: 0 <= i < |r| ==> s[i] == r[i];
      assert forall i :: |r| <= i < |s| ==> s[i] == s[|r|..][i - |r|];
      assert SitsBetweenBlanks(s, r, 0);
    }
  }

  /** A string is its own trim exactly when it is empty or neither starts nor ends with white space. */
  lemma TrimFixedPoints(s: string)
    ensures Trim(s) == s <==> s == [] || (!IsWhiteSpace(s[0]) && !IsWhiteSpace(s[|s| - 1]))
  {
    if s != [] && !IsWhiteSpace(s[0]) && !IsWhiteSpace(s[|s| - 1]) {
      assert Trim(s) == TrimEnd(s);
    }
  }

  /** Trimming twice trims no more than trimming once. */
  lemma TrimIdempotent(s: string)
    ensures Trim(Trim(s)) == Trim(s)
  {
    var r := Trim(s);
    if r != [] {
      assert Trim(r) == TrimEnd(r);
      assert TrimEnd(r) == r;
    }
  }

  /** The upper-case form of `c` under ordinal case-insensitive comparison (ASCII letters only). */
  function ToUpperInvariant(c: char): (u: char)
    ensures IsAsciiLetter(c) ==> 'A' <= u <= 'Z' && (u == c || u as int + 32 == c as int)
    ensures !IsAsciiLetter(c) ==> u == c
  {
    if 'a' <= c <= 'z' then (c as int - 32) as char else c
  }

  /** `s` with every character upper-cased as ordinal case-insensitive comparison does it. */
  function UpperInvariant(s: string): (u: string)
    ensures |u| == |s|
  {
    seq(|s|, i requires 0 <= i < |s| => ToUpperInvariant(s[i]))
  }

  /**
   * `string.Equals(a, b, StringComparison.OrdinalIgnoreCase)` on two non-null strings:
   * equal once both are upper-cased.
   */
  predicate EqualsIgnoreCase(a: string, b: string): (eq: bool)
    ensures a == b ==> eq
    ensures eq ==> |a| == |b|
  {
    UpperInvariant(a) == UpperInvariant(b)
  }

  /** Ordinal case-insensitive equality compares the strings character by character. */
  lemma EqualsIgnoreCaseCharwise(a: string, b: string)
    ensures EqualsIgnoreCase(a, b) <==>
              |a| == |b| && forall i :: 0 <= i < |a| ==> ToUpperInvariant(a[i]) == ToUpperInvariant(b[i])
  {
    if |a| == |b| && forall i :: 0 <= i < |a| ==> ToUpperInvariant(a[i]) == ToUpperInvariant(b[i]) {
      assert forall i :: 0 <= i < |a| ==> UpperInvariant(a)[i] == UpperInvariant(b)[i];
    }
    if EqualsIgnoreCase(a, b) {
      assert forall i :: 0 <= i < |a| ==> UpperInvariant(a)[i] == ToUpperInvariant(a[i]);
    }
  }

  /** `string.Equals(a, b, StringComparison.OrdinalIgnoreCase)` when either side may be null. */
  predicate EqualsIgnoreCaseOrNull(a: Option<string>, b: Option<string>) {
    (a.None? && b.None?) || (a.Some? && b.Some? && EqualsIgnoreCase(a.value, b.value))
  }

  /** With null allowed on either side, the comparison is still an equivalence: null equals only null. */
  lemma EqualsIgnoreCaseOrNullIsEquivalence(a: Option<string>, b: Option<string>, c: Option<string>)
    ensures EqualsIgnoreCaseOrNull(a, a)
    ensures EqualsIgnoreCaseOrNull(a, b) ==> EqualsIgnoreCaseOrNull(b, a)
    ensures EqualsIgnoreCaseOrNull(a, b) && EqualsIgnoreCaseOrNull(b, c) ==> EqualsIgnoreCaseOrNull(a, c)
    ensures EqualsIgnoreCaseOrNull(a, b) ==> (a.None? <==> b.None?)
  {
    if a.Some? && b.Some? && c.Some? {
      EqualsIgnoreCaseIsEquivalence(a.value, b.value, c.value);
    } else if a.Some? && b.Some? {
      EqualsIgnoreCaseIsEquivalence(a.value, b.value, b.value);
    } else if a.Some? {
      EqualsIgnoreCaseIsEquivalence(a.value, a.value, a.value);
    }
  }

  /** Ordinal case-insensitive equality is an equivalence relation. */
  lemma EqualsIgnoreCaseIsEquivalence(a: string, b: string, c: string)
    ensures EqualsIgnoreCase(a, a)
    ensures EqualsIgnoreCase(a, b) ==> EqualsIgnoreCase(b, a)
    ensures EqualsIgnoreCase(a, b) && EqualsIgnoreCase(b, c) ==> EqualsIgnoreCase(a, c)
  {
  }

  /** Whether `s` is non-empty and every character of it is in `cls`. */
  predicate AllIn(s: string, cls: char -> bool) {
    |s| > 0 && forall i :: 0 <= i < |s| ==> cls(s[i])
  }

  /**
   * `Regex.IsMatch(s, "^[cls]+$")` with default options: `$` matches at the end of
   * the input and also just before a final line feed, so a run of class characters
   * followed by one '\n' matches as well.
   */
  predicate MatchesAnchoredRun(s: string, cls: char -> bool): (m: bool)
    ensures AllIn(s, cls) ==> m
    ensures m ==> |s| > 0 && cls(s[0])
    ensures m && !AllIn(s, cls) ==> |s| >= 2 && s[|s| - 1] == '\n' && (forall i :: 0 <= i < |s| - 1 ==> cls(s[i]))
    ensures |s| >= 2 && s[|s| - 1] == '\n' && (forall i :: 0 <= i < |s| - 1 ==> cls(s[i])) ==> m
  {
    assert |s| >= 1 ==> forall i :: 0 <= i < |s| - 1 ==> s[..|s| - 1][i] == s[i];
    AllIn(s, cls) || (|s| >= 2 && s[|s| - 1] == '\n' && AllIn(s[..|s| - 1], cls))
  }

  /** When the class itself contains the line feed, the final-line-feed case adds nothing. */
  lemma MatchesAnchoredRunWithLineFeed(s: string, cls: char -> bool)
    requires cls('\n')
    ensures MatchesAnchoredRun(s, cls) <==> AllIn(s, cls)
  {
    if |s| >= 2 && s[|s| - 1] == '\n' && AllIn(s[..|s| - 1], cls) {
      assert forall i :: 0 <= i < |s| - 1 ==> s[..|s| - 1][i] == s[i];
    }
  }

  /** A string the regex `^[A-Za-z]+$` accepts contains a letter, so it is not blank. */
  lemma AsciiLetterRunIsNotBlank(s: string)
    requires MatchesAnchoredRun(s, IsAsciiLetter)
    ensures !IsBlank(s)
  {
    assert IsAsciiLetter(s[0]);
  }

  /** `string.Join(sep, parts)`. */
  function Join(sep: string, parts: seq<string>): (r: string)
    ensures |parts| == 1 ==> r == parts[0]
    ensures |parts| > 0 ==> |r| >= |parts[0]| && r[..|parts[0]|] == parts[0]
    decreases |parts|
  {
    if |parts| == 0 then ""
    else if |parts| == 1 then parts[0]
    else
      var r := Join(sep, parts[..|parts| - 1]) + sep + parts[|parts| - 1];
      assert parts[..|parts| - 1][0] == parts[0];
      r
  }

  /**
   * `string.Join` places exactly one separator between consecutive parts, in order:
   * joining two non-empty lists of parts one after the other is joining each and
   * putting one separator between them.
   */
  lemma {:induction false} JoinAppend(sep: string, a: seq<string>, b: seq<string>)
    requires |a| > 0 && |b| > 0
    ensures Join(sep, a + b) == Join(sep, a) + sep + Join(sep, b)
    decreases |b|
  {
    var ab := a + b;
    if |b| == 1 {
      assert ab[..|ab| - 1] == a;
    } else {
      var init := b[..|b| - 1];
      JoinAppend(sep, a, init);
      assert ab[..|ab| - 1] == a + init;
      assert ab[|ab| - 1] == b[|b| - 1];
    }
  }

  /** The decimal digit for `d`. */
  function Digit(d: nat): (c: char)
    requires d < 10
    ensures '0' <= c <= '9' && c as int - '0' as int == d
  {
    ('0' as int + d) as char
  }

  /** The decimal representation of `n`, as C# string interpolation writes an `int`. */
  function NatToString(n: nat): (r: string)
    ensures |r| > 0 && (forall i :: 0 <= i < |r| ==> '0' <= r[i] <= '9')
    ensures |r| > 1 ==> r[0] != '0'
    decreases n
  {
    if n < 10 then [Digit(n)] else NatToString(n / 10) + [Digit(n % 10)]
  }

  /** The value of a string of decimal digits. */
  function DigitsValue(s: string): nat
    requires forall i :: 0 <= i < |s| ==> '0' <= s[i] <= '9'
    decreases |s|
  {
    if s == [] then 0 else 10 * DigitsValue(s[..|s| - 1]) + (s[|s| - 1] as int - '0' as int)
  }

  /** Formatting a count and reading it back gives the count. */
  lemma {:induction false} NatToStringRoundTrip(n: nat)
    ensures DigitsValue(NatToString(n)) == n
    decreases n
  {
    if n >= 10 {
      NatToStringRoundTrip(n / 10);
      var r := NatToString(n);
      assert r[..|r| - 1] == NatToString(n / 10);
    }
  }
}
