/**
 * The field rules a submitted territory must satisfy. Each property has its own
 * chain of rules; every rule of every chain is evaluated (none stops the others),
 * and each failing rule contributes its message, in chain order.
 *
 * As in the validation library the rules come from, "not empty" fails on a null or
 * blank string, while the length and pattern rules pass on a null value.
 */
module TerritoryValidator {
  import opened Wrappers
  import opened Text
  import opened Domain

  const CodeRequired := "Code is required"
  const CodeLength := "Code must be between " + NatToString(Constraint2Char) + " and "
                      + NatToString(Constraint10Char) + " characters"
  /** The message of all three letters-only rules, including those on Code and Name. */
  const OnlyLetters := "RegionCode must contain only letters"
  const NameRequired := "Name is required"
  const RegionCodeRequired := "RegionCode is required"
  const RegionCodeLength := "RegionCode must be exactly " + NatToString(Constraint2Char) + " letters"

  /** The messages, written out. */
  lemma MessageTexts()
    ensures CodeLength == "Code must be between 2 and 10 characters"
    ensures RegionCodeLength == "RegionCode must be exactly 2 letters"
    ensures RegionCodeLength != OnlyLetters && RegionCodeLength != RegionCodeRequired
    ensures CodeLength != OnlyLetters && CodeLength != CodeRequired
  {
    assert RegionCodeLength[16] != OnlyLetters[16];
  }

  /** The character class `[A-Za-z\s]` of the Name pattern. */
  predicate IsNameChar(c: char) {
    IsAsciiLetter(c) || IsWhiteSpace(c)
  }

  /** Whether `s` is absent, or present with a length in `[lo, hi]` (a length rule passes on null). */
  predicate LengthBetween(s: Option<string>, lo: nat, hi: nat) {
    s.None? || lo <= |s.value| <= hi
  }

  /** Whether `s` is absent, or matched by `^[cls]+$` (a pattern rule passes on null). */
  predicate MatchesOrNull(s: Option<string>, cls: char -> bool) {
    s.None? || MatchesAnchoredRun(s.value, cls)
  }

  /** The messages of the Code chain: not empty, length 2..10, `^[A-Za-z]+$`. */
  function CodeErrors(code: Option<string>): (errs: seq<string>)
    ensures CodeRequired in errs <==> IsNullOrWhiteSpace(code)
    ensures CodeLength in errs <==> !LengthBetween(code, Constraint2Char, Constraint10Char)
    ensures OnlyLetters in errs <==> !MatchesOrNull(code, IsAsciiLetter)
    ensures forall m :: m in errs ==> m == CodeRequired || m == CodeLength || m == OnlyLetters
  {
    MessageTexts();
    (if IsNullOrWhiteSpace(code) then [CodeRequired] else [])
    + (if !LengthBetween(code, Constraint2Char, Constraint10Char) then [CodeLength] else [])
    + (if !MatchesOrNull(code, IsAsciiLetter) then [OnlyLetters] else [])
  }

  /** The messages of the Name chain: not empty, `^[A-Za-z\s]+$`. */
  function NameErrors(name: Option<string>): (errs: seq<string>)
    ensures NameRequired in errs <==> IsNullOrWhiteSpace(name)
    ensures OnlyLetters in errs <==> !MatchesOrNull(name, IsNameChar)
    ensures forall m :: m in errs ==> m == NameRequired || m == OnlyLetters
  {
    (if IsNullOrWhiteSpace(name) then [NameRequired] else [])
    + (if !MatchesOrNull(name, IsNameChar) then [OnlyLetters] else [])
  }

  /** The messages of the RegionCode chain: not empty, length exactly 2, `^[A-Za-z]+$`. */
  function RegionCodeErrors(regionCode: Option<string>): (errs: seq<string>)
    ensures RegionCodeRequired in errs <==> IsNullOrWhiteSpace(regionCode)
    ensures RegionCodeLength in errs <==> !LengthBetween(regionCode, Constraint2Char, Constraint2Char)
    ensures OnlyLetters in errs <==> !MatchesOrNull(regionCode, IsAsciiLetter)
    ensures forall m :: m in errs ==> m == RegionCodeRequired || m == RegionCodeLength || m == OnlyLetters
  {
    MessageTexts();
    (if IsNullOrWhiteSpace(regionCode) then [RegionCodeRequired] else [])
    + (if !LengthBetween(regionCode, Constraint2Char, Constraint2Char) then [RegionCodeLength] else [])
    + (if !MatchesOrNull(regionCode, IsAsciiLetter) then [OnlyLetters] else [])
  }

  /** All messages for one record: the Code chain's, then the Name chain's, then the RegionCode chain's. */
  function Validate(d: TerritoryDto): (errs: seq<string>)
    ensures forall m :: m in errs <==> m in CodeErrors(d.code) || m in NameErrors(d.name) || m in RegionCodeErrors(d.regionCode)
  {
    CodeErrors(d.code) + NameErrors(d.name) + RegionCodeErrors(d.regionCode)
  }

  /** One rule of a chain: the message it reports, and whether the value passes it. */
  datatype Rule = Rule(message: string, passes: bool)

  /**
   * What a chain of rules reports when every rule is evaluated: the messages of the
   * failing rules, in the order the rules are declared.
   */
  function FailedMessages(rules: seq<Rule>): (ms: seq<string>)
    ensures |ms| <= |rules|
    ensures forall m :: m in ms <==> exists i :: 0 <= i < |rules| && !rules[i].passes && rules[i].message == m
    decreases |rules|
  {
    if rules == [] then []
    else
      var init, last := rules[..|rules| - 1], rules[|rules| - 1];
      assert forall i :: 0 <= i < |init| ==> init[i] == rules[i];
      FailedMessages(init) + (if last.passes then [] else [last.message])
  }

  /** Evaluating two chains one after the other reports the first chain's messages, then the second's. */
  lemma {:induction false} FailedMessagesAppend(a: seq<Rule>, b: seq<Rule>)
    ensures FailedMessages(a + b) == FailedMessages(a) + FailedMessages(b)
    decreases |b|
  {
    if b == [] {
      assert a + b == a;
    } else {
      var init := b[..|b| - 1];
      FailedMessagesAppend(a, init);
      assert (a + b)[..|a + b| - 1] == a + init;
      assert (a + b)[|a + b| - 1] == b[|b| - 1];
    }
  }

  /** The rules declared for Code, in declaration order. */
  function CodeRules(code: Option<string>): seq<Rule> {
    [ Rule(CodeRequired, !IsNullOrWhiteSpace(code)),
      Rule(CodeLength, LengthBetween(code, Constraint2Char, Constraint10Char)),
      Rule(OnlyLetters, MatchesOrNull(code, IsAsciiLetter)) ]
  }

  /** The rules declared for Name, in declaration order. */
  function NameRules(name: Option<string>): seq<Rule> {
    [ Rule(NameRequired, !IsNullOrWhiteSpace(name)),
      Rule(OnlyLetters, MatchesOrNull(name, IsNameChar)) ]
  }

  /** The rules declared for RegionCode, in declaration order. */
  function RegionCodeRules(regionCode: Option<string>): seq<Rule> {
    [ Rule(RegionCodeRequired, !IsNullOrWhiteSpace(regionCode)),
      Rule(RegionCodeLength, LengthBetween(regionCode, Constraint2Char, Constraint2Char)),
      Rule(OnlyLetters, MatchesOrNull(regionCode, IsAsciiLetter)) ]
  }

  /** A chain of three rules reports its failing rules' messages in declaration order. */
  lemma FailedMessagesOfThree(r0: Rule, r1: Rule, r2: Rule)
    ensures FailedMessages([r0, r1, r2])
            == (if r0.passes then [] else [r0.message]) + (if r1.passes then [] else [r1.message])
               + (if r2.passes then [] else [r2.message])
  {
    FailedMessagesOfTwo(r0, r1);
    FailedMessagesAppend([r0, r1], [r2]);
    assert [r0, r1] + [r2] == [r0, r1, r2];
    assert [r2][..0] == [];
  }

  /** A chain of two rules reports its failing rules' messages in declaration order. */
  lemma FailedMessagesOfTwo(r0: Rule, r1: Rule)
    ensures FailedMessages([r0, r1]) == (if r0.passes then [] else [r0.message]) + (if r1.passes then [] else [r1.message])
  {
    assert [r0, r1][..1] == [r0];
    assert [r0][..0] == [];
  }

  /**
   * A record's messages are those of its failing rules, in the order the rules are
   * declared: the Code chain's, then the Name chain's, then the RegionCode chain's.
   */
  lemma ValidateInRuleOrder(d: TerritoryDto)
    ensures CodeErrors(d.code) == FailedMessages(CodeRules(d.code))
    ensures NameErrors(d.name) == FailedMessages(NameRules(d.name))
    ensures RegionCodeErrors(d.regionCode) == FailedMessages(RegionCodeRules(d.regionCode))
    ensures Validate(d) == FailedMessages(CodeRules(d.code) + NameRules(d.name) + RegionCodeRules(d.regionCode))
  {
    var c, n, r := CodeRules(d.code), NameRules(d.name), RegionCodeRules(d.regionCode);
    FailedMessagesOfThree(c[0], c[1], c[2]);
    assert c == [c[0], c[1], c[2]];
    FailedMessagesOfTwo(n[0], n[1]);
    assert n == [n[0], n[1]];
    FailedMessagesOfThree(r[0], r[1], r[2]);
    assert r == [r[0], r[1], r[2]];
    FailedMessagesAppend(c, n);
    FailedMessagesAppend(c + n, r);
  }

  /**
   * A record that passes every rule: a code of 2 to 10 characters matched by
   * `^[A-Za-z]+$`, a non-blank name of ASCII letters and white space, and a region
   * code of 2 characters matched by `^[A-Za-z]+$`.
   */
  predicate IsValidRecord(d: TerritoryDto) {
    && d.code.Some? && Constraint2Char <= |d.code.value| <= Constraint10Char
    && MatchesAnchoredRun(d.code.value, IsAsciiLetter)
    && d.name.Some? && !IsBlank(d.name.value) && AllIn(d.name.value, IsNameChar)
    && d.regionCode.Some? && |d.regionCode.value| == Constraint2Char
    && MatchesAnchoredRun(d.regionCode.value, IsAsciiLetter)
  }

  /** A record produces no message exactly when it is valid. */
  lemma ValidateEmptyIffValid(d: TerritoryDto)
    ensures Validate(d) == [] <==> IsValidRecord(d)
  {
    if d.code.Some? && MatchesAnchoredRun(d.code.value, IsAsciiLetter) {
      AsciiLetterRunIsNotBlank(d.code.value);
    }
    if d.regionCode.Some? && MatchesAnchoredRun(d.regionCode.value, IsAsciiLetter) {
      AsciiLetterRunIsNotBlank(d.regionCode.value);
    }
    if d.name.Some? {
      assert IsNameChar('\n');
      MatchesAnchoredRunWithLineFeed(d.name.value, IsNameChar);
    }
  }

  /** The three chains are independent: a record can fail all of them at once. */
  lemma ChainsAreIndependent()
    ensures Validate(TerritoryDto(None, None, None)) == [CodeRequired, NameRequired, RegionCodeRequired]
  {
  }

  /** A null code fails only the not-empty rule; an empty one fails all three Code rules. */
  lemma NullAndEmptyCode()
    ensures CodeErrors(None) == [CodeRequired]
    ensures CodeErrors(Some("")) == [CodeRequired, CodeLength, OnlyLetters]
  {
  }

  /** An eleven-character code is too long; ten characters are within bounds. */
  lemma CodeLengthBoundary()
    ensures CodeErrors(Some("AAAAAAAAAAA")) == [CodeLength]
    ensures CodeErrors(Some("AAAAAAAAAA")) == []
  {
    assert !IsWhiteSpace("AAAAAAAAAAA"[0]) && !IsWhiteSpace("AAAAAAAAAA"[0]);
    assert MatchesOrNull(Some("AAAAAAAAAAA"), IsAsciiLetter);
    assert MatchesOrNull(Some("AAAAAAAAAA"), IsAsciiLetter);
  }

  /** One- and three-character region codes have the wrong length. */
  lemma RegionCodeLengthBoundary()
    ensures RegionCodeErrors(Some("A")) == [RegionCodeLength]
    ensures RegionCodeErrors(Some("ABC")) == [RegionCodeLength]
  {
    assert !IsWhiteSpace("A"[0]) && !IsWhiteSpace("ABC"[0]);
  }

  /** The record `{TT, "Valid Territory", AB}` passes every rule. */
  lemma ValidExample()
    ensures Validate(TerritoryDto(Some("TT"), Some("Valid Territory"), Some("AB"))) == []
  {
    ValidExampleName();
    ValidExampleCodes();
  }

  /** Two ASCII letters pass both the Code chain and the RegionCode chain. */
  lemma ValidExampleCodes()
    ensures CodeErrors(Some("TT")) == [] && RegionCodeErrors(Some("AB")) == []
  {
    assert !IsWhiteSpace("TT"[0]) && !IsWhiteSpace("AB"[0]);
  }

  /** A name of letters and one inner space passes the Name chain. */
  lemma ValidExampleName()
    ensures NameErrors(Some("Valid Territory")) == []
  {
    var name := "Valid Territory";
    assert !IsWhiteSpace(name[0]);
    assert forall i :: 0 <= i < |name| ==> name[i] == ' ' || IsAsciiLetter(name[i]);
    assert MatchesOrNull(Some(name), IsNameChar);
  }

  /** A name containing a digit fails the Name pattern, with the letters-only message. */
  lemma NameWithDigitRejected()
    ensures NameErrors(Some("Territory1")) == [OnlyLetters]
  {
    assert !IsNameChar("Territory1"[9]);
  }

  /**
   * Because `$` also matches before a final line feed, a letter followed by '\n'
   * passes every RegionCode rule.
   */
  lemma RegionCodeWithTrailingLineFeedAccepted()
    ensures RegionCodeErrors(Some("A\n")) == []
  {
    assert "A\n"[..1] == "A" && !IsWhiteSpace("A\n"[0]);
  }
}
