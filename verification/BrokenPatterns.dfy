/** Patterns whose groups or references do not survive the combining. */
module BrokenPatterns {
  import opened Prelude
  import opened EscapeCodec
  import opened CharClass
  import opened GroupNumbering
  import opened PatternText
  import opened CombinedPattern
  import opened OctalEscapes

  /** `\n`, in decimal. */
  function Numbered(n: nat): Text { [BACKSLASH] + Decimal(n) }

  lemma {:induction false} NoLeadingZero(n: nat)
    requires n > 0
    ensures Decimal(n)[0] != 48
  {
    if n >= 10 { NoLeadingZero(n / 10); }
  }

  lemma NumberedReads(n: nat)
    requires n > 0
    ensures NumericValue(Numbered(n)) == n && IsPatternToken(Numbered(n)) && IsNumeral(Numbered(n))
    ensures Numbered(n)[1] != 48 && Numbered(n) != OPEN && Numbered(n) != CARET_TOKEN
  {
    NumberedEscapeReads(n);
    DecimalReads(n);
    DecimalIsDigits(Decimal(n));
    NoLeadingZero(n);
    assert Numbered(n)[1..] == Decimal(n);
  }

  const LETTER: Text := [97]

  lemma SmallTokens()
    ensures IsPatternToken(OPEN) && IsPatternToken(CLOSE) && IsPatternToken(CARET_TOKEN) && IsPatternToken(LETTER)
    ensures NumericValue(OPEN) == NumericValue(CLOSE) == NumericValue(CARET_TOKEN) == NumericValue(LETTER) == 0
  {
    assert LETTER[1..] == [];
  }

  /** `(a)\1`, and more tokens. */
  function WithReference(more: seq<Text>): seq<Text> { [OPEN, LETTER, CLOSE, Numbered(1)] + more }

  lemma ReferenceIsOne(more: seq<Text>)
    ensures var toks := WithReference(more);
            Opens(toks, 3) == 1 && IsBackRef(toks, 3) && !IsOutOfRange(toks, 3) && IsNumeral(toks[3])
  {
    var toks := WithReference(more);
    NumberedReads(1);
    assert toks[0] == OPEN && toks[1] == LETTER && toks[2] == CLOSE && toks[3] == Numbered(1);
    assert Opens(toks, 1) == 1 && Opens(toks, 2) == 1;
  }

  lemma ConcatOne(a: Text)
    ensures Concat([a]) == a
  {
    assert a + Concat<CodeUnit>([]) == a;
  }

  /** A number that is no reference is its character after the first pass. */
  lemma CharacterAt(toks: seq<Text>, i: nat, n: nat)
    requires i < |toks| && toks[i] == Numbered(n) && n > Opens(toks, i)
    ensures IsOutOfRange(toks, i) && WithCharacters(toks)[i] == EncodeEscape(n)
  {
    NumberedReads(n);
  }

  lemma OtherAt(toks: seq<Text>, i: nat)
    requires i < |toks| && NumericValue(toks[i]) == 0
    ensures WithCharacters(toks)[i] == toks[i]
  {}

  /** With at most two tokens behind it, what follows token `i`. */
  lemma Behind(toks: seq<Text>, i: nat)
    requires i + 1 < |toks| <= i + 3
    ensures var w := WithoutCarets(WithCharacters(toks));
            Following(toks, i) == if |toks| == i + 2 then w[i + 1] else w[i + 1] + w[i + 2]
  {
    hide WithCharacters, WithoutCarets;
    var w := WithoutCarets(WithCharacters(toks));
    assert |w| == |toks| by { SameCount(toks); }
    if |toks| == i + 2 {
      assert w[i + 1..] == [w[i + 1]];
      ConcatOne(w[i + 1]);
    } else {
      assert w[i + 1..] == [w[i + 1], w[i + 2]] && w[i + 1..][1..] == [w[i + 2]];
      ConcatOne(w[i + 2]);
    }
  }

  /** `(a)\1^0`: the caret is dropped, and the reference runs into the digit. */
  lemma CaretBeforeDigit()
    ensures var toks := WithReference([CARET_TOKEN, [48]]);
            Tokenised(toks) && Breaks(toks, 3)
  {
    hide Opens, References, EncodeEscape, Decimal;
    var toks := WithReference([CARET_TOKEN, [48]]);
    ReferenceIsOne([CARET_TOKEN, [48]]);
    NumberedReads(1);
    SmallTokens();
    assert toks[4] == CARET_TOKEN && toks[5] == [48] && IsPatternToken([48]);
    OtherAt(toks, 4);
    OtherAt(toks, 5);
    Behind(toks, 3);
  }

  /** Its tokens come out as those of `(a)\10`. */
  lemma CaretBeforeDigitText()
    ensures var toks := WithReference([CARET_TOKEN, [48]]);
            Rewritten(toks, 0, false) == Ok([OPEN, LETTER, CLOSE, Numbered(1), [], [48]])
  {
    hide References, Decimal, EncodeEscape, NumericValue, Opens, WithCharacters, Renumbered;
    var toks := WithReference([CARET_TOKEN, [48]]);
    CaretBeforeDigitParts();
    RenumberedStays(toks);
    assert WithoutCarets(toks) == [OPEN, LETTER, CLOSE, Numbered(1), [], [48]];
  }

  lemma CaretBeforeDigitParts()
    ensures var toks := WithReference([CARET_TOKEN, [48]]);
            && |toks| == 6 && WithCharacters(toks) == toks && Referenced(toks, 1) && toks[0] == OPEN && toks[3] == Numbered(1)
            && (forall i :: 0 < i < 6 ==> toks[i] != OPEN)
            && (forall i :: 0 <= i < 6 && i != 3 ==> NumericValue(toks[i]) == 0)
            && toks[3] != CARET_TOKEN
  {
    hide References, Decimal, EncodeEscape, Opens, NumericValue, WithCharacters, PatternTokenLength;
    var toks := WithReference([CARET_TOKEN, [48]]);
    ReferenceIsOne([CARET_TOKEN, [48]]);
    NumberedReads(1);
    SmallTokens();
    ZeroIsNoNumber();
    assert |WithCharacters(toks)| == 6 by { assert |toks| == 6; OneEach(toks); }
    forall i | 0 <= i < 6 ensures WithCharacters(toks)[i] == toks[i] { if i != 3 { OtherAt(toks, i); } }
    BackRefReferences(toks, 3, 6);
  }

  lemma ZeroIsNoNumber()
    ensures NumericValue([48]) == 0
  {}

  lemma OneEach(toks: seq<Text>)
    ensures |WithCharacters(toks)| == |toks|
  {}

  lemma RenumberedStays(toks: seq<Text>)
    requires |toks| == 6 && WithCharacters(toks) == toks && Referenced(toks, 1) && toks[0] == OPEN && toks[3] == Numbered(1)
    requires forall i :: 0 < i < 6 ==> toks[i] != OPEN
    requires forall i :: 0 <= i < 6 && i != 3 ==> NumericValue(toks[i]) == 0
    ensures Renumbered(toks, 0) == toks
  {
    hide References, EncodeEscape, NumericValue;
    NumberedReads(1);
    assert Opens(toks, 0) == 0 && NumberOf(toks, 0, 0) == 0 && NumberOf(toks, 0, 1) == 1;
  }

  /** `(a)\1\49`: the second number becomes the digit `1`. */
  lemma DigitBehindReference()
    ensures var toks := WithReference([Numbered(49)]);
            Tokenised(toks) && Breaks(toks, 3)
  {
    hide References, NumericValue, Decimal, Opens, WithCharacters, WithoutCarets, PatternTokenLength;
    var toks := WithReference([Numbered(49)]);
    ReferenceIsOne([Numbered(49)]);
    NumberedReads(1);
    NumberedReads(49);
    SmallTokens();
    assert toks[4] == Numbered(49) && Opens(toks, 4) <= 4;
    CharacterAt(toks, 4, 49);
    Behind(toks, 3);
  }

  /** `(\63:)\1`: the number becomes a question mark, and the group stops capturing. */
  lemma QuestionMarkInGroup()
    ensures Breaks([OPEN, Numbered(63), [58], CLOSE, Numbered(1)], 0)
  {
    hide Decimal, Opens, References, Following;
    QuestionMarkRefers();
    QuestionMarkFollows();
  }

  lemma QuestionMarkRefers()
    ensures var toks := [OPEN, Numbered(63), [58], CLOSE, Numbered(1)];
            Opens(toks, 0) == 0 && Referenced(toks, 1)
  {
    hide References, NumericValue, Decimal;
    var toks := [OPEN, Numbered(63), [58], CLOSE, Numbered(1)];
    NumberedReads(1);
    assert Opens(toks, 0) == 0 && Opens(toks, 1) == 1;
    OpensMonotone(toks, 1, 4);
    BackRefReferences(toks, 4, 5);
  }

  lemma QuestionMarkFollows()
    ensures StartsGroup(Following([OPEN, Numbered(63), [58], CLOSE, Numbered(1)], 0))
  {
    hide NumericValue, Decimal, Opens, WithCharacters;
    var toks := [OPEN, Numbered(63), [58], CLOSE, Numbered(1)];
    assert toks[1] == Numbered(63) && toks[2] == [58] && Opens(toks, 1) <= 1;
    CharacterAt(toks, 1, 63);
    assert NumericValue([58]) == 0 by { ColonIsNoNumber(); }
    OtherAt(toks, 2);
    var w := WithoutCarets(WithCharacters(toks));
    assert |w| == 5 by { SameCount(toks); }
    assert w[1] == [63] && w[2] == [58];
    assert w[1..][1..] == w[2..] && w[2..][1..] == w[3..];
    var rest := Concat(w[3..]);
    assert Concat(w[1..]) == w[1] + (w[2] + rest);
    assert Following(toks, 0) == [63] + ([58] + rest) == [63, 58] + rest;
  }

  lemma ColonIsNoNumber()
    ensures NumericValue([58]) == 0
  {}

  /** `\91(x)]\1`, `(a\41b)\1`, `a\124b`: the number becomes a bracket, a parenthesis or a bar. */
  lemma SyntaxFromNumber(front: seq<Text>, n: nat, behind: seq<Text>)
    requires n % 0x10000 in {40, 41, 91, 124} && n > |front|
    ensures Breaks(front + [Numbered(n)] + behind, |front|)
  {
    hide Following, NumericValue;
    NumberedReads(n);
    assert (front + [Numbered(n)] + behind)[|front|] == Numbered(n);
  }

  /** `\40`: the number becomes a parenthesis, and since nothing refers to it, one that
      does not capture. */
  lemma ParenthesisEscapeOpensAGroup()
    ensures var toks := [Numbered(40)];
            Breaks(toks, 0) && Rewritten(toks, 0, false) == Ok([NON_CAPTURE])
  {
    hide NumericValue, Decimal, Following;
    var toks := [Numbered(40)];
    NumberedReads(40);
    CharacterAt(toks, 0, 40);
    assert References(toks, 0) == {} && !Referenced(toks, 1);
    assert Renumbered(toks, 0) == [NON_CAPTURE];
    assert WithoutCarets(Renumbered(toks, 0)) == [NON_CAPTURE];
  }

  /** `\1(a)`: a reference in front of its group becomes a character. */
  lemma ForwardReference(more: seq<Text>)
    ensures var toks := [Numbered(1), OPEN] + more;
            Breaks(toks, 0)
  {
    hide NumericValue, Decimal, Following;
    var toks := [Numbered(1), OPEN] + more;
    NumberedReads(1);
    assert Opens(toks, 0) == 0 && Opens(toks, 2) == Opens(toks, 1) + 1;
    OpensMonotone(toks, 2, |toks|);
  }

  /** `(a)\01`: a number with a leading zero is no reference, but becomes one. */
  lemma LeadingZero()
    ensures var toks := [OPEN, LETTER, CLOSE, [BACKSLASH, 48, 49]];
            Tokenised(toks) && Breaks(toks, 3)
  {
    var toks := [OPEN, LETTER, CLOSE, [BACKSLASH, 48, 49]];
    var digits: Text := [48, 49];
    SmallTokens();
    HornerOfThree(digits, 10);
    assert toks[3][1..] == digits && digits[1..] == [49] && digits[1..][1..] == [];
    assert Opens(toks, 1) == 1 && Opens(toks, 2) == 1 && Opens(toks, 3) == 1;
  }
}
