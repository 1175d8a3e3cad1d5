/** Patterns that lose their own treatment of case when they are combined with others:
    a case-sensitive one beside one that ignores case and a letter, which gives it the
    flag, and one that ignores case beside a letter that does not, which has it folded.
    Each stands in front of the other, and is one token that the rewriting keeps. */
module CaseExamples {
  import opened Prelude
  import opened EscapeCodec
  import opened EscapeMeaning
  import opened CodeRanges
  import opened CharClass
  import opened ClassReading
  import opened ClassFolding
  import opened GroupNumbering
  import opened PatternText
  import opened CombinedPattern
  import opened JoinedPatterns
  import opened TokenReading
  import opened CaseTreatment

  /** A pattern under test in front of another one. */
  function Pair(source: Text, ignoreCase: bool, other: Text): seq<Pattern> {
    [Pattern(source, ignoreCase, false, false), Pattern(other, !ignoreCase, false, false)]
  }

  const SMALL_A: Text := [97]

  lemma SmallAHasLetter()
    ensures Unescaped(SMALL_A) == SMALL_A && HasLetter(SMALL_A)
  {
    assert SMALL_A[1..] == [];
    assert IsLetter(SMALL_A[0]);
  }

  /** Beside `/a/i`, a case-sensitive pattern in which the source sees no letter gets the
      flag. */
  lemma GetsFlag(source: Text)
    requires !HasLetter(Unescaped(source))
    ensures var ps := Pair(source, false, SMALL_A); !Mixed(ps) && AnyIgnores(ps) && ModeOf(ps, 0) == Flagged
  {
    hide Unescaped, HasLetter;
    var ps := Pair(source, false, SMALL_A);
    assert ps[1].ignoreCase && !MindsCase(ps[0]) && !MindsCase(ps[1]);
  }

  /** Beside `/a/`, a pattern that ignores case is folded. */
  lemma GetsFolded(source: Text)
    ensures var ps := Pair(source, true, SMALL_A); Mixed(ps) && ModeOf(ps, 0) == Folded
  {
    SmallAHasLetter();
    var ps := Pair(source, true, SMALL_A);
    assert MindsCase(ps[1]);
  }

  lemma OneTokenOnly(s: Text)
    requires IsPatternToken(s)
    ensures PatternTokens(s) == [s]
  {
    assert s[..|s|] == s && s[|s|..] == [];
  }

  /** The first of a pair is not kept, if some token of it is none that keeps. */
  lemma FirstIsLost(canon: CodeUnit -> CodeUnit, ps: seq<Pattern>, outs: seq<seq<Text>>, i: nat)
    requires FoldsAscii(canon) && |ps| == 2 && AllRewritten(TokenLists(ps), FoldFlags(ps), outs)
    requires i < |PatternTokens(ps[0].source)| && !Keeps(canon, PatternTokens(ps[0].source), i, ModeOf(ps, 0))
    ensures !PatternKept(canon, PatternTokens(ps[0].source), outs[0], ModeOf(ps, 0))
  {
    hide FoldsAscii, AllRewritten, PatternTokens, ModeOf, Keeps, PatternKept;
    OnePatternKeeps(canon, ps, outs, 0);
  }

  lemma AloneRewritten(tok: Text, x: nat, fold: bool)
    requires NumericValue(tok) == 0 && tok != OPEN && tok != CARET_TOKEN && (fold ==> FoldToken(tok) == Ok(tok))
    ensures Rewritten([tok], x, fold) == Ok([tok])
  {
    hide NumericValue, FoldToken;
    assert WithCharacters([tok]) == [tok];
    assert Renumbered([tok], x) == [tok];
    assert WithoutCarets([tok]) == [tok];
    var none: seq<Text> := [];
    if fold { assert FoldTokens([tok], 0) == Ok(none) && none + [tok] == [tok] && FoldTokens([tok], 1) == Ok(none + [tok]); }
  }

  /** A pair of which the first is one token that the rewriting leaves as it is. */
  lemma PairRewritten(source: Text, ignoreCase: bool)
    requires IsPatternToken(source) && NumericValue(source) == 0 && source != OPEN && source != CARET_TOKEN
    requires ignoreCase ==> FoldToken(source) == Ok(source)
    requires !ignoreCase ==> !HasLetter(Unescaped(source))
    ensures var ps := Pair(source, ignoreCase, SMALL_A); AllRewritten(TokenLists(ps), FoldFlags(ps), [[source], [SMALL_A]])
  {
    hide PatternTokens, PatternTokenLength, Rewritten, NumericValue, FoldToken, Mixed, CounterBefore, HasLetter, Unescaped, ModeOf;
    var ps := Pair(source, ignoreCase, SMALL_A);
    var tokss, folds, outs := TokenLists(ps), FoldFlags(ps), [[source], [SMALL_A]];
    if ignoreCase { GetsFolded(source); } else { GetsFlag(source); }
    SmallAReads();
    OneTokenOnly(source);
    OneTokenOnly(SMALL_A);
    assert !folds[1];
    AloneRewritten(source, CounterBefore(tokss, 0), folds[0]);
    AloneRewritten(SMALL_A, CounterBefore(tokss, 1), folds[1]);
    assert PatternRewritten(tokss, folds, outs, 0) && PatternRewritten(tokss, folds, outs, 1);
  }

  lemma SmallAReads()
    ensures IsPatternToken(SMALL_A) && NumericValue(SMALL_A) == 0
  {
    assert SMALL_A[1..] == [];
  }

  /** `\x41` */
  const HEX_A: Text := [BACKSLASH, 120, 52, 49]

  lemma HexAReads()
    ensures IsPatternToken(HEX_A) && NumericValue(HEX_A) == 0 && Unescaped(HEX_A) == []
    ensures forall led :: TokenElems(HEX_A, led) == [OneUnit(65)]
  {
    assert HEX_A[2..] == [HexDigit(4), HexDigit(1)] && HEX_A[4..] == [];
    HexPair(4, 1);
    ParsedIsNumber(HEX_A[2..], 16);
    assert HEX_A[1..][0] == 120;
  }

  lemma HexAMatters(canon: CodeUnit -> CodeUnit, m: Mode)
    requires FoldsAscii(canon) && Own(m) != Now(m)
    ensures !Keeps(canon, [HEX_A], 0, m)
  {
    hide FoldsAscii, TokenElems, NumericValue, HasCase;
    HexAReads();
    LetterHasCase(canon, 65);
    var els := TokenElems(HEX_A, Led([HEX_A], 0));
    assert els == [OneUnit(65)] && CaseMatters(canon, els[0]);
  }

  /** `/\x41/` beside `/a/i`: the source sees no letter in it, so it gets the flag, and
      accepts the small letter too. */
  lemma EscapedLetterGetsFlag(canon: CodeUnit -> CodeUnit)
    requires FoldsAscii(canon)
    ensures var ps, outs := Pair(HEX_A, false, SMALL_A), [[HEX_A], [SMALL_A]];
            && AllRewritten(TokenLists(ps), FoldFlags(ps), outs) && ModeOf(ps, 0) == Flagged
            && !PatternKept(canon, PatternTokens(HEX_A), outs[0], Flagged)
  {
    hide AllRewritten, PatternTokens, Keeps, PatternKept, FoldsAscii, TokenElems, NumericValue, PatternTokenLength, ModeOf;
    HexAReads();
    GetsFlag(HEX_A);
    OneTokenOnly(HEX_A);
    HexAMatters(canon, Flagged);
    PairRewritten(HEX_A, false);
    FirstIsLost(canon, Pair(HEX_A, false, SMALL_A), [[HEX_A], [SMALL_A]], 0);
  }

  /** `/\x41/i` beside `/a/`: escapes are not folded, so it no longer accepts the small
      letter. */
  lemma EscapedLetterIsNotFolded(canon: CodeUnit -> CodeUnit)
    requires FoldsAscii(canon)
    ensures var ps, outs := Pair(HEX_A, true, SMALL_A), [[HEX_A], [SMALL_A]];
            && AllRewritten(TokenLists(ps), FoldFlags(ps), outs) && ModeOf(ps, 0) == Folded
            && !PatternKept(canon, PatternTokens(HEX_A), outs[0], Folded)
  {
    hide AllRewritten, PatternTokens, Keeps, PatternKept, FoldsAscii, TokenElems, NumericValue, PatternTokenLength, ModeOf;
    HexAReads();
    GetsFolded(HEX_A);
    OneTokenOnly(HEX_A);
    HexAMatters(canon, Folded);
    EscapeFolds(HEX_A);
    PairRewritten(HEX_A, true);
    FirstIsLost(canon, Pair(HEX_A, true, SMALL_A), [[HEX_A], [SMALL_A]], 0);
  }

  /** `[:-_]`, a range that has the capitals and names none. */
  const CAPITALS: Text := [91, 58, HYPHEN, 95, CLOSE_BRACKET]

  lemma CapitalsToken()
    ensures IsPatternToken(CAPITALS) && NumericValue(CAPITALS) == 0
  {
    var t := CAPITALS[1..];
    assert t[1..][1..][1..] == [CLOSE_BRACKET];
    assert BodyEnd(t[1..][1..][1..]) == 1;
    assert BodyEnd(t[1..][1..]) == 2 && BodyEnd(t[1..]) == 3 && BodyEnd(t) == 4;
  }

  lemma {:induction false} NoEscapesStay(s: Text)
    requires forall i :: 0 <= i < |s| ==> s[i] != BACKSLASH
    ensures Unescaped(s) == s
  {
    if s != [] { NoEscapesStay(s[1..]); }
  }

  lemma CapitalsHave()
    ensures JsRanges(ItemTokens(CAPITALS)) == [Range(58, 95)]
  {
    hide JsItems, AllRanges;
    var s: Text := Body(CAPITALS);
    var toks: seq<Text> := [[58], HYPHEN_TOKEN, [95]];
    assert s == [58, HYPHEN, 95] && s[..1] == [58] && s[1..] == [HYPHEN, 95] && s[1..][..1] == HYPHEN_TOKEN && s[1..][1..] == [95];
    assert [95][..1] == [95] && [95][1..] == [];
    assert ClassTokens(s[1..][1..]) == [[95]];
    assert ClassTokens(s[1..]) == [HYPHEN_TOKEN, [95]];
    assert ClassTokens(s) == toks;
    assert toks[0] != CARET_TOKEN;
    assert ItemTokens(CAPITALS) == toks;
    var rest := toks[3..];
    NoRest(rest);
    RangeStep(toks);
    OneSpan(3, 58, 95);
    assert JsItems(toks) == [(3, Span(58, 95))];
  }

  /** `/[:-_]/` beside `/a/i`: no letter and no escape, and yet case matters. */
  lemma RangeGetsFlag(canon: CodeUnit -> CodeUnit)
    requires FoldsAscii(canon)
    ensures var ps, outs := Pair(CAPITALS, false, SMALL_A), [[CAPITALS], [SMALL_A]];
            && AllRewritten(TokenLists(ps), FoldFlags(ps), outs) && ModeOf(ps, 0) == Flagged
            && !PatternKept(canon, PatternTokens(CAPITALS), outs[0], Flagged)
  {
    hide AllRewritten, PatternTokens, PatternKept, TokenElems, NumericValue, ItemTokens, JsRanges, PatternTokenLength, Keeps, Unescaped;
    CapitalsToken();
    NoEscapesStay(CAPITALS);
    assert !HasLetter(CAPITALS);
    GetsFlag(CAPITALS);
    OneTokenOnly(CAPITALS);
    CapitalsMatter(canon);
    PairRewritten(CAPITALS, false);
    FirstIsLost(canon, Pair(CAPITALS, false, SMALL_A), [[CAPITALS], [SMALL_A]], 0);
  }

  lemma CapitalsMatter(canon: CodeUnit -> CodeUnit)
    requires FoldsAscii(canon)
    ensures !Keeps(canon, [CAPITALS], 0, Flagged)
  {
    hide TokenElems, NumericValue, ItemTokens, JsRanges, PatternTokenLength;
    CapitalsToken();
    CapitalsHave();
    ClassElems(CAPITALS, Led([CAPITALS], 0));
    var rs := JsRanges(ItemTokens(CAPITALS));
    assert InRanges(rs, 65) by { assert rs[0] in rs; }
    assert !InRanges(rs, 97) && canon(65) == canon(97);
    var els := TokenElems(CAPITALS, Led([CAPITALS], 0));
    assert els == [InBrackets(CAPITALS)] && CaseMatters(canon, els[0]);
  }

  /** One character that is not ASCII and has another case. */
  lemma ForeignToken(canon: CodeUnit -> CodeUnit, c: CodeUnit, m: Mode)
    requires c >= 128 && HasCase(canon, c) && Own(m) != Now(m)
    ensures IsPatternToken([c]) && PatternTokens([c]) == [[c]] && !Keeps(canon, [[c]], 0, m)
  {
    hide HasCase;
    assert [c][1..] == [];
    OneTokenOnly([c]);
    var els := TokenElems([c], Led([[c]], 0));
    assert els == [UnitElem(c)] + TextElems([c][1..]) == [OneUnit(c)];
    assert CaseMatters(canon, els[0]);
    assert NumericValue([c]) == 0;
  }

  /** `/\u00e9/i`, written as the letter itself, beside `/a/`: only ASCII letters are folded. */
  lemma ForeignLetterIsNotFolded(canon: CodeUnit -> CodeUnit, c: CodeUnit, outs: seq<seq<Text>>)
    requires FoldsAscii(canon) && c >= 128 && HasCase(canon, c)
    requires var ps := Pair([c], true, SMALL_A); AllRewritten(TokenLists(ps), FoldFlags(ps), outs)
    ensures !PatternKept(canon, PatternTokens([c]), outs[0], Folded)
  {
    hide AllRewritten, PatternTokens, PatternKept, Keeps, FoldsAscii, HasCase;
    ForeignToken(canon, c, Folded);
    GetsFolded([c]);
    FirstIsLost(canon, Pair([c], true, SMALL_A), outs, 0);
  }

  /** A back-reference compares as the flag says: no pattern with one can be given a flag,
      or be folded, and keep it. */
  lemma ReferenceMindsFlag(canon: CodeUnit -> CodeUnit, toks: seq<Text>, i: nat, m: Mode)
    requires i < |toks| && RefersTo(toks, i) && Own(m) != Now(m)
    ensures !Keeps(canon, toks, i, m)
  {
    hide NumericValue;
    assert NumericValue(toks[i]) > 0 by { PositiveReference(toks, i); }
  }

  /** Nor can a pattern with `\c` be folded: the letter behind it becomes a class, or the
      one in it stays. */
  lemma ControlIsNotFolded(canon: CodeUnit -> CodeUnit, toks: seq<Text>, i: nat)
    requires i < |toks| && toks[i] == CONTROL_TOKEN
    ensures !Keeps(canon, toks, i, Folded)
  {}
}
