/** One rewritten pattern where it stands in the combined text. Its tokens are read
    back one by one: each is meant to be a group, the end of one, a bar, a class, a
    reference or nothing of these, and it is that in its place, whatever stands behind
    it, unless it breaks the pattern, which its source's tokens tell. */
module CombinedPattern {
  import opened Prelude
  import opened EscapeCodec
  import opened CodeRanges
  import opened CharClass
  import opened GroupNumbering
  import opened PatternText

  // ---- rewritten tokens read alone and in their place ----

  /** The marks of plain text whose letters have been folded. */
  function FoldedMarks(t: Text, at: nat): seq<Mark> {
    if t == [] then []
    else if IsLetter(t[0]) then [Mark(at, Class)] + FoldedMarks(t[1..], at + 4)
    else BarMarks([t[0]], at) + FoldedMarks(t[1..], at + 1)
  }

  lemma LetterClassSplits(c: CodeUnit, rest: Text, at: nat)
    requires IsLetter(c)
    ensures var f := [91, ClearBit5(c), SetBit5(c), CLOSE_BRACKET];
            Scan(f + rest, at) == [Mark(at, Class)] + Scan(rest, at + 4)
  {
    var f: Text := [91, ClearBit5(c), SetBit5(c), CLOSE_BRACKET];
    var s := f + rest;
    assert s[1..][1..][1..] == [CLOSE_BRACKET] + rest;
    assert BodyEnd(s[1..][1..][1..]) == 1;
    assert BodyEnd(s[1..][1..]) == 2 && BodyEnd(s[1..]) == 3;
    ScanStep(f, rest, at);
  }

  /** One unit of plain text, folded. */
  function FoldedUnit(c: CodeUnit): Text {
    if IsLetter(c) then [91, ClearBit5(c), SetBit5(c), CLOSE_BRACKET] else [c]
  }

  lemma FoldedUnitSplits(c: CodeUnit, rest: Text, at: nat)
    requires IsPlain(c)
    ensures Scan(FoldedUnit(c) + rest, at)
         == (if IsLetter(c) then [Mark(at, Class)] else BarMarks([c], at)) + Scan(rest, at + |FoldedUnit(c)|)
  {
    if IsLetter(c) { LetterClassSplits(c, rest, at); } else { PlainUnitSplits(c, rest, at); }
  }

  lemma {:induction false} FoldedSplits(t: Text, rest: Text, at: nat)
    requires AllPlain(t)
    ensures Scan(FoldLetters(t) + rest, at) == FoldedMarks(t, at) + Scan(rest, at + |FoldLetters(t)|)
  {
    hide Scan, BarMarks;
    if t == [] {
      assert FoldLetters(t) + rest == rest;
    } else {
      var u, f := FoldLetters(t[1..]), FoldedUnit(t[0]);
      assert FoldLetters(t) + rest == f + (u + rest);
      FoldedUnitSplits(t[0], u + rest, at);
      FoldedSplits(t[1..], rest, at + |f|);
      Reassociate(if IsLetter(t[0]) then [Mark(at, Class)] else BarMarks([t[0]], at), FoldedMarks(t[1..], at + |f|),
                  Scan(rest, at + |FoldLetters(t)|));
    }
  }

  /** What a rewritten token may be: nothing, a token that is no plain text, plain
      text, or plain text with its letters folded. */
  ghost predicate Sane(tok: Text) {
    tok == [] || (IsPatternToken(tok) && !IsPlain(tok[0])) || exists t :: AllPlain(t) && (tok == t || tok == FoldLetters(t))
  }

  lemma SaneSplits(tok: Text, rest: Text, at: nat)
    requires Sane(tok) && !GoesOn(tok, rest)
    ensures Scan(tok + rest, at) == Scan(tok, at) + Scan(rest, at + |tok|)
  {
    hide Scan, PatternTokenLength, BarMarks, FoldLetters;
    ScanNothing(at + |tok|);
    assert tok + [] == tok;
    if tok == [] {
      assert tok + rest == rest;
    } else if IsPatternToken(tok) && !IsPlain(tok[0]) {
      TokenDelimited(tok, rest);
      DelimitedSplits(tok, rest, at);
    } else {
      var t :| AllPlain(t) && (tok == t || tok == FoldLetters(t));
      if tok == t {
        PlainSplits(t, rest, at);
        PlainSplits(t, [], at);
      } else {
        FoldedSplits(t, rest, at);
        FoldedSplits(t, [], at);
      }
    }
  }

  // ---- a folded class is one token ----

  /** A part of a class body that does not end it. */
  ghost predicate Inside(tok: Text) {
    forall rest: Text :: BodyEnd(tok + rest) == if BodyEnd(rest) == 0 then 0 else |tok| + BodyEnd(rest)
  }

  lemma UnitInside(c: CodeUnit, rest: Text)
    requires c != CLOSE_BRACKET && c != BACKSLASH
    ensures BodyEnd([c] + rest) == if BodyEnd(rest) == 0 then 0 else 1 + BodyEnd(rest)
  {
    assert ([c] + rest)[1..] == rest;
  }

  lemma EscapeInside(c: CodeUnit, rest: Text)
    ensures BodyEnd([BACKSLASH, c] + rest) == if BodyEnd(rest) == 0 then 0 else 2 + BodyEnd(rest)
  {
    assert ([BACKSLASH, c] + rest)[2..] == rest;
  }

  lemma EncodedInside(c: CodeUnit)
    ensures Inside(EncodeEscape(c))
  {
    var e := EncodeEscape(c);
    forall rest: Text
      ensures BodyEnd(e + rest) == if BodyEnd(rest) == 0 then 0 else |e| + BodyEnd(rest)
    {
      if c < 32 {
        var h, l := HexDigit(c / 16), HexDigit(c % 16);
        assert e == [BACKSLASH, 120, h, l];
        assert e + rest == [BACKSLASH, 120] + ([h] + ([l] + rest));
        EscapeInside(120, [h] + ([l] + rest));
        UnitInside(h, [l] + rest);
        UnitInside(l, rest);
      } else if IsClassSyntax(c) {
        EscapeInside(c, rest);
      } else {
        UnitInside(c, rest);
      }
    }
  }

  lemma VerbatimInside(tok: Text)
    requires IsVerbatim(tok) || tok == CARET_TOKEN || tok == HYPHEN_TOKEN
    ensures Inside(tok)
  {
    forall rest: Text
      ensures BodyEnd(tok + rest) == if BodyEnd(rest) == 0 then 0 else |tok| + BodyEnd(rest)
    {
      if IsVerbatim(tok) {
        assert tok == [BACKSLASH, tok[1]];
        EscapeInside(tok[1], rest);
      } else {
        UnitInside(tok[0], rest);
      }
    }
  }

  lemma {:induction false} RangeTokensInside(rs: seq<Range>)
    requires CodeUnits(rs)
    ensures forall i :: 0 <= i < |AllRangeTokens(rs)| ==> Inside(AllRangeTokens(rs)[i])
  {
    hide EncodeEscape, Inside, BodyEnd;
    if rs != [] {
      assert rs[0] in rs;
      EncodedInside(rs[0].lo);
      EncodedInside(rs[0].hi);
      VerbatimInside(HYPHEN_TOKEN);
      RangeTokensInside(rs[1..]);
    }
  }

  lemma {:induction false} ConcatInside(toks: seq<Text>, rest: Text)
    requires forall i :: 0 <= i < |toks| ==> Inside(toks[i])
    ensures BodyEnd(Concat(toks) + rest) == if BodyEnd(rest) == 0 then 0 else |Concat(toks)| + BodyEnd(rest)
  {
    hide BodyEnd;
    if toks == [] {
      assert Concat(toks) + rest == rest;
    } else {
      assert Inside(toks[0]);
      ConcatInside(toks[1..], rest);
      assert Concat(toks) + rest == toks[0] + (Concat(toks[1..]) + rest);
    }
  }

  lemma FoldedClassIsToken(tok: Text, folded: Text)
    requires |tok| >= 2 && FoldClass(tok) == Ok(folded)
    ensures IsPatternToken(folded) && folded[0] == 91
  {
    hide ParseClass, FoldedRanges, AllRangeTokens, Concat, Inside;
    var p := ParseClass(tok).value;
    ParsedClassParts(tok);
    FoldedRangesStayCodeUnits(p.ranges);
    var q := p.(ranges := FoldedRanges(p.ranges));
    RangeTokensInside(q.ranges);
    VerbatimInside(CARET_TOKEN);
    forall i | 0 <= i < |BodyTokens(q)| ensures Inside(BodyTokens(q)[i]) {
      var k := if q.inverse then 1 else 0;
      if k <= i < k + |q.verbatim| { VerbatimInside(q.verbatim[i - k]); }
    }
    ConcatInside(BodyTokens(q), [CLOSE_BRACKET]);
    assert folded[1..] == Concat(BodyTokens(q)) + [CLOSE_BRACKET];
  }

  // ---- what a token is meant to be, and when it is not ----

  predicate IsNumeral(tok: Text) { |tok| > 1 && tok[0] == BACKSLASH && IsDigit(tok[1]) }

  /** A back-reference as JavaScript has it: a number without a leading zero, of a
      group of the pattern. */
  predicate RefersTo(toks: seq<Text>, i: nat)
    requires i < |toks|
  {
    0 < NumericValue(toks[i]) <= Opens(toks, |toks|) && IsNumeral(toks[i]) && toks[i][1] != 48
  }

  /** The text behind token `i` as the first pass and the dropped carets leave it. */
  function Following(toks: seq<Text>, i: nat): Text
    requires i < |toks|
  {
    Concat(WithoutCarets(WithCharacters(toks))[i+1..])
  }

  /** What a caller can check of token `i`. It breaks the pattern if it is
      a reference to a group that opens behind it;
      a number with a leading zero that the rewriting takes for a reference;
      another number that becomes a parenthesis, a bracket or a bar;
      an escape with digits that comes to stand in front of a digit;
      or a capturing parenthesis that comes to stand in front of `?` and a sign. */
  predicate Breaks(toks: seq<Text>, i: nat)
    requires i < |toks|
  {
    || (IsOutOfRange(toks, i) && (RefersTo(toks, i) || NumericValue(toks[i]) % 0x10000 in {40, 41, 91, 124}))
    || (IsBackRef(toks, i) && !RefersTo(toks, i))
    || (IsNumeral(toks[i]) && !IsOutOfRange(toks, i) && StartsDigit(Following(toks, i)))
    || (toks[i] == OPEN && Referenced(toks, Opens(toks, i) + 1) && StartsGroup(Following(toks, i)))
  }

  predicate Sound(toks: seq<Text>) { forall i :: 0 <= i < |toks| ==> !Breaks(toks, i) }

  predicate SoundBefore(toks: seq<Text>, n: nat)
    requires n <= |toks|
  {
    forall i :: 0 <= i < n ==> !Breaks(toks, i)
  }

  /** The marks token `i` is meant to have where it comes to stand: a group captures if
      it is referenced, a reference has its new number, another number is a character,
      and an assertion of the start is there only if another stands behind it;
      everything else is what it was, letters possibly folded to classes. */
  function Wanted(toks: seq<Text>, x: nat, fold: bool, i: nat, at: nat): seq<Mark>
    requires i < |toks|
  {
    var tok, v := toks[i], NumericValue(toks[i]);
    if v > 0 then
      if RefersTo(toks, i) then [Mark(at, Numeral(Decimal(NumberOf(toks, x, v))))]
      else if fold && IsLetter(v % 0x10000) then [Mark(at, Class)]
      else []
    else if tok == OPEN then [Mark(at, if Referenced(toks, Opens(toks, i) + 1) then Capture else Group(58))]
    else if tok == CARET_TOKEN then (if IsDoubled(toks, i) then [Mark(at, Start)] else [])
    else if fold && tok != [] && IsPlain(tok[0]) then FoldedMarks(tok, at)
    else TokenMarks(tok, at)
  }

  /** Another assertion of the start stands behind it. */
  predicate IsDoubled(toks: seq<Text>, i: nat) { i + 1 < |toks| && toks[i + 1] == CARET_TOKEN }

  /** The marks of a rewritten pattern from token `i` on. */
  function WantedFrom(toks: seq<Text>, x: nat, fold: bool, out: seq<Text>, i: nat, at: nat): seq<Mark>
    requires i <= |toks| == |out|
    decreases |toks| - i
  {
    if i == |toks| then []
    else Wanted(toks, x, fold, i, at) + WantedFrom(toks, x, fold, out, i + 1, at + |out[i]|)
  }

  lemma {:induction false} FoldedMarksFrom(t: Text, at: nat)
    ensures AllFrom(FoldedMarks(t, at), at)
  {
    if t != [] {
      FoldedMarksFrom(t[1..], at + 4);
      FoldedMarksFrom(t[1..], at + 1);
      BarMarksFrom([t[0]], at);
    }
  }

  lemma WantedHere(toks: seq<Text>, x: nat, fold: bool, i: nat, at: nat)
    requires i < |toks|
    ensures AllFrom(Wanted(toks, x, fold, i, at), at)
  {
    FoldedMarksFrom(toks[i], at);
    BarMarksFrom(toks[i], at);
  }

  lemma {:induction false} WantedIsFrom(toks: seq<Text>, x: nat, fold: bool, out: seq<Text>, i: nat, at: nat)
    requires i <= |toks| == |out|
    ensures AllFrom(WantedFrom(toks, x, fold, out, i, at), at)
    decreases |toks| - i
  {
    hide Wanted;
    if i < |toks| {
      WantedHere(toks, x, fold, i, at);
      WantedIsFrom(toks, x, fold, out, i + 1, at + |out[i]|);
    }
  }

  // ---- what the passes make of one token ----

  /** The token before case is folded. */
  function Unfolded(toks: seq<Text>, x: nat, i: nat): Text
    requires i < |toks|
  {
    CaretToken(Renumbered(toks, x), i)
  }

  lemma OutToken(toks: seq<Text>, x: nat, fold: bool, out: seq<Text>, i: nat)
    requires Rewritten(toks, x, fold) == Ok(out) && i < |toks|
    ensures |out| == |toks|
    ensures if fold then FoldToken(Unfolded(toks, x, i)) == Ok(out[i]) else out[i] == Unfolded(toks, x, i)
  {
    hide FoldToken, Renumbered;
    var s := WithoutCarets(Renumbered(toks, x));
    if fold { FoldTokensAt(s, |s|, i); }
  }

  lemma NumeralIsDecimal(tok: Text)
    requires IsPatternToken(tok) && IsNumeral(tok)
    ensures IsDecimal(tok[1..]) && NumericValue(tok) >= 0 && tok != OPEN && tok != CARET_TOKEN
  {
    DigitsAreDecimal(tok[1..]);
    DecimalsAreNotNegative(tok[1..]);
  }

  lemma {:induction false} DigitsAreDecimal(t: Text)
    requires DecimalRun(t) == |t| > 0
    ensures IsDecimal(t)
  {
    if |t| > 1 { DigitsAreDecimal(t[1..]); }
    assert forall i :: 0 < i < |t| ==> t[i] == t[1..][i - 1];
  }

  lemma {:induction false} DecimalsAreNotNegative(t: Text)
    requires IsDecimal(t)
    ensures DigitsValue(t, 10) >= 0
  {
    if |t| > 1 { DecimalsAreNotNegative(t[..|t|-1]); } else { assert t[..0] == []; }
  }

  lemma {:induction false} DecimalIsDigits(t: Text)
    requires IsDecimal(t)
    ensures DecimalRun(t) == |t|
  {
    if |t| > 1 { DecimalIsDigits(t[1..]); }
  }

  lemma NotNumeral(tok: Text)
    requires IsPatternToken(tok) && !IsNumeral(tok)
    ensures NumericValue(tok) == 0
  {}

  lemma {:induction false} OpensBefore(toks: seq<Text>, i: nat)
    requires i <= |toks| && SoundBefore(toks, i)
    ensures Opens(WithCharacters(toks), i) == Opens(toks, i)
  {
    hide NumericValue, EncodeEscape, RefersTo, Following, References;
    if i > 0 {
      OpensBefore(toks, i - 1);
      OpenIsNotNumeric();
      assert !Breaks(toks, i - 1);
      if IsOutOfRange(toks, i - 1) { EncodedIsNotNumeric(NumericValue(toks[i-1])); }
    }
  }

  lemma OpenStays(toks: seq<Text>, i: nat)
    requires i < |toks| && toks[i] == OPEN
    ensures WithCharacters(toks)[i] == OPEN
  {
    OpenIsNotNumeric();
  }

  lemma RenumberedOpen(toks: seq<Text>, x: nat, i: nat)
    requires i < |toks| && toks[i] == OPEN && SoundBefore(toks, i)
    ensures RenumberedToken(toks, x, i) == if Referenced(toks, Opens(toks, i) + 1) then OPEN else NON_CAPTURE
  {
    hide NumericValue, EncodeEscape, Referenced, Opens, NumberOf, Decimal, Breaks, WithCharacters;
    OpensBefore(toks, i);
    OpenIsNotNumeric();
    assert WithCharacters(toks)[i] == OPEN by { OpenStays(toks, i); }
  }

  lemma RenumberedOther(toks: seq<Text>, x: nat, i: nat)
    requires i < |toks| && toks[i] != OPEN && NumericValue(toks[i]) == 0
    ensures RenumberedToken(toks, x, i) == toks[i]
  {
    hide NumericValue, EncodeEscape;
  }

  lemma RenumberedReference(toks: seq<Text>, x: nat, i: nat)
    requires i < |toks| && IsBackRef(toks, i)
    ensures RenumberedToken(toks, x, i) == [BACKSLASH] + Decimal(NumberOf(toks, x, NumericValue(toks[i])))
  {
    hide NumericValue, EncodeEscape;
    OpenIsNotNumeric();
  }

  lemma RenumberedCharacter(toks: seq<Text>, x: nat, i: nat)
    requires i < |toks| && IsOutOfRange(toks, i)
    ensures var e := EncodeEscape(NumericValue(toks[i]));
            if e == OPEN then RenumberedToken(toks, x, i) in {OPEN, NON_CAPTURE} else RenumberedToken(toks, x, i) == e
  {
    hide NumericValue, EncodeEscape;
  }

  // ---- tokens that come out as meant ----

  lemma SyntaxFolds(tok: Text)
    requires tok in {[], OPEN, CLOSE, CARET_TOKEN} || (|tok| == 3 && tok[0] == 40 && tok[1] == 63 && IsSign(tok[2]))
    ensures FoldToken(tok) == Ok(tok)
  {
    if |tok| == 1 {
      assert tok == [tok[0]] && tok[1..] == [];
      assert FoldLetters(tok) == [tok[0]];
    } else if |tok| == 3 {
      assert tok[1..][1..][1..] == [] && tok == [tok[0], tok[1], tok[2]];
      assert FoldLetters(tok[1..][1..]) == [tok[2]] && FoldLetters(tok[1..]) == [tok[1], tok[2]];
      assert FoldLetters(tok) == [tok[0], tok[1], tok[2]];
    }
  }

  lemma EscapeFolds(tok: Text)
    requires tok != [] && tok[0] == BACKSLASH
    ensures FoldToken(tok) == Ok(tok)
  {}

  /** Folding leaves a sane token sane, and syntax as it is. */
  lemma FoldStaysSane(tok: Text, out: Text)
    requires tok == [] || IsPatternToken(tok)
    requires FoldToken(tok) == Ok(out)
    ensures Sane(out) && (tok == [] || tok[0] in {40, 41, 92, 94} ==> out == tok)
  {
    hide FoldClass, FoldLetters, PatternTokenLength;
    if tok == [] || tok[0] in {40, 41, 94} {
      SyntaxToken(tok);
      SyntaxFolds(tok);
    } else if tok[0] == 91 {
      ClassTokenLength(tok);
      FoldedClassIsToken(tok, out);
    } else if tok[0] != BACKSLASH {
      PlainToken(tok);
    }
  }

  lemma SyntaxToken(tok: Text)
    requires tok == [] || (IsPatternToken(tok) && tok[0] in {40, 41, 94})
    ensures tok in {[], OPEN, CLOSE, CARET_TOKEN} || (|tok| == 3 && tok[0] == 40 && tok[1] == 63 && IsSign(tok[2]))
  {
    if |tok| == 1 { assert tok == [tok[0]]; }
    if tok != [] && tok[0] == 40 && |tok| == 3 { assert tok[1..][0] == tok[1] && tok[1..][1] == tok[2]; }
  }

  lemma ClassTokenLength(tok: Text)
    requires IsPatternToken(tok) && tok[0] == 91
    ensures |tok| >= 2
  {}

  lemma PlainToken(tok: Text)
    requires IsPatternToken(tok) && IsPlain(tok[0])
    ensures AllPlain(tok)
  {
    PlainRunIsPlain(tok);
  }

  lemma TokenIsSane(tok: Text)
    requires tok == [] || IsPatternToken(tok)
    ensures Sane(tok)
  {
    hide PatternTokenLength;
    if tok != [] && IsPlain(tok[0]) { PlainToken(tok); }
  }

  /** The caret pass keeps a token or drops a caret. */
  lemma UnfoldedIs(toks: seq<Text>, x: nat, i: nat)
    requires i < |toks|
    ensures Unfolded(toks, x, i) == RenumberedToken(toks, x, i)
            || (RenumberedToken(toks, x, i) == CARET_TOKEN && Unfolded(toks, x, i) == [])
  {
    hide RenumberedToken;
  }

  /** A token that is no number comes out sane. */
  lemma OtherToken(toks: seq<Text>, x: nat, fold: bool, out: seq<Text>, i: nat)
    requires Tokenised(toks) && Rewritten(toks, x, fold) == Ok(out) && i < |toks| && SoundBefore(toks, i)
    requires NumericValue(toks[i]) == 0
    ensures |out| == |toks| && Sane(out[i])
    ensures toks[i] == OPEN ==> out[i] == if Referenced(toks, Opens(toks, i) + 1) then OPEN else NON_CAPTURE
    ensures toks[i] != OPEN ==> out[i] != OPEN
    ensures IsNumeral(out[i]) <==> IsNumeral(toks[i])
  {
    hide NumericValue, Renumbered, RenumberedToken, Referenced, Opens, FoldToken, Rewritten, Breaks, PatternTokenLength, Unfolded;
    OutToken(toks, x, fold, out, i);
    UnfoldedIs(toks, x, i);
    var r, u := RenumberedToken(toks, x, i), Unfolded(toks, x, i);
    if toks[i] == OPEN { RenumberedOpen(toks, x, i); } else { RenumberedOther(toks, x, i); }
    GroupsAreTokens();
    TokenIsSane(u);
    if fold {
      FoldStaysSane(u, out[i]);
      FoldedIsNoSyntax(u, out[i]);
    }
  }

  lemma GroupsAreTokens()
    ensures IsPatternToken(OPEN) && IsPatternToken(NON_CAPTURE) && !IsNumeral(OPEN) && !IsNumeral(NON_CAPTURE)
    ensures !IsNumeral(CARET_TOKEN) && CARET_TOKEN != OPEN
  {}

  lemma FoldedIsNoSyntax(tok: Text, out: Text)
    requires FoldToken(tok) == Ok(out)
    ensures tok != OPEN ==> out != OPEN
    ensures IsNumeral(out) <==> IsNumeral(tok)
  {
    FoldTokenShape(tok);
    FoldLettersShape(tok);
    if tok != [] && tok[0] == BACKSLASH { EscapeFolds(tok); }
    if |tok| >= 2 && tok[0] == 91 { FoldedClassIsToken(tok, out); }
  }

  /** A reference comes out as its new number. */
  lemma ReferenceToken(toks: seq<Text>, x: nat, fold: bool, out: seq<Text>, i: nat)
    requires Rewritten(toks, x, fold) == Ok(out) && i < |toks| && IsBackRef(toks, i)
    ensures var digits := Decimal(NumberOf(toks, x, NumericValue(toks[i])));
            |out| == |toks| && out[i] == [BACKSLASH] + digits && IsNumeral(out[i]) && IsPatternToken(out[i])
  {
    hide Rewritten, NumericValue, NumberOf, FoldToken, RenumberedToken, Unfolded;
    var digits := Decimal(NumberOf(toks, x, NumericValue(toks[i])));
    OutToken(toks, x, fold, out, i);
    UnfoldedIs(toks, x, i);
    RenumberedReference(toks, x, i);
    DecimalReads(NumberOf(toks, x, NumericValue(toks[i])));
    DecimalIsDigits(digits);
    EscapeFolds([BACKSLASH] + digits);
    assert ([BACKSLASH] + digits)[1..] == digits;
  }

  /** The text of a character of which the letters may be folded. */
  function Character(v: nat, fold: bool): Text {
    if fold && IsLetter(v % 0x10000) then FoldLetters(EncodeEscape(v)) else EncodeEscape(v)
  }

  lemma CharacterFolded(v: nat)
    requires v % 0x10000 != 91
    ensures FoldToken(EncodeEscape(v)) == Ok(Character(v, true))
  {
    var e, c := EncodeEscape(v), v % 0x10000;
    EncodedShape(v);
    if e != [c] {
      EscapeFolds(e);
    } else {
      assert e[1..] == [];
      assert !IsLetter(c) ==> FoldLetters(e) == [c];
    }
  }

  /** A number that is no reference comes out as a character. */
  lemma CharacterOut(toks: seq<Text>, x: nat, fold: bool, out: seq<Text>, i: nat)
    requires Rewritten(toks, x, fold) == Ok(out) && i < |toks| && IsOutOfRange(toks, i)
    ensures |out| == |toks| && out[i] != [] && !IsNumeral(out[i]) && (out[i][0] == BACKSLASH ==> |out[i]| > 1)
    ensures NumericValue(toks[i]) % 0x10000 in {41, 91, 124} ==> out[i][0] == NumericValue(toks[i]) % 0x10000
    ensures NumericValue(toks[i]) % 0x10000 == 40 ==> out[i][0] == 40
    ensures NumericValue(toks[i]) % 0x10000 !in {40, 41, 91, 124} ==> out[i] == Character(NumericValue(toks[i]), fold)
  {
    hide Rewritten, NumericValue, FoldToken, RenumberedToken, Unfolded;
    OutToken(toks, x, fold, out, i);
    UnfoldedIs(toks, x, i);
    RenumberedCharacter(toks, x, i);
    var v := NumericValue(toks[i]);
    EncodedShape(v);
    if fold {
      CharacterFolds(Unfolded(toks, x, i), out[i]);
      if v % 0x10000 !in {40, 41, 91, 124} { CharacterFolded(v); }
    }
  }

  /** An encoded character: an escape, or one unit. */
  lemma EncodedShape(v: nat)
    ensures var e, c := EncodeEscape(v), v % 0x10000;
            && e != [] && !IsNumeral(e) && e != CARET_TOKEN && (e[0] == BACKSLASH ==> |e| > 1)
            && (e[0] == BACKSLASH || e == [c])
            && (e == OPEN <==> c == 40)
            && (c in {40, 41, 91, 124} ==> e == [c])
  {
    EncodedIsNotNumeric(v);
  }

  lemma CharacterFolds(u: Text, out: Text)
    requires FoldToken(u) == Ok(out) && u != [] && !IsNumeral(u)
    requires u[0] == BACKSLASH || |u| == 1 || u == NON_CAPTURE
    requires u[0] == BACKSLASH ==> |u| > 1
    ensures out != [] && !IsNumeral(out) && (out[0] == BACKSLASH ==> |out| > 1) && (u[0] in {40, 41, 91, 124} ==> out[0] == u[0])
  {
    FoldedIsNoSyntax(u, out);
    FoldLettersShape(u);
    if |u| == 1 { assert u == [u[0]] && u[1..] == []; }
    if u == NON_CAPTURE { SyntaxFolds(u); }
  }

  /** A character that is no syntax comes out sane, with a mark only for a letter
      folded to a class. */
  lemma CharacterReads(v: nat, fold: bool, at: nat)
    requires v % 0x10000 !in {40, 41, 91, 124}
    ensures Sane(Character(v, fold))
    ensures Scan(Character(v, fold), at) == if fold && IsLetter(v % 0x10000) then [Mark(at, Class)] else []
  {
    hide Scan, PatternTokenLength;
    var e, c := EncodeEscape(v), v % 0x10000;
    EncodedShape(v);
    ScanNothing(at + |e|);
    ScanNothing(at + 4);
    assert e + [] == e;
    if e != [c] {
      LettersArePlain(v);
      EncodedIsToken(v);
      ScanStep(e, [], at);
    } else {
      assert AllPlain(e) && e[1..] == [];
      if fold && IsLetter(c) {
        assert FoldLetters(e) == [91, ClearBit5(c), SetBit5(c), CLOSE_BRACKET] + [];
        LetterClassSplits(c, [], at);
      } else {
        PlainUnitSplits(c, [], at);
        BarMarksCons(c, [], at);
        NoBars(at + 1);
      }
    }
  }

  lemma LettersArePlain(v: nat)
    ensures IsLetter(v % 0x10000) ==> EncodeEscape(v) == [v % 0x10000]
  {}

  lemma EncodedIsToken(v: nat)
    requires EncodeEscape(v)[0] == BACKSLASH
    ensures IsPatternToken(EncodeEscape(v)) && !IsNumeral(EncodeEscape(v))
  {
    if v < 32 {
      assert EncodeEscape(v) == [BACKSLASH, 120, HexDigit(v / 16), HexDigit(v % 16)];
    }
  }

  // ---- what stands behind a token ----

  /** The same, as far as the first two characters matter to the token in front. */
  predicate LooksLike(a: Text, b: Text) {
    (a == [] <==> b == [])
    && (a != [] ==>
          && (IsDigit(a[0]) <==> IsDigit(b[0])) && (IsSign(a[0]) <==> IsSign(b[0])) && (a[0] == 63 <==> b[0] == 63)
          && (a[0] == 63 ==> (|a| == 1 <==> |b| == 1) && (|a| > 1 ==> (IsSign(a[1]) <==> IsSign(b[1])))))
  }

  predicate AllLookLike(a: seq<Text>, b: seq<Text>) {
    |a| == |b| && forall i :: 0 <= i < |a| ==> LooksLike(a[i], b[i])
  }

  /** Texts of tokens that look alike start alike, also with a parenthesis behind one. */
  lemma {:induction false} StartAlike(a: seq<Text>, b: seq<Text>, tail: Text)
    requires AllLookLike(a, b) && tail != [] && tail[0] == 41
    ensures StartsDigit(Concat(a) + tail) <==> StartsDigit(Concat(b))
    ensures StartsGroup(Concat(a) + tail) <==> StartsGroup(Concat(b))
    ensures Concat(b) != [] && IsSign(Concat(b)[0]) <==> IsSign((Concat(a) + tail)[0])
  {
    hide IsDigit, IsSign;
    NotSpecial();
    if a == [] {
      assert Concat(a) + tail == tail;
    } else {
      assert LooksLike(a[0], b[0]);
      RestLooksAlike(a, b, 1);
      StartAlike(a[1..], b[1..], tail);
      var s, t := Concat(a[1..]) + tail, Concat(b[1..]);
      assert Concat(a) + tail == a[0] + s && Concat(b) == b[0] + t;
      if |a[0]| == 1 && a[0][0] == 63 {
        assert (a[0] + s)[1] == s[0];
        assert t != [] ==> (b[0] + t)[1] == t[0];
      }
    }
  }

  lemma NotSpecial()
    ensures !IsDigit(41) && !IsSign(41)
  {}

  lemma LooksLikeItself(a: Text)
    ensures LooksLike(a, a)
  {}

  /** Folding does not change how a token starts. */
  lemma FoldedLooksLike(tok: Text, out: Text)
    requires FoldToken(tok) == Ok(out)
    ensures LooksLike(out, tok)
  {
    if |tok| >= 2 && tok[0] == 91 {
      FoldedClassIsToken(tok, out);
    } else if tok != [] && tok[0] == BACKSLASH {
      EscapeFolds(tok);
    } else {
      FoldLettersLook(tok);
    }
  }

  lemma FoldLettersLook(t: Text)
    ensures LooksLike(FoldLetters(t), t)
  {
    if t != [] && t[0] == 63 {
      assert FoldLetters(t) == [63] + FoldLetters(t[1..]);
      if |t| > 1 { assert FoldLetters(t[1..])[0] == (if IsLetter(t[1]) then 91 else t[1]); }
    }
  }

  /** A rewritten token starts as the first pass and the dropped carets leave it. */
  lemma OutLooksLike(toks: seq<Text>, x: nat, fold: bool, out: seq<Text>, i: nat)
    requires Rewritten(toks, x, fold) == Ok(out) && i < |toks|
    ensures |out| == |toks| && LooksLike(out[i], WithoutCarets(WithCharacters(toks))[i])
  {
    hide Rewritten, NumericValue, NumberOf, FoldToken, Decimal, Referenced, Opens, EncodeEscape, LooksLike, CharacterToken;
    OutToken(toks, x, fold, out, i);
    UnfoldedLooksLike(toks, x, i);
    if fold {
      FoldedLooksLike(Unfolded(toks, x, i), out[i]);
      LooksLikeBoth(out[i], Unfolded(toks, x, i), WithoutCarets(WithCharacters(toks))[i]);
    }
  }

  lemma LooksLikeBoth(a: Text, b: Text, c: Text)
    requires LooksLike(a, b) && LooksLike(b, c)
    ensures LooksLike(a, c)
  {}

  lemma UnfoldedLooksLike(toks: seq<Text>, x: nat, i: nat)
    requires i < |toks|
    ensures LooksLike(Unfolded(toks, x, i), WithoutCarets(WithCharacters(toks))[i])
  {
    hide NumericValue, NumberOf, Decimal, Referenced, Opens, EncodeEscape, CharacterToken, RenumberedToken, LooksLike;
    RenumberedLooksLike(toks, x, i);
    if i + 1 < |toks| { RenumberedLooksLike(toks, x, i + 1); }
    LooksLikeItself([]);
  }

  lemma RenumberedLooksLike(toks: seq<Text>, x: nat, i: nat)
    requires i < |toks|
    ensures LooksLike(RenumberedToken(toks, x, i), WithCharacters(toks)[i])
    ensures RenumberedToken(toks, x, i) == CARET_TOKEN <==> WithCharacters(toks)[i] == CARET_TOKEN
  {
    hide NumberOf, Decimal, Referenced, Opens, EncodeEscape;
    if IsBackRef(toks, i) { assert toks[i][0] == BACKSLASH; }
  }

  /** What stands behind token `i` in the combined text starts as `Following` does. */
  lemma FollowingStarts(toks: seq<Text>, x: nat, fold: bool, out: seq<Text>, i: nat, tail: Text)
    requires Rewritten(toks, x, fold) == Ok(out) && i < |toks| && tail != [] && tail[0] == 41
    ensures |out| == |toks|
    ensures StartsDigit(Concat(out[i+1..]) + tail) <==> StartsDigit(Following(toks, i))
    ensures StartsGroup(Concat(out[i+1..]) + tail) <==> StartsGroup(Following(toks, i))
  {
    hide Rewritten, LooksLike, WithCharacters, WithoutCarets, StartsDigit, StartsGroup;
    OutToken(toks, x, fold, out, i);
    var mid := WithoutCarets(WithCharacters(toks));
    assert |mid| == |toks| by { SameCount(toks); }
    forall j | 0 <= j < |out| ensures LooksLike(out[j], mid[j]) { OutLooksLike(toks, x, fold, out, j); }
    RestLooksAlike(out, mid, i + 1);
    StartAlike(out[i+1..], mid[i+1..], tail);
  }

  lemma RestLooksAlike(a: seq<Text>, b: seq<Text>, k: nat)
    requires AllLookLike(a, b) && k <= |a|
    ensures AllLookLike(a[k..], b[k..])
  {
    hide LooksLike;
    forall i | 0 <= i < |a| - k ensures LooksLike(a[k..][i], b[k..][i]) { assert LooksLike(a[k + i], b[k + i]); }
  }

  lemma SameCount(toks: seq<Text>)
    ensures |WithoutCarets(WithCharacters(toks))| == |toks|
  {}

  // ---- one pattern in the combined text ----

  /** The text from token `i` of a rewritten pattern on, with what stands behind it. */
  function TextFrom(out: seq<Text>, i: nat, tail: Text): Text
    requires i <= |out|
  {
    Concat(out[i..]) + tail
  }

  lemma TextUnfolds(out: seq<Text>, i: nat, tail: Text)
    requires i < |out|
    ensures TextFrom(out, i, tail) == out[i] + TextFrom(out, i + 1, tail)
  {
    assert out[i..][1..] == out[i+1..];
  }

  /** The same, with a token that is no number read as it comes out. */
  function Carried(toks: seq<Text>, x: nat, fold: bool, out: Text, i: nat, at: nat): seq<Mark>
    requires i < |toks|
  {
    var v := NumericValue(toks[i]);
    if v <= 0 then Scan(out, at) else Wanted(toks, x, fold, i, at)
  }

  lemma TokenReads(tok: Text, at: nat)
    requires IsPatternToken(tok) && !IsPlain(tok[0])
    ensures Scan(tok, at) == TokenMarks(tok, at)
  {
    hide PatternTokenLength, TokenMarks, Scan;
    assert tok + [] == tok;
    ScanStep(tok, [], at);
    ScanNothing(at + |tok|);
  }

  lemma PlainReads(tok: Text, fold: bool, out: Text, at: nat)
    requires IsPatternToken(tok) && IsPlain(tok[0])
    requires if fold then FoldToken(tok) == Ok(out) else out == tok
    ensures Scan(out, at) == if fold then FoldedMarks(tok, at) else TokenMarks(tok, at)
  {
    hide Scan, PatternTokenLength, BarMarks, FoldedMarks, FoldLetters;
    PlainToken(tok);
    ScanNothing(at + |out|);
    assert out + [] == out;
    if fold { FoldedSplits(tok, [], at); } else { PlainSplits(tok, [], at); }
  }

  lemma CaretReads(at: nat)
    ensures TokenMarks(CARET_TOKEN, at) == [Mark(at, Start)] == Scan(CARET_TOKEN, at) && Scan([], at) == []
  {
    TokenReads(CARET_TOKEN, at);
  }

  /** A caret is dropped unless another stands behind it. */
  lemma CaretDropped(toks: seq<Text>, x: nat, i: nat)
    requires i < |toks| && toks[i] == CARET_TOKEN
    ensures Unfolded(toks, x, i) == if IsDoubled(toks, i) then CARET_TOKEN else []
  {
    hide RenumberedToken, NumericValue, EncodeEscape, WithCharacters, Opens, Referenced;
    CaretStays(toks, x, i);
    if i + 1 < |toks| { CaretStays(toks, x, i + 1); }
  }

  lemma CaretStays(toks: seq<Text>, x: nat, i: nat)
    requires i < |toks|
    ensures RenumberedToken(toks, x, i) == CARET_TOKEN <==> toks[i] == CARET_TOKEN
  {
    hide NumericValue, EncodeEscape, Opens, Referenced, NumberOf, Decimal;
    RenumberedLooksLike(toks, x, i);
    assert NumericValue(CARET_TOKEN) == 0 by { CaretIsNoNumber(); }
    if IsOutOfRange(toks, i) { EncodedShape(NumericValue(toks[i])); }
  }

  lemma CaretIsNoNumber()
    ensures NumericValue(CARET_TOKEN) == 0
  {}

  /** A token that is no number and no parenthesis reads as it did. */
  lemma OtherReads(tok: Text, u: Text, fold: bool, out: Text, at: nat)
    requires IsPatternToken(tok) && tok != CARET_TOKEN && u == tok
    requires if fold then FoldToken(u) == Ok(out) else out == u
    ensures Scan(out, at) == if fold && IsPlain(tok[0]) then FoldedMarks(tok, at) else TokenMarks(tok, at)
  {
    hide Scan, PatternTokenLength, BarMarks, FoldedMarks, FoldLetters, FoldClass;
    if IsPlain(tok[0]) {
      PlainReads(tok, fold, out, at);
    } else {
      TokenReads(tok, at);
      if fold {
        FoldStaysSane(tok, out);
        if tok[0] == 91 {
          ClassTokenLength(tok);
          FoldedClassIsToken(tok, out);
          TokenReads(out, at);
        }
      }
    }
  }

  lemma CarriedIsWanted(toks: seq<Text>, x: nat, fold: bool, out: seq<Text>, i: nat, at: nat)
    requires Tokenised(toks) && Rewritten(toks, x, fold) == Ok(out) && i < |toks| && SoundBefore(toks, i)
    ensures |out| == |toks| && Carried(toks, x, fold, out[i], i, at) == Wanted(toks, x, fold, i, at)
  {
    hide Rewritten, NumericValue, Referenced, Opens, Scan, PatternTokenLength, FoldToken, FoldedMarks, Breaks, RenumberedToken,
         Unfolded, TokenMarks;
    OutToken(toks, x, fold, out, i);
    TokenValue(toks[i]);
    if NumericValue(toks[i]) == 0 {
      OtherToken(toks, x, fold, out, i);
      if toks[i] == OPEN {
        OpensRead(at);
      } else if toks[i] == CARET_TOKEN {
        CaretDropped(toks, x, i);
        CaretReads(at);
        if fold { SyntaxFolds(Unfolded(toks, x, i)); }
      } else {
        UnfoldedIs(toks, x, i);
        RenumberedOther(toks, x, i);
        OtherReads(toks[i], Unfolded(toks, x, i), fold, out[i], at);
      }
    }
  }

  lemma OpensRead(at: nat)
    ensures Scan(OPEN, at) == [Mark(at, Capture)] && Scan(NON_CAPTURE, at) == [Mark(at, Group(58))]
  {
    GroupsAreTokens();
    TokenReads(OPEN, at);
    TokenReads(NON_CAPTURE, at);
  }

  /** A token that breaks nothing reads as meant, and splits from what stands behind it. */
  lemma GoodToken(toks: seq<Text>, x: nat, fold: bool, out: seq<Text>, i: nat, at: nat, tail: Text)
    requires Tokenised(toks) && Rewritten(toks, x, fold) == Ok(out) && i < |toks| && SoundBefore(toks, i) && !Breaks(toks, i)
    requires tail != [] && tail[0] == 41
    ensures |out| == |toks|
    ensures Scan(TextFrom(out, i, tail), at)
         == Carried(toks, x, fold, out[i], i, at) + Scan(TextFrom(out, i + 1, tail), at + |out[i]|)
  {
    hide Rewritten, NumericValue, NumberOf, Decimal, Referenced, Opens, Scan, Sane, PatternTokenLength, WithCharacters, WithoutCarets,
         EncodeEscape, FoldToken, FoldLetters, StartsDigit, StartsGroup, Following, Concat, IsDigit;
    OutToken(toks, x, fold, out, i);
    FollowingStarts(toks, x, fold, out, i, tail);
    TextUnfolds(out, i, tail);
    var v, rest := NumericValue(toks[i]), TextFrom(out, i + 1, tail);
    TokenValue(toks[i]);
    if IsOutOfRange(toks, i) {
      CharacterOut(toks, x, fold, out, i);
      CharacterReads(v, fold, at);
      CharacterIsNoOpen(v, fold);
      SaneSplits(out[i], rest, at);
    } else if IsBackRef(toks, i) {
      ReferenceToken(toks, x, fold, out, i);
      TokenIsSane(out[i]);
      SaneSplits(out[i], rest, at);
      NumeralAlone(out[i], at);
    } else {
      OtherToken(toks, x, fold, out, i);
      SaneSplits(out[i], rest, at);
    }
  }

  lemma TokenValue(tok: Text)
    requires IsPatternToken(tok)
    ensures NumericValue(tok) >= 0 && (NumericValue(tok) > 0 ==> IsNumeral(tok))
  {
    if IsNumeral(tok) { NumeralIsDecimal(tok); } else { NotNumeral(tok); }
  }

  lemma NumeralAlone(tok: Text, at: nat)
    requires IsPatternToken(tok) && IsNumeral(tok)
    ensures Scan(tok, at) == [Mark(at, Numeral(tok[1..]))]
  {
    assert tok + [] == tok;
    ScanStep(tok, [], at);
    ScanNothing(at + |tok|);
  }

  lemma CharacterIsNoOpen(v: nat, fold: bool)
    requires v % 0x10000 != 40
    ensures Character(v, fold) != OPEN
  {
    EncodedShape(v);
    FoldLettersShape(EncodeEscape(v));
  }

  /** A token that breaks the pattern gives other marks than meant, whatever is meant
      to stand behind it. */
  lemma BadToken(toks: seq<Text>, x: nat, fold: bool, out: seq<Text>, i: nat, at: nat, tail: Text, after: seq<Mark>)
    requires Tokenised(toks) && Rewritten(toks, x, fold) == Ok(out) && i < |toks| && SoundBefore(toks, i) && Breaks(toks, i)
    requires tail != [] && tail[0] == 41
    ensures |out| == |toks|
    ensures AllFrom(after, at + |out[i]|) ==>
              Scan(TextFrom(out, i, tail), at) != Carried(toks, x, fold, out[i], i, at) + after
  {
    hide Rewritten, NumericValue, NumberOf, Decimal, Referenced, Opens, Scan, Sane, PatternTokenLength, WithCharacters, WithoutCarets,
         EncodeEscape, FoldToken, FoldLetters, StartsDigit, StartsGroup, Following, Concat, IsDigit, IsLetter, TextFrom;
    OutToken(toks, x, fold, out, i);
    TextUnfolds(out, i, tail);
    TokenValue(toks[i]);
    var rest := TextFrom(out, i + 1, tail);
    var s := out[i] + rest;
    if IsOutOfRange(toks, i) {
      CharacterOut(toks, x, fold, out, i);
      if RefersTo(toks, i) {
        NoNumeralMark(s, at);
      } else {
        SyntaxMark(s, at);
        SyntaxIsNoLetter(NumericValue(toks[i]) % 0x10000);
      }
    } else if IsBackRef(toks, i) {
      ReferenceToken(toks, x, fold, out, i);
      NumeralMark(s, at);
      if RefersTo(toks, i) { DigitsGoOn(toks, x, fold, out, i, at, tail); }
    } else if toks[i] == OPEN {
      ParenthesisGoesOn(toks, x, fold, out, i, at, tail);
    } else {
      DigitsGoOn(toks, x, fold, out, i, at, tail);
    }
  }

  lemma SyntaxIsNoLetter(c: CodeUnit)
    ensures c in {40, 41, 91, 124} ==> !IsLetter(c)
  {}

  lemma DigitsGoOn(toks: seq<Text>, x: nat, fold: bool, out: seq<Text>, i: nat, at: nat, tail: Text)
    requires Tokenised(toks) && Rewritten(toks, x, fold) == Ok(out) && i < |toks| && SoundBefore(toks, i)
    requires tail != [] && tail[0] == 41
    requires IsNumeral(toks[i]) && !IsOutOfRange(toks, i) && StartsDigit(Following(toks, i))
    requires IsBackRef(toks, i) ==> RefersTo(toks, i)
    ensures |out| == |toks|
    ensures Carried(toks, x, fold, out[i], i, at) != [] && Scan(TextFrom(out, i, tail), at) != []
    ensures Scan(TextFrom(out, i, tail), at)[0] != Carried(toks, x, fold, out[i], i, at)[0]
  {
    hide Rewritten, NumericValue, NumberOf, Decimal, Referenced, Opens, Scan, Sane, PatternTokenLength, WithCharacters, WithoutCarets,
         EncodeEscape, FoldToken, FoldLetters, StartsDigit, StartsGroup, Following, Concat, IsDigit, IsLetter, TextFrom;
    TokenValue(toks[i]);
    if IsBackRef(toks, i) {
      ReferenceToken(toks, x, fold, out, i);
    } else {
      NoOpenNumeral(toks[i]);
      OtherToken(toks, x, fold, out, i);
      SaneNumeral(out[i]);
    }
    NumeralAlone(out[i], at);
    FollowingStarts(toks, x, fold, out, i, tail);
    TextUnfolds(out, i, tail);
    var rest := TextFrom(out, i + 1, tail);
    NumeralMark(out[i] + rest, at);
    RestOfText(out, i, tail);
    MoreDigits(out[i], rest);
  }

  lemma RestOfText(out: seq<Text>, i: nat, tail: Text)
    requires i < |out|
    ensures TextFrom(out, i + 1, tail) == Concat(out[i+1..]) + tail
  {}

  lemma NoOpenNumeral(tok: Text)
    requires IsNumeral(tok)
    ensures tok != OPEN
  {}

  lemma SaneNumeral(tok: Text)
    requires Sane(tok) && IsNumeral(tok)
    ensures IsPatternToken(tok)
  {
    if t :| AllPlain(t) && (tok == t || tok == FoldLetters(t)) { FoldLettersShape(t); }
  }

  lemma MoreDigits(tok: Text, rest: Text)
    requires IsPatternToken(tok) && IsNumeral(tok) && StartsDigit(rest)
    ensures var s := tok + rest; s[1..1 + DecimalRun(s[1..])] != tok[1..]
  {
    var s := tok + rest;
    assert s[1..] == tok[1..] + rest;
    DecimalRunOfPrefix(tok[1..], rest);
  }

  lemma ParenthesisGoesOn(toks: seq<Text>, x: nat, fold: bool, out: seq<Text>, i: nat, at: nat, tail: Text)
    requires Tokenised(toks) && Rewritten(toks, x, fold) == Ok(out) && i < |toks| && SoundBefore(toks, i)
    requires tail != [] && tail[0] == 41
    requires toks[i] == OPEN && Referenced(toks, Opens(toks, i) + 1) && StartsGroup(Following(toks, i))
    ensures |out| == |toks|
    ensures Carried(toks, x, fold, out[i], i, at) != [] && Scan(TextFrom(out, i, tail), at) != []
    ensures Scan(TextFrom(out, i, tail), at)[0] != Carried(toks, x, fold, out[i], i, at)[0]
  {
    hide Rewritten, NumericValue, NumberOf, Decimal, Referenced, Opens, Scan, Sane, PatternTokenLength, WithCharacters, WithoutCarets,
         EncodeEscape, FoldToken, FoldLetters, StartsDigit, Following, Concat, IsDigit, IsLetter, TextFrom;
    OpenIsNotNumeric();
    OtherToken(toks, x, fold, out, i);
    FollowingStarts(toks, x, fold, out, i, tail);
    TextUnfolds(out, i, tail);
    RestOfText(out, i, tail);
    var rest := TextFrom(out, i + 1, tail);
    SyntaxMark(OPEN + rest, at);
    SyntaxMark(OPEN, at);
    assert (OPEN + rest)[1..] == rest && OPEN[1..] == [];
  }

  /** A rewritten pattern reads as meant if and only if none of its tokens breaks it. */
  lemma {:induction false} PatternReads(toks: seq<Text>, x: nat, fold: bool, out: seq<Text>, i: nat, at: nat, tail: Text, after: seq<Mark>)
    requires Tokenised(toks) && Rewritten(toks, x, fold) == Ok(out) && i <= |toks| == |out| && SoundBefore(toks, i)
    requires tail != [] && tail[0] == 41
    ensures Sound(toks) ==>
              Scan(TextFrom(out, i, tail), at)
              == WantedFrom(toks, x, fold, out, i, at) + Scan(tail, at + |Concat(out[i..])|)
    ensures !Sound(toks) && AllFrom(after, at + |Concat(out[i..])|) ==>
              Scan(TextFrom(out, i, tail), at) != WantedFrom(toks, x, fold, out, i, at) + after
    decreases |toks| - i
  {
    hide Rewritten, Breaks, Wanted, Carried, Scan, Tokenised;
    if i == |toks| {
      assert out[i..] == [] && TextFrom(out, i, tail) == tail;
    } else {
      var later, here := WantedFrom(toks, x, fold, out, i + 1, at + |out[i]|), Wanted(toks, x, fold, i, at);
      CarriedIsWanted(toks, x, fold, out, i, at);
      assert out[i..][1..] == out[i+1..];
      Reassociate(here, later, after);
      Reassociate(here, later, Scan(tail, at + |Concat(out[i..])|));
      if Breaks(toks, i) {
        WantedIsFrom(toks, x, fold, out, i + 1, at + |out[i]|);
        BadToken(toks, x, fold, out, i, at, tail, later + after);
      } else {
        GoodToken(toks, x, fold, out, i, at, tail);
        PatternReads(toks, x, fold, out, i + 1, at + |out[i]|, tail, after);
        SameBehind(here, Scan(TextFrom(out, i + 1, tail), at + |out[i]|), later + after);
      }
    }
  }

  lemma SameBehind<T>(a: seq<T>, b: seq<T>, c: seq<T>)
    ensures a + b == a + c <==> b == c
  {
    if a + b == a + c { assert b == (a + b)[|a|..] && c == (a + c)[|a|..]; }
  }
}
