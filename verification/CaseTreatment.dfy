/** Whether the tokens of a combined pattern accept what they accepted in their own
    patterns, each with its own flag for case. */
module CaseTreatment {
  import opened Prelude
  import opened EscapeCodec
  import opened EscapeMeaning
  import opened CodeRanges
  import opened CharClass
  import opened ClassReading
  import opened ClassFolding
  import opened GroupNumbering
  import opened PatternText
  import opened CombinedPattern
  import opened JoinedPatterns
  import opened OctalEscapes
  import opened TokenReading

  // ---- what combining does about case ----

  /** A case-sensitive pattern without the flag, or with it; and one that ignores case
      with the flag, or without it but folded. */
  datatype Mode = Exact | Flagged | Ignoring | Folded

  predicate Own(m: Mode) { m.Ignoring? || m.Folded? }

  predicate Now(m: Mode) { m.Flagged? || m.Ignoring? }

  /** A number that refers to no group: its octal code is the decimal one, or one of the
      same character in another case where all its cases are meant and accepted. */
  ghost predicate NumberKeeps(canon: CodeUnit -> CodeUnit, tok: Text, m: Mode)
    requires tok != [] && IsDecimal(tok[1..])
  {
    var t, w := EscapedText(tok[1..]), NumericValue(tok) % 0x10000;
    |t| == 1 && if Own(m) && (Now(m) || IsLetter(w)) then canon(t[0]) == canon(w)
                else t[0] == w && (Own(m) != Now(m) ==> !HasCase(canon, w))
  }

  /** What the folded class accepts are all cases of what the class has. */
  ghost predicate ClassFolds(canon: CodeUnit -> CodeUnit, tok: Text)
    requires |tok| >= 2
  {
    var f := FoldClass(tok);
    f.Ok? && |f.value| >= 2
    && forall c: CodeUnit :: RangesTake(canon, true, JsRanges(ItemTokens(tok)), c) <==> Has(f.value, c)
  }

  /** What a caller can check of token `i` in its pattern:
      a back-reference needs the flag its pattern has;
      another number the same octal and decimal code;
      `\c` no folding, and behind it a letter just if the rewriting leaves one there;
      a class to be folded right;
      text that is folded no case but that of ASCII letters;
      and any other token, and all text and classes that get a flag they did not
      have, no case at all. */
  ghost predicate Keeps(canon: CodeUnit -> CodeUnit, toks: seq<Text>, i: nat, m: Mode)
    requires i < |toks|
  {
    var tok := toks[i];
    if NumericValue(tok) > 0 then
      if RefersTo(toks, i) then IsBackRef(toks, i) && Own(m) == Now(m)
      else IsOutOfRange(toks, i) && NumberKeeps(canon, tok, m)
    else if tok == CONTROL_TOKEN then
      m != Folded && (Led(toks, i) <==> StartsLetter(Following(toks, i))) && (m == Flagged ==> Led(toks, i))
    else if m == Folded && |tok| >= 2 && tok[0] == 91 then ClassFolds(canon, tok)
    else if m == Folded && tok != [] && IsPlain(tok[0]) then
      forall j :: 0 <= j < |tok| ==> IsOperator(tok[j]) || IsLetter(tok[j]) || !HasCase(canon, tok[j])
    else Own(m) == Now(m) || !SomeMatters(canon, TokenElems(tok, Led(toks, i)))
  }

  /** The token means in the combined pattern what it meant in its own. */
  ghost predicate TokenKept(canon: CodeUnit -> CodeUnit, toks: seq<Text>, out: seq<Text>, i: nat, m: Mode)
    requires i < |toks| == |out|
  {
    AllSame(canon, Meant(toks, i), Own(m), TokenElems(out[i], Led(out, i)), Now(m))
  }

  // ---- numbers ----

  lemma EscapedSome(digits: Text)
    requires IsDecimal(digits)
    ensures |EscapedText(digits)| >= 1
  {}

  lemma BackRefElems(toks: seq<Text>, x: nat, fold: bool, out: seq<Text>, i: nat, led: bool)
    requires Rewritten(toks, x, fold) == Ok(out) && i < |toks| && IsBackRef(toks, i)
    ensures |out| == |toks| && TokenElems(out[i], led) == [Reference]
  {
    hide Rewritten, NumericValue, Decimal, References, TextElems;
    var v := NumericValue(toks[i]);
    ReferenceToken(toks, x, fold, out, i);
    BackRefReferences(toks, i, |toks|);
    assert NumberOf(toks, x, v) > 0;
    NumberedEscapeReads(NumberOf(toks, x, v));
    NumeralElems(out[i], led);
  }

  lemma NumeralElems(tok: Text, led: bool)
    requires IsNumeral(tok) && NumericValue(tok) > 0
    ensures TokenElems(tok, led) == [Reference]
  {}

  /** What a number that is no back-reference is read as when it is rewritten. */
  function NumberElem(w: CodeUnit, fold: bool): Elem {
    if fold && IsLetter(w) then InBrackets(LetterClass(w))
    else if IsOperator(w) && w != CARET then Sign([w])
    else OneUnit(w)
  }

  lemma EncodedElems(v: nat, led: bool)
    ensures TokenElems(EncodeEscape(v), led) == [NumberElem(v % 0x10000, false)]
  {
    hide TokenElems, TextElems;
    var e, w := EncodeEscape(v), v % 0x10000;
    if v < 32 {
      ControlElem(v, led);
    } else if e != [w] {
      EscapedElem(w, led);
    } else {
      UnitAlone(w, led);
    }
  }

  lemma ControlElem(v: nat, led: bool)
    requires v < 32
    ensures TokenElems(EncodeEscape(v), led) == [OneUnit(v)]
  {
    var e, t: Text := EncodeEscape(v), [HexDigit(v / 16), HexDigit(v % 16)];
    assert e == [BACKSLASH, 120] + t && e[2..] == t;
    HexPair(v / 16, v % 16);
    ParsedIsNumber(t, 16);
    DigitsAgree(t[0], 16);
  }

  lemma EscapedElem(w: CodeUnit, led: bool)
    requires w in {BACKSLASH, HYPHEN, CLOSE_BRACKET, CARET}
    ensures TokenElems([BACKSLASH, w], led) == [OneUnit(w)]
  {}

  lemma UnitAlone(w: CodeUnit, led: bool)
    requires w !in {BACKSLASH, CARET}
    ensures TokenElems([w], led) == [UnitElem(w)]
  {
    assert [w][1..] == [];
    if w !in {40, 41} { assert TextElems([w]) == [UnitElem(w)] + TextElems([w][1..]); }
  }

  lemma FoldedLetterElems(w: CodeUnit, led: bool)
    requires IsLetter(w)
    ensures FoldLetters([w]) == LetterClass(w) && TokenElems(LetterClass(w), led) == [InBrackets(LetterClass(w))]
  {
    var e := LetterClass(w);
    assert [w][1..] == [];
    assert FoldLetters([w]) == e + [];
    LetterClassEnds(w, []);
    assert e + [] == e;
  }

  lemma LetterClassEnds(w: CodeUnit, rest: Text)
    requires IsLetter(w)
    ensures TextElems(LetterClass(w) + rest) == [InBrackets(LetterClass(w))] + TextElems(rest)
  {
    var p := LetterClass(w) + rest;
    assert p[1..][1..][1..] == [CLOSE_BRACKET] + rest;
    assert BodyEnd(p[1..][1..][1..]) == 1;
    assert BodyEnd(p[1..][1..]) == 2 && BodyEnd(p[1..]) == 3;
    assert p[..4] == LetterClass(w) && p[4..] == rest;
  }

  lemma SyntaxOut(toks: seq<Text>, x: nat, fold: bool, out: seq<Text>, i: nat)
    requires Rewritten(toks, x, fold) == Ok(out) && i < |toks| && IsOutOfRange(toks, i)
    requires NumericValue(toks[i]) % 0x10000 in {40, 41, 91, 124}
    ensures |out| == |toks|
    ensures var w := NumericValue(toks[i]) % 0x10000; out[i] == [w] || (w == 40 && out[i] == NON_CAPTURE)
  {
    hide Rewritten, NumericValue, FoldToken, RenumberedToken, Unfolded;
    OutToken(toks, x, fold, out, i);
    UnfoldedIs(toks, x, i);
    RenumberedCharacter(toks, x, i);
    EncodedShape(NumericValue(toks[i]));
    if fold { SyntaxUnfolds(Unfolded(toks, x, i), out[i]); }
  }

  lemma SyntaxUnfolds(u: Text, out: Text)
    requires FoldToken(u) == Ok(out) && (u == NON_CAPTURE || (|u| == 1 && u[0] in {40, 41, 91, 124}))
    ensures out == u
  {
    if u == NON_CAPTURE { SyntaxFolds(u); } else { assert u == [u[0]] && u[1..] == []; assert FoldLetters(u) == [u[0]]; }
  }

  lemma SyntaxElems(w: CodeUnit, out: Text, led: bool)
    requires w in {40, 41, 91, 124} && (out == [w] || (w == 40 && out == NON_CAPTURE))
    ensures TokenElems(out, led) == [Sign([w])]
  {
    if w in {91, 124} { assert out[1..] == []; }
  }

  /** A number that is no back-reference, rewritten. */
  lemma NumberElems(toks: seq<Text>, x: nat, fold: bool, out: seq<Text>, i: nat, led: bool)
    requires Rewritten(toks, x, fold) == Ok(out) && i < |toks| && IsOutOfRange(toks, i)
    ensures |out| == |toks| && TokenElems(out[i], led) == [NumberElem(NumericValue(toks[i]) % 0x10000, fold)]
  {
    hide Rewritten, NumericValue, EncodeEscape, TokenElems;
    var v := NumericValue(toks[i]);
    var w := v % 0x10000;
    if w in {40, 41, 91, 124} {
      SyntaxOut(toks, x, fold, out, i);
      SyntaxElems(w, out[i], led);
    } else {
      CharacterOut(toks, x, fold, out, i);
      EncodedElems(v, led);
      if fold && IsLetter(w) {
        LettersArePlain(v);
        FoldedLetterElems(w, led);
      }
    }
  }

  /** A number that comes out as an operator never meant that character. */
  lemma OperatorIsOther(canon: CodeUnit -> CodeUnit, tok: Text)
    requires FoldsAscii(canon) && tok != [] && tok[0] == BACKSLASH && IsDecimal(tok[1..]) && NumericValue(tok) > 0
    requires IsOperator(NumericValue(tok) % 0x10000)
    ensures |EscapedText(tok[1..])| == 1 ==> canon(EscapedText(tok[1..])[0]) != canon(NumericValue(tok) % 0x10000)
  {
    hide EscapedText, IsDecimal, DigitsValue;
    var t, w := EscapedText(tok[1..]), NumericValue(tok) % 0x10000;
    NumberKeepsCharacter(tok[1..]);
    assert |t| == 1 ==> t == [t[0]];
  }

  lemma NumberSame(canon: CodeUnit -> CodeUnit, tok: Text, m: Mode)
    requires FoldsAscii(canon) && tok != [] && tok[0] == BACKSLASH && IsDecimal(tok[1..]) && NumericValue(tok) > 0
    ensures AllSame(canon, Units(EscapedText(tok[1..])), Own(m), [NumberElem(NumericValue(tok) % 0x10000, m == Folded)], Now(m))
       <==> NumberKeeps(canon, tok, m)
  {
    hide EscapedText, IsDecimal, NumericValue, SameUnit, HasCase, FoldsAscii;
    var t, w := EscapedText(tok[1..]), NumericValue(tok) % 0x10000;
    if |t| == 1 {
      var a, b := OneUnit(t[0]), NumberElem(w, m == Folded);
      if m == Folded && IsLetter(w) {
        forall c ensures Takes(canon, Now(m), b, c) <==> SameUnit(canon, true, w, c) { LetterClassTakes(canon, Now(m), w, c); }
        UnitsSame(canon, t[0], Own(m), w, true);
        TakesUnits(canon, t[0], Own(m), b, Now(m), w, true);
      } else if IsOperator(w) && w != CARET {
        OperatorIsOther(canon, tok);
      } else {
        forall c ensures Takes(canon, Now(m), b, c) <==> SameUnit(canon, Now(m), w, c) {}
        UnitsSame(canon, t[0], Own(m), w, Now(m));
        TakesUnits(canon, t[0], Own(m), b, Now(m), w, Now(m));
      }
    }
  }

  lemma TakesUnits(canon: CodeUnit -> CodeUnit, u: CodeUnit, ignore: bool, b: Elem, ignore': bool, w: CodeUnit, all: bool)
    requires forall c :: Takes(canon, ignore', b, c) <==> SameUnit(canon, all, w, c)
    requires IsCharacter(b)
    ensures Same(canon, OneUnit(u), ignore, b, ignore')
       <==> forall c :: SameUnit(canon, ignore, u, c) <==> SameUnit(canon, all, w, c)
  {
    hide SameUnit;
    if Same(canon, OneUnit(u), ignore, b, ignore') {
      forall c ensures SameUnit(canon, ignore, u, c) <==> SameUnit(canon, all, w, c) {
        assert Takes(canon, ignore, OneUnit(u), c) <==> Takes(canon, ignore', b, c);
      }
    }
  }

  // ---- letters behind a token ----

  /** The texts start with a letter both or neither, and are empty both or neither. */
  predicate LetterAlike(a: Text, b: Text) { (a == [] <==> b == []) && (StartsLetter(a) <==> StartsLetter(b)) }

  lemma {:induction false} LettersAlike(a: seq<Text>, b: seq<Text>)
    requires |a| == |b| && forall j :: 0 <= j < |a| ==> LetterAlike(a[j], b[j])
    ensures StartsLetter(Concat(a)) <==> StartsLetter(Concat(b))
  {
    hide IsLetter;
    if a != [] {
      assert LetterAlike(a[0], b[0]);
      assert forall j :: 0 <= j < |a| - 1 ==> LetterAlike(a[1..][j], b[1..][j]) by {
        forall j | 0 <= j < |a| - 1 ensures LetterAlike(a[1..][j], b[1..][j]) { assert LetterAlike(a[j + 1], b[j + 1]); }
      }
      LettersAlike(a[1..], b[1..]);
    }
  }

  lemma UnfoldedLetterAlike(toks: seq<Text>, x: nat, i: nat)
    requires i < |toks|
    ensures LetterAlike(Unfolded(toks, x, i), WithoutCarets(WithCharacters(toks))[i])
  {
    hide NumericValue, NumberOf, Decimal, Referenced, Opens, EncodeEscape, CharacterToken, RenumberedToken, StartsLetter;
    RenumberedLetterAlike(toks, x, i);
    if i + 1 < |toks| { RenumberedLooksLike(toks, x, i + 1); }
    RenumberedLooksLike(toks, x, i);
  }

  lemma RenumberedLetterAlike(toks: seq<Text>, x: nat, i: nat)
    requires i < |toks|
    ensures LetterAlike(RenumberedToken(toks, x, i), WithCharacters(toks)[i])
  {
    hide NumberOf, Decimal, Referenced, Opens, EncodeEscape;
    if IsBackRef(toks, i) { assert toks[i][0] == BACKSLASH; }
  }

  /** Without folding, a letter stands behind a token just if the first pass and the
      dropped carets leave one. */
  lemma LedUnfolded(toks: seq<Text>, x: nat, out: seq<Text>, i: nat)
    requires Rewritten(toks, x, false) == Ok(out) && i < |toks|
    ensures |out| == |toks| && (Led(out, i) <==> StartsLetter(Following(toks, i)))
  {
    hide LetterAlike, WithCharacters, WithoutCarets, StartsLetter, Rewritten, Unfolded;
    OutToken(toks, x, false, out, i);
    var mid := WithoutCarets(WithCharacters(toks));
    assert |mid| == |toks| by { SameCount(toks); }
    var a, b := out[i+1..], mid[i+1..];
    forall j | 0 <= j < |a| ensures LetterAlike(a[j], b[j]) {
      OutToken(toks, x, false, out, i + 1 + j);
      UnfoldedLetterAlike(toks, x, i + 1 + j);
    }
    LettersAlike(a, b);
  }

  lemma FoldedStart(tok: Text, out: Text)
    requires FoldToken(tok) == Ok(out)
    ensures !StartsLetter(out)
  {
    if |tok| >= 2 && tok[0] == 91 { FoldedClassIsToken(tok, out); }
  }

  lemma {:induction false} NoLetterStarts(ts: seq<Text>)
    requires forall j :: 0 <= j < |ts| ==> !StartsLetter(ts[j])
    ensures !StartsLetter(Concat(ts))
  {
    hide IsLetter;
    if ts != [] {
      assert !StartsLetter(ts[0]);
      NoLetterStarts(ts[1..]);
    }
  }

  lemma LedFolded(toks: seq<Text>, x: nat, out: seq<Text>, i: nat)
    requires Rewritten(toks, x, true) == Ok(out) && i < |toks|
    ensures |out| == |toks| && !Led(out, i)
  {
    hide StartsLetter, Rewritten, Unfolded, FoldToken;
    OutToken(toks, x, true, out, i);
    var a := out[i+1..];
    forall j | 0 <= j < |a| ensures !StartsLetter(a[j]) {
      OutToken(toks, x, true, out, i + 1 + j);
      FoldedStart(Unfolded(toks, x, i + 1 + j), out[i + 1 + j]);
    }
    NoLetterStarts(a);
  }

  // ---- tokens that are no numbers ----

  lemma GroupElems(led: bool)
    ensures TokenElems(OPEN, led) == TokenElems(NON_CAPTURE, led) == [Sign(OPEN)]
  {}

  /** What becomes of a token that is no number before case is folded. */
  lemma OtherUnfolded(toks: seq<Text>, x: nat, i: nat, led: bool)
    requires i < |toks| && NumericValue(toks[i]) == 0
    ensures var u := Unfolded(toks, x, i);
            if toks[i] == OPEN then u in {OPEN, NON_CAPTURE}
            else u == toks[i] || (toks[i] == CARET_TOKEN && u == [])
  {
    hide NumericValue, Referenced, Opens, WithCharacters, EncodeEscape;
    UnfoldedIs(toks, x, i);
    if toks[i] == OPEN { OpenStays(toks, i); } else { RenumberedOther(toks, x, i); }
  }

  lemma UnledElems(tok: Text, led: bool, led': bool)
    requires tok != CONTROL_TOKEN && (tok == [] || IsPatternToken(tok))
    ensures TokenElems(tok, led) == TokenElems(tok, led')
  {
    assert |tok| == 2 ==> tok == [tok[0], tok[1]];
  }

  /** A token that is neither a number, `\c`, nor folded. */
  lemma UnchangedKept(canon: CodeUnit -> CodeUnit, tok: Text, out: Text, led: bool, led': bool, m: Mode)
    requires IsPatternToken(tok) && tok != CONTROL_TOKEN
    requires out == tok || (tok == CARET_TOKEN && out == []) || (tok == OPEN && out == NON_CAPTURE)
    ensures AllSame(canon, TokenElems(tok, led), Own(m), TokenElems(out, led'), Now(m))
       <==> Own(m) == Now(m) || !SomeMatters(canon, TokenElems(tok, led))
  {
    hide TokenElems, SomeMatters, AllSame, IsPatternToken, Own, Now;
    UnledElems(tok, led, led');
    TokenWellFormed(tok, led);
    ElemsFlagged(canon, TokenElems(tok, led), Own(m), Now(m));
    assert TokenElems(out, led') == TokenElems(tok, led) by {
      if tok == CARET_TOKEN { NoElems(led); NoElems(led'); }
      if tok == OPEN { GroupElems(led); GroupElems(led'); }
    }
  }

  lemma NoElems(led: bool)
    ensures TokenElems([], led) == TokenElems(CARET_TOKEN, led) == []
  {}

  lemma ControlElems(led: bool)
    ensures TokenElems(CONTROL_TOKEN, led) == if led then [Sign(CONTROL_TOKEN)] else [OneUnit(BACKSLASH), OneUnit(99)]
  {}

  lemma LetterHasCase(canon: CodeUnit -> CodeUnit, c: CodeUnit)
    requires FoldsAscii(canon)
    ensures IsLetter(c) ==> HasCase(canon, c)
    ensures c < 128 && !IsLetter(c) ==> !HasCase(canon, c)
  {
    if IsLetter(c) { assert SwapCase(c) != c && canon(c) == canon(SwapCase(c)); }
  }

  /** `\c`, which takes a letter along or is two characters. */
  lemma ControlKept(canon: CodeUnit -> CodeUnit, led: bool, led': bool, m: Mode)
    requires FoldsAscii(canon)
    ensures AllSame(canon, TokenElems(CONTROL_TOKEN, led), Own(m), TokenElems(CONTROL_TOKEN, led'), Now(m))
       <==> (led <==> led') && (led || Own(m) == Now(m))
  {
    hide FoldsAscii, Takes, HasCase;
    ControlElems(led);
    ControlElems(led');
    LetterHasCase(canon, 99);
    ElemFlagged(canon, OneUnit(BACKSLASH), Own(m), Now(m));
    ElemFlagged(canon, OneUnit(99), Own(m), Now(m));
    LetterHasCase(canon, BACKSLASH);
    var two: seq<Elem> := [OneUnit(BACKSLASH), OneUnit(99)];
    assert two[0] == OneUnit(BACKSLASH) && two[1] == OneUnit(99);
    if !led && !led' {
      assert AllSame(canon, two, Own(m), two, Now(m)) <==> Same(canon, two[0], Own(m), two[0], Now(m)) && Same(canon, two[1], Own(m), two[1], Now(m));
    }
  }

  // ---- folded tokens ----

  lemma ClassElems(tok: Text, led: bool)
    requires IsPatternToken(tok) && tok[0] == 91
    ensures |tok| >= 2 && TokenElems(tok, led) == [InBrackets(tok)]
  {
    var n := |tok|;
    assert BodyEnd(tok[1..]) == n - 1 > 0;
    assert tok[..n] == tok && tok[n..] == [];
    assert TextElems(tok) == [InBrackets(tok[..n])] + TextElems(tok[n..]);
  }

  lemma ClassesSame(canon: CodeUnit -> CodeUnit, e: Text, f: Text)
    requires |e| >= 2 && |f| >= 2 && Negated(f) == Negated(e)
    ensures Same(canon, InBrackets(e), true, InBrackets(f), false)
       <==> forall c: CodeUnit :: RangesTake(canon, true, JsRanges(ItemTokens(e)), c) <==> Has(f, c)
  {
    hide RangesTake, ItemTokens, JsRanges, Negated, InRanges;
    var a, b := InBrackets(e), InBrackets(f);
    RangesFlagged(canon, JsRanges(ItemTokens(f)));
    forall c: CodeUnit
      ensures (Takes(canon, true, a, c) <==> Takes(canon, false, b, c)) <==> (RangesTake(canon, true, JsRanges(ItemTokens(e)), c) <==> Has(f, c)) {}
    if Same(canon, a, true, b, false) {
      forall c: CodeUnit ensures RangesTake(canon, true, JsRanges(ItemTokens(e)), c) <==> Has(f, c) {
        assert Takes(canon, true, a, c) <==> Takes(canon, false, b, c);
      }
    }
  }

  lemma OneSame(canon: CodeUnit -> CodeUnit, a: Elem, ignore: bool, b: Elem, ignore': bool)
    ensures AllSame(canon, [a], ignore, [b], ignore') <==> Same(canon, a, ignore, b, ignore')
  {
    hide Same;
    assert [a][0] == a && [b][0] == b;
  }

  /** A class that is folded. */
  lemma ClassKept(canon: CodeUnit -> CodeUnit, tok: Text, out: Text, led: bool, led': bool)
    requires IsPatternToken(tok) && tok[0] == 91 && |tok| >= 2 && FoldClass(tok) == Ok(out)
    ensures AllSame(canon, TokenElems(tok, led), true, TokenElems(out, led'), false) <==> ClassFolds(canon, tok)
  {
    hide TokenElems, FoldClass, RangesTake, Has, ItemTokens, JsRanges, PatternTokenLength, Negated, AllSame, Same, ParseItems;
    ClassElems(tok, led);
    FoldedClassIsToken(tok, out);
    ClassElems(out, led');
    FoldedHas(tok, out);
    ClassesSame(canon, tok, out);
    OneSame(canon, InBrackets(tok), true, InBrackets(out), false);
  }

  /** A unit of plain text, folded. */
  function FoldedElem(c: CodeUnit): Elem { if IsLetter(c) then InBrackets(LetterClass(c)) else UnitElem(c) }

  lemma {:induction false} PlainElems(t: Text)
    requires AllPlain(t)
    ensures |TextElems(t)| == |TextElems(FoldLetters(t))| == |t|
    ensures forall j :: 0 <= j < |t| ==> TextElems(t)[j] == UnitElem(t[j]) && TextElems(FoldLetters(t))[j] == FoldedElem(t[j])
  {
    hide LetterClass;
    if t != [] {
      var rest := FoldLetters(t[1..]);
      PlainElems(t[1..]);
      FoldedUnitEnds(t[0], rest);
      assert FoldLetters(t) == FoldedUnit(t[0]) + rest;
      assert TextElems(FoldLetters(t)) == [FoldedElem(t[0])] + TextElems(rest);
      assert TextElems(t) == [UnitElem(t[0])] + TextElems(t[1..]);
    }
  }

  lemma FoldedUnitEnds(c: CodeUnit, rest: Text)
    requires IsPlain(c)
    ensures TextElems(FoldedUnit(c) + rest) == [FoldedElem(c)] + TextElems(rest)
  {
    if IsLetter(c) { LetterClassEnds(c, rest); } else { assert ([c] + rest)[1..] == rest; }
  }

  lemma UnitFolded(canon: CodeUnit -> CodeUnit, c: CodeUnit)
    requires FoldsAscii(canon)
    ensures Same(canon, UnitElem(c), true, FoldedElem(c), false) <==> IsOperator(c) || IsLetter(c) || !HasCase(canon, c)
  {
    hide HasCase, SameUnit, FoldsAscii;
    if IsLetter(c) {
      forall d ensures Takes(canon, true, UnitElem(c), d) <==> Takes(canon, false, FoldedElem(c), d) { LetterClassTakes(canon, false, c, d); }
    } else if !IsOperator(c) {
      ElemFlagged(canon, OneUnit(c), true, false);
    }
  }

  /** Plain text whose letters are folded. */
  lemma PlainKept(canon: CodeUnit -> CodeUnit, tok: Text, led: bool, led': bool)
    requires FoldsAscii(canon) && IsPatternToken(tok) && IsPlain(tok[0])
    ensures AllSame(canon, TokenElems(tok, led), true, TokenElems(FoldLetters(tok), led'), false)
       <==> forall j :: 0 <= j < |tok| ==> IsOperator(tok[j]) || IsLetter(tok[j]) || !HasCase(canon, tok[j])
  {
    hide Same, HasCase, FoldsAscii, PatternTokenLength, TextElems, FoldLetters, LetterClass, IsLetter, IsOperator;
    PlainToken(tok);
    PlainElems(tok);
    TextOnly(tok, led);
    FoldLettersShape(tok);
    TextOnly(FoldLetters(tok), led');
    forall j | 0 <= j < |tok|
      ensures Same(canon, TextElems(tok)[j], true, TextElems(FoldLetters(tok))[j], false)
         <==> IsOperator(tok[j]) || IsLetter(tok[j]) || !HasCase(canon, tok[j])
    {
      UnitFolded(canon, tok[j]);
    }
  }

  lemma TextOnly(t: Text, led: bool)
    requires t != [] && t[0] !in {40, 41, 92, 94}
    ensures TokenElems(t, led) == TextElems(t)
  {}

  // ---- every token ----

  lemma NumberTokenKeeps(canon: CodeUnit -> CodeUnit, toks: seq<Text>, x: nat, out: seq<Text>, i: nat, m: Mode)
    requires FoldsAscii(canon) && Rewritten(toks, x, m == Folded) == Ok(out) && i < |toks| && NumericValue(toks[i]) > 0
    ensures |out| == |toks| && (TokenKept(canon, toks, out, i, m) <==> Keeps(canon, toks, i, m))
  {
    hide FoldsAscii, Rewritten, TokenElems, NumberKeeps, EscapedText, DigitsValue, Opens, RefersTo, Led, NumberElem, Own, Now, Takes;
    var digits := toks[i][1..];
    EscapedSome(digits);
    OutToken(toks, x, m == Folded, out, i);
    if IsBackRef(toks, i) {
      BackRefElems(toks, x, m == Folded, out, i, Led(out, i));
    } else {
      NumberElems(toks, x, m == Folded, out, i, Led(out, i));
      NumberIsNoReference(NumericValue(toks[i]) % 0x10000, m == Folded);
      NumberSame(canon, toks[i], m);
    }
  }

  lemma NumberIsNoReference(w: CodeUnit, fold: bool)
    ensures !NumberElem(w, fold).Reference?
  {}

  lemma UnfoldedTokenKeeps(canon: CodeUnit -> CodeUnit, toks: seq<Text>, x: nat, out: seq<Text>, i: nat, m: Mode)
    requires FoldsAscii(canon) && Tokenised(toks) && Rewritten(toks, x, false) == Ok(out) && i < |toks|
    requires m != Folded && NumericValue(toks[i]) == 0
    ensures |out| == |toks| && (TokenKept(canon, toks, out, i, m) <==> Keeps(canon, toks, i, m))
  {
    hide FoldsAscii, Rewritten, NumericValue, TokenElems, AllSame, SomeMatters, Unfolded, Following, PatternTokenLength, Led,
         StartsLetter, HasCase, IsOperator, Opens;
    OutToken(toks, x, false, out, i);
    OtherUnfolded(toks, x, i, false);
    if toks[i] == CONTROL_TOKEN {
      LedUnfolded(toks, x, out, i);
      ControlKept(canon, Led(toks, i), Led(out, i), m);
      assert CONTROL_TOKEN != CARET_TOKEN && CONTROL_TOKEN != OPEN;
    } else {
      UnchangedKept(canon, toks[i], out[i], Led(toks, i), Led(out, i), m);
    }
  }

  /** Folding leaves what is no class and no plain text. */
  lemma SyntaxStays(tok: Text, u: Text, out: Text)
    requires IsPatternToken(tok) && tok[0] in {40, 41, 92, 94} && FoldToken(u) == Ok(out)
    requires if tok == OPEN then u in {OPEN, NON_CAPTURE} else u == tok || (tok == CARET_TOKEN && u == [])
    ensures out == u
  {
    if u != [] && u[0] == BACKSLASH {
      EscapeFolds(u);
    } else {
      SyntaxToken(tok);
      SyntaxFolds(u);
    }
  }

  lemma FoldedTokenKeeps(canon: CodeUnit -> CodeUnit, toks: seq<Text>, x: nat, out: seq<Text>, i: nat)
    requires FoldsAscii(canon) && Tokenised(toks) && Rewritten(toks, x, true) == Ok(out) && i < |toks|
    requires NumericValue(toks[i]) == 0
    ensures |out| == |toks| && (TokenKept(canon, toks, out, i, Folded) <==> Keeps(canon, toks, i, Folded))
  {
    hide FoldsAscii, Rewritten, NumericValue, TokenElems, AllSame, SomeMatters, Unfolded, Following, PatternTokenLength, Led,
         StartsLetter, HasCase, IsOperator, Opens, FoldClass, FoldLetters, ClassFolds;
    OutToken(toks, x, true, out, i);
    OtherUnfolded(toks, x, i, false);
    var tok, u := toks[i], Unfolded(toks, x, i);
    if tok[0] == 91 {
      assert tok != OPEN && tok != CARET_TOKEN && tok != CONTROL_TOKEN;
      ClassTokenLength(tok);
      ClassKept(canon, tok, out[i], Led(toks, i), Led(out, i));
    } else if IsPlain(tok[0]) {
      assert tok != OPEN && tok != CARET_TOKEN && tok != CONTROL_TOKEN;
      PlainKept(canon, tok, Led(toks, i), Led(out, i));
    } else {
      SyntaxStays(tok, u, out[i]);
      if tok == CONTROL_TOKEN {
        LedFolded(toks, x, out, i);
        ControlKept(canon, Led(toks, i), Led(out, i), Folded);
        assert CONTROL_TOKEN != CARET_TOKEN && CONTROL_TOKEN != OPEN;
      } else {
        UnchangedKept(canon, tok, out[i], Led(toks, i), Led(out, i), Folded);
      }
    }
  }

  /** A token means in the combined pattern what it meant in its own if and only if it
      is one that keeps it. */
  lemma TokenKeeps(canon: CodeUnit -> CodeUnit, toks: seq<Text>, x: nat, out: seq<Text>, i: nat, m: Mode)
    requires FoldsAscii(canon) && Tokenised(toks) && Rewritten(toks, x, m == Folded) == Ok(out) && i < |toks|
    ensures |out| == |toks| && (TokenKept(canon, toks, out, i, m) <==> Keeps(canon, toks, i, m))
  {
    hide FoldsAscii, Rewritten, NumericValue, TokenKept, Keeps, PatternTokenLength;
    TokenValue(toks[i]);
    if NumericValue(toks[i]) > 0 {
      NumberTokenKeeps(canon, toks, x, out, i, m);
    } else if m == Folded {
      FoldedTokenKeeps(canon, toks, x, out, i);
    } else {
      UnfoldedTokenKeeps(canon, toks, x, out, i, m);
    }
  }

  /** For a class that the folder reads as JavaScript does, folding is right just if it
      has all cases of its characters that are not ASCII. */
  lemma FaithfulClassFolds(canon: CodeUnit -> CodeUnit, tok: Text)
    requires FoldsAscii(canon) && |tok| >= 2 && FoldClass(tok).Ok? && IsValid(tok) && Faithful(ItemTokens(tok))
    ensures ClassFolds(canon, tok)
       <==> forall c: CodeUnit, d: CodeUnit :: c >= 128 && d >= 128 && Has(tok, c) && canon(c) == canon(d) ==> Has(tok, d)
  {
    hide FoldClass, ItemTokens, JsRanges, Faithful, IsValid, ParseItems, InRanges, SameWhenFolded;
    var f := FoldClass(tok).value;
    FoldClassMeans(tok, f);
    var rs := JsRanges(ItemTokens(tok));
    if ClassFolds(canon, tok) {
      forall c: CodeUnit, d: CodeUnit | c >= 128 && d >= 128 && Has(tok, c) && canon(c) == canon(d) ensures Has(tok, d) {
        assert InRanges(rs, c) && SameUnit(canon, true, c, d);
        assert RangesTake(canon, true, rs, d) && Has(f, d);
        assert SwapCase(d) == d;
      }
    }
    if forall c: CodeUnit, d: CodeUnit :: c >= 128 && d >= 128 && Has(tok, c) && canon(c) == canon(d) ==> Has(tok, d) {
      forall c: CodeUnit ensures RangesTake(canon, true, rs, c) <==> Has(f, c) { OneFolds(canon, tok, f, c); }
    }
  }

  lemma OneFolds(canon: CodeUnit -> CodeUnit, tok: Text, f: Text, c: CodeUnit)
    requires FoldsAscii(canon) && |tok| >= 2 && |f| >= 2 && Folds(tok, f)
    requires forall c: CodeUnit, d: CodeUnit :: c >= 128 && d >= 128 && Has(tok, c) && canon(c) == canon(d) ==> Has(tok, d)
    ensures RangesTake(canon, true, JsRanges(ItemTokens(tok)), c) <==> Has(f, c)
  {
    hide ItemTokens, JsRanges, InRanges;
    var rs := JsRanges(ItemTokens(tok));
    if RangesTake(canon, true, rs, c) {
      var d: CodeUnit :| InRanges(rs, d) && SameUnit(canon, true, d, c);
      assert Has(tok, d);
      if c < 128 || d < 128 { assert d == c || d == SwapCase(c); }
    }
    if Has(f, c) {
      var d: CodeUnit := if Has(tok, c) then c else SwapCase(c);
      assert InRanges(rs, d) && SameUnit(canon, true, d, c);
    }
  }

  // ---- every pattern ----

  /** What combining does about the case of pattern `k`. */
  function ModeOf(ps: seq<Pattern>, k: nat): Mode
    requires k < |ps|
  {
    if ps[k].ignoreCase then (if Mixed(ps) then Folded else Ignoring)
    else if !Mixed(ps) && AnyIgnores(ps) then Flagged
    else Exact
  }

  /** It is what the method does: fold, and set the flag of the joined pattern. */
  lemma ModeIsMethod(ps: seq<Pattern>, k: nat)
    requires k < |ps|
    ensures Own(ModeOf(ps, k)) == ps[k].ignoreCase
    ensures Now(ModeOf(ps, k)) == (!Mixed(ps) && AnyIgnores(ps))
    ensures (ModeOf(ps, k) == Folded) == FoldFlags(ps)[k]
  {
    if ps[k].ignoreCase { assert AnyIgnores(ps); }
  }

  ghost predicate PatternKept(canon: CodeUnit -> CodeUnit, toks: seq<Text>, out: seq<Text>, m: Mode) {
    |out| == |toks| && forall i :: 0 <= i < |toks| ==> TokenKept(canon, toks, out, i, m)
  }

  ghost predicate PatternKeeps(canon: CodeUnit -> CodeUnit, toks: seq<Text>, m: Mode) {
    forall i :: 0 <= i < |toks| ==> Keeps(canon, toks, i, m)
  }

  lemma OnePatternKeeps(canon: CodeUnit -> CodeUnit, ps: seq<Pattern>, outs: seq<seq<Text>>, k: nat)
    requires FoldsAscii(canon) && AllRewritten(TokenLists(ps), FoldFlags(ps), outs) && k < |ps|
    ensures PatternKept(canon, PatternTokens(ps[k].source), outs[k], ModeOf(ps, k))
       <==> PatternKeeps(canon, PatternTokens(ps[k].source), ModeOf(ps, k))
  {
    hide FoldsAscii, Rewritten, Tokenised, TokenKept, Keeps, ModeOf, Mixed, PatternTokens, CounterBefore, Own, Now;
    var tokss := TokenLists(ps);
    ModeIsMethod(ps, k);
    assert PatternRewritten(tokss, FoldFlags(ps), outs, k) && Tokenised(tokss[k]);
    forall i | 0 <= i < |tokss[k]|
      ensures TokenKept(canon, tokss[k], outs[k], i, ModeOf(ps, k)) <==> Keeps(canon, tokss[k], i, ModeOf(ps, k))
    {
      TokenKeeps(canon, tokss[k], CounterBefore(tokss, k), outs[k], i, ModeOf(ps, k));
    }
  }

  /** Every token of every pattern accepts in the combined pattern what it accepted in its
      own, if and only if every token is one that keeps it. */
  lemma CombiningKeepsCase(canon: CodeUnit -> CodeUnit, ps: seq<Pattern>, outs: seq<seq<Text>>)
    requires FoldsAscii(canon) && AllRewritten(TokenLists(ps), FoldFlags(ps), outs)
    ensures (forall k :: 0 <= k < |ps| ==> PatternKept(canon, PatternTokens(ps[k].source), outs[k], ModeOf(ps, k)))
       <==> (forall k :: 0 <= k < |ps| ==> PatternKeeps(canon, PatternTokens(ps[k].source), ModeOf(ps, k)))
  {
    hide FoldsAscii, PatternKept, PatternKeeps, PatternTokens, ModeOf, Rewritten;
    forall k | 0 <= k < |ps|
      ensures PatternKept(canon, PatternTokens(ps[k].source), outs[k], ModeOf(ps, k))
         <==> PatternKeeps(canon, PatternTokens(ps[k].source), ModeOf(ps, k))
    {
      OnePatternKeeps(canon, ps, outs, k);
    }
  }
}
