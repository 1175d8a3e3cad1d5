/** Which characters the tokens of a pattern accept, with the flag for case or without.
    Tokens are read as section 22.2 of ECMA-262 reads them and, for escapes that have
    no meaning of their own, as section B.1.4 does. Case folding is a parameter: a map
    of every character to the one that stands for all its cases. */
module TokenReading {
  import opened Prelude
  import opened EscapeCodec
  import opened EscapeMeaning
  import opened CodeRanges
  import opened CharClass
  import opened ClassReading
  import opened ClassFolding
  import opened GroupNumbering
  import opened PatternText
  import opened CombinedPattern
  import opened OctalEscapes

  // ---- what a token is read as ----

  /** One character, a class, an escape for a set by its letter, a back-reference, or a
      sign that stands for no character. */
  datatype Elem = OneUnit(c: CodeUnit) | InBrackets(e: Text) | AnyOf(letter: int) | Reference | Sign(t: Text)

  /** What stands for something else than itself outside classes: `$ ( ) * + . ? [ ^ { | }`. */
  predicate IsOperator(c: CodeUnit) { c in {36, 40, 41, 42, 43, 46, 63, 91, 94, 123, 124, 125} }

  function UnitElem(c: CodeUnit): Elem { if IsOperator(c) then Sign([c]) else OneUnit(c) }

  /** Text and classes, one behind the other. */
  function TextElems(t: Text): seq<Elem>
    decreases |t|
  {
    if t == [] then []
    else if t[0] == 91 && BodyEnd(t[1..]) > 0 then
      var n := 1 + BodyEnd(t[1..]);
      [InBrackets(t[..n])] + TextElems(t[n..])
    else [UnitElem(t[0])] + TextElems(t[1..])
  }

  function Units(t: Text): (s: seq<Elem>)
    ensures |s| == |t| && forall j :: 0 <= j < |t| ==> s[j] == OneUnit(t[j])
  {
    seq(|t|, j requires 0 <= j < |t| => OneUnit(t[j]))
  }

  /** `\c` takes a letter behind it along, if there is one. */
  predicate StartsLetter(t: Text) { t != [] && IsLetter(t[0]) }

  predicate IsSetLetter(c: int) { c in {100, 115, 119, 68, 83, 87} }

  /** The character of `\xHH` or `\uHHHH`. */
  function HexElem(tok: Text): Elem
    requires |tok| > 1
  {
    if 2 < |tok| <= 6 && Digit(tok[2]) < 16 then
      ParsedIsNumber(tok[2..], 16);
      ParseIntBound(tok[2..], 16);
      OneUnit(Number(tok[2..], 16, 0))
    else OneUnit(tok[1])
  }

  /** An escape; `led` says that a letter stands behind it. */
  function EscapeElems(tok: Text, led: bool): seq<Elem>
    requires |tok| > 1
  {
    var c := tok[1];
    if IsDigit(c) then
      if NumericValue(tok) == 0 && IsDecimal(tok[1..]) then Units(EscapedText(tok[1..])) else [Reference]
    else if c in {98, 66} then [Sign(tok)]
    else if c == 99 then (if led then [Sign(tok)] else [OneUnit(BACKSLASH), OneUnit(c)])
    else if IsSetLetter(c) then [AnyOf(c)]
    else if c in {117, 120} then [HexElem(tok)]
    else if ControlCode(c).Some? then [OneUnit(ControlCode(c).value)]
    else [OneUnit(c)]
  }

  /** A token. Groups that capture and groups that do not are the same sign, and the
      assertion of the start is none, for the rewriting changes these. */
  function TokenElems(tok: Text, led: bool): seq<Elem> {
    if tok == [] || tok == CARET_TOKEN then []
    else if tok[0] == BACKSLASH then (if |tok| > 1 then EscapeElems(tok, led) else [Sign(tok)])
    else if tok == NON_CAPTURE then [Sign(OPEN)]
    else if tok[0] in {40, 41} then [Sign(tok)]
    else TextElems(tok)
  }

  predicate Led(ts: seq<Text>, i: nat)
    requires i < |ts|
  {
    StartsLetter(Concat(ts[i+1..]))
  }

  /** What token `i` of a pattern means: a number means a group of the pattern, or what
      its octal code stands for. */
  function Meant(toks: seq<Text>, i: nat): seq<Elem>
    requires i < |toks|
  {
    if NumericValue(toks[i]) > 0 then
      if RefersTo(toks, i) then [Reference] else Units(EscapedText(toks[i][1..]))
    else TokenElems(toks[i], Led(toks, i))
  }

  // ---- the characters an element accepts ----

  /** `canon` maps a character to that which stands for all its cases. */
  predicate SameUnit(canon: CodeUnit -> CodeUnit, ignore: bool, c: CodeUnit, d: CodeUnit) {
    if ignore then canon(c) == canon(d) else c == d
  }

  ghost predicate Takes(canon: CodeUnit -> CodeUnit, ignore: bool, el: Elem, c: CodeUnit) {
    match el
    case OneUnit(u) => SameUnit(canon, ignore, u, c)
    case InBrackets(e) => |e| >= 2 && (ClassTakes(canon, ignore, e, c) != Negated(e))
    case AnyOf(letter) => RangesTake(canon, ignore, EscapeRanges(letter), c)
    case _ => false
  }

  ghost predicate RangesTake(canon: CodeUnit -> CodeUnit, ignore: bool, rs: seq<Range>, c: CodeUnit) {
    exists d: CodeUnit :: InRanges(rs, d) && SameUnit(canon, ignore, d, c)
  }

  ghost predicate ClassTakes(canon: CodeUnit -> CodeUnit, ignore: bool, e: Text, c: CodeUnit)
    requires |e| >= 2
  {
    RangesTake(canon, ignore, JsRanges(ItemTokens(e)), c)
  }

  predicate IsCharacter(el: Elem) { el.OneUnit? || (el.InBrackets? && |el.e| >= 2) || el.AnyOf? }

  /** The one element does under its flag what the other does under its own: it accepts
      the same characters, or refers to a group alike, or is the same sign. */
  ghost predicate Same(canon: CodeUnit -> CodeUnit, a: Elem, ignore: bool, b: Elem, ignore': bool) {
    if IsCharacter(a) && IsCharacter(b) then forall c :: Takes(canon, ignore, a, c) <==> Takes(canon, ignore', b, c)
    else a == b && (a.Reference? ==> ignore == ignore')
  }

  ghost predicate AllSame(canon: CodeUnit -> CodeUnit, a: seq<Elem>, ignore: bool, b: seq<Elem>, ignore': bool) {
    |a| == |b| && forall j :: 0 <= j < |a| ==> Same(canon, a[j], ignore, b[j], ignore')
  }

  // ---- when case matters ----

  /** What case folding is on ASCII: a letter has one other case, and nothing else has. */
  ghost predicate FoldsAscii(canon: CodeUnit -> CodeUnit) {
    forall c: CodeUnit, d: CodeUnit :: c < 128 ==> (canon(c) == canon(d) <==> c == d || (IsLetter(c) && SwapCase(c) == d))
  }

  ghost predicate HasCase(canon: CodeUnit -> CodeUnit, c: CodeUnit) { exists d: CodeUnit :: d != c && canon(d) == canon(c) }

  /** With a character the ranges have all its cases. */
  ghost predicate HaveAllCases(canon: CodeUnit -> CodeUnit, rs: seq<Range>) {
    forall c: CodeUnit, d: CodeUnit :: InRanges(rs, c) && canon(c) == canon(d) ==> InRanges(rs, d)
  }

  /** The flag for case makes a difference to the element. */
  ghost predicate CaseMatters(canon: CodeUnit -> CodeUnit, el: Elem) {
    match el
    case OneUnit(u) => HasCase(canon, u)
    case InBrackets(e) => |e| >= 2 && !HaveAllCases(canon, JsRanges(ItemTokens(e)))
    case AnyOf(letter) => !HaveAllCases(canon, EscapeRanges(letter))
    case Reference => true
    case Sign(_) => false
  }

  lemma RangesFlagged(canon: CodeUnit -> CodeUnit, rs: seq<Range>)
    ensures (forall c :: RangesTake(canon, true, rs, c) <==> RangesTake(canon, false, rs, c)) <==> HaveAllCases(canon, rs)
    ensures forall c: CodeUnit :: RangesTake(canon, false, rs, c) <==> InRanges(rs, c)
  {
    forall c: CodeUnit ensures RangesTake(canon, false, rs, c) <==> InRanges(rs, c) {
      if InRanges(rs, c) { assert SameUnit(canon, false, c, c); }
    }
    if forall c :: RangesTake(canon, true, rs, c) <==> RangesTake(canon, false, rs, c) {
      forall c: CodeUnit, d: CodeUnit | InRanges(rs, c) && canon(c) == canon(d) ensures InRanges(rs, d) {
        assert SameUnit(canon, true, c, d);
        assert RangesTake(canon, true, rs, d);
      }
    }
    if HaveAllCases(canon, rs) {
      forall c: CodeUnit ensures RangesTake(canon, true, rs, c) <==> RangesTake(canon, false, rs, c) {
        if InRanges(rs, c) { assert SameUnit(canon, true, c, c); }
      }
    }
  }

  lemma UnitFlagged(canon: CodeUnit -> CodeUnit, u: CodeUnit)
    ensures (forall c :: SameUnit(canon, true, u, c) <==> SameUnit(canon, false, u, c)) <==> !HasCase(canon, u)
  {
    if HasCase(canon, u) {
      var d: CodeUnit :| d != u && canon(d) == canon(u);
      assert SameUnit(canon, true, u, d) && !SameUnit(canon, false, u, d);
    } else {
      forall c ensures SameUnit(canon, true, u, c) <==> SameUnit(canon, false, u, c) {}
    }
  }

  /** An element does the same under both flags just if case does not matter to it. */
  lemma ElemFlagged(canon: CodeUnit -> CodeUnit, el: Elem, ignore: bool, ignore': bool)
    requires el.InBrackets? ==> |el.e| >= 2
    ensures Same(canon, el, ignore, el, ignore') <==> ignore == ignore' || !CaseMatters(canon, el)
  {
    hide HaveAllCases, HasCase, RangesTake, SameUnit;
    match el {
      case OneUnit(u) =>
        UnitFlagged(canon, u);
        forall c ensures Takes(canon, true, el, c) == SameUnit(canon, true, u, c) && Takes(canon, false, el, c) == SameUnit(canon, false, u, c) {}
        if forall c :: Takes(canon, true, el, c) <==> Takes(canon, false, el, c) {
          forall c ensures SameUnit(canon, true, u, c) <==> SameUnit(canon, false, u, c) {
            assert Takes(canon, true, el, c) <==> Takes(canon, false, el, c);
          }
        }
      case InBrackets(e) =>
        RangesFlagged(canon, JsRanges(ItemTokens(e)));
        if forall c :: Takes(canon, true, el, c) <==> Takes(canon, false, el, c) {
          forall c ensures RangesTake(canon, true, JsRanges(ItemTokens(e)), c) <==> RangesTake(canon, false, JsRanges(ItemTokens(e)), c) {
            assert Takes(canon, true, el, c) <==> Takes(canon, false, el, c);
          }
        }
      case AnyOf(letter) =>
        RangesFlagged(canon, EscapeRanges(letter));
        if forall c :: Takes(canon, true, el, c) <==> Takes(canon, false, el, c) {
          forall c ensures RangesTake(canon, true, EscapeRanges(letter), c) <==> RangesTake(canon, false, EscapeRanges(letter), c) {
            assert Takes(canon, true, el, c) <==> Takes(canon, false, el, c);
          }
        }
      case _ =>
    }
  }

  predicate WellFormed(els: seq<Elem>) { forall j :: 0 <= j < |els| && els[j].InBrackets? ==> |els[j].e| >= 2 }

  ghost predicate SomeMatters(canon: CodeUnit -> CodeUnit, els: seq<Elem>) {
    exists j :: 0 <= j < |els| && CaseMatters(canon, els[j])
  }

  lemma ElemsFlagged(canon: CodeUnit -> CodeUnit, els: seq<Elem>, ignore: bool, ignore': bool)
    requires WellFormed(els)
    ensures AllSame(canon, els, ignore, els, ignore') <==> ignore == ignore' || !SomeMatters(canon, els)
  {
    hide Same, CaseMatters;
    forall j | 0 <= j < |els|
      ensures Same(canon, els[j], ignore, els[j], ignore') <==> ignore == ignore' || !CaseMatters(canon, els[j])
    {
      ElemFlagged(canon, els[j], ignore, ignore');
    }
  }

  lemma {:induction false} TextWellFormed(t: Text)
    ensures WellFormed(TextElems(t))
    decreases |t|
  {
    if t != [] {
      if t[0] == 91 && BodyEnd(t[1..]) > 0 { TextWellFormed(t[1 + BodyEnd(t[1..])..]); } else { TextWellFormed(t[1..]); }
    }
  }

  lemma TokenWellFormed(tok: Text, led: bool)
    ensures WellFormed(TokenElems(tok, led))
  {
    TextWellFormed(tok);
  }

  // ---- sets of one character ----

  /** Two characters, each with all its cases or alone, accept the same. */
  lemma UnitsSame(canon: CodeUnit -> CodeUnit, u: CodeUnit, ignore: bool, w: CodeUnit, ignore': bool)
    ensures (forall c :: SameUnit(canon, ignore, u, c) <==> SameUnit(canon, ignore', w, c))
       <==> if ignore && ignore' then canon(u) == canon(w) else u == w && (ignore == ignore' || !HasCase(canon, w))
  {
    hide SameUnit, HasCase;
    if forall c :: SameUnit(canon, ignore, u, c) <==> SameUnit(canon, ignore', w, c) {
      assert SameUnit(canon, ignore, u, u) && SameUnit(canon, ignore', w, w) by { ItselfSame(canon, ignore, u); ItselfSame(canon, ignore', w); }
      assert SameUnit(canon, ignore', w, u) && SameUnit(canon, ignore, u, w);
      OneIsOther(canon, u, ignore, w, ignore');
      UnitFlagged(canon, w);
    }
    UnitFlagged(canon, w);
    if canon(u) == canon(w) { SameUnderBoth(canon, u, w); }
  }

  lemma ItselfSame(canon: CodeUnit -> CodeUnit, ignore: bool, u: CodeUnit)
    ensures SameUnit(canon, ignore, u, u)
  {}

  lemma OneIsOther(canon: CodeUnit -> CodeUnit, u: CodeUnit, ignore: bool, w: CodeUnit, ignore': bool)
    requires SameUnit(canon, ignore', w, u) && SameUnit(canon, ignore, u, w)
    ensures canon(u) == canon(w) && (!ignore || !ignore' ==> u == w)
  {}

  lemma SameUnderBoth(canon: CodeUnit -> CodeUnit, u: CodeUnit, w: CodeUnit)
    requires canon(u) == canon(w)
    ensures forall c :: SameUnit(canon, true, u, c) <==> SameUnit(canon, true, w, c)
  {}

  // ---- the class made of a letter ----

  function LetterClass(c: CodeUnit): (e: Text)
    requires IsLetter(c)
    ensures |e| == 4
  {
    [91, ClearBit5(c), SetBit5(c), CLOSE_BRACKET]
  }

  lemma TwoLetterTokens(c: CodeUnit)
    requires IsLetter(c)
    ensures !Negated(LetterClass(c)) && ItemTokens(LetterClass(c)) == [[ClearBit5(c)], [SetBit5(c)]]
  {
    var a, b := ClearBit5(c), SetBit5(c);
    var body := Body(LetterClass(c));
    assert body == [a, b] && body[..1] == [a] && body[1..] == [b] && body[1..][..1] == [b] && body[1..][1..] == [];
    assert ClassTokens(body[1..]) == [[b]];
    var toks := ClassTokens(body);
    assert toks == [[a], [b]];
    assert toks[0] != CARET_TOKEN;
  }

  lemma TwoLetterItems(a: CodeUnit, b: CodeUnit)
    requires IsLetter(a) && IsLetter(b)
    ensures AreTokens([[a], [b]]) && JsRanges([[a], [b]]) == [Range(a, a), Range(b, b)]
  {
    var toks: seq<Text> := [[a], [b]];
    assert toks[1..] == [[b]] && toks[1..][1..] == [];
    assert Atoms(toks[1..]) == [(1, One(b))];
    assert Atoms(toks) == [(2, One(a)), (1, One(b))];
    assert Atoms(toks)[1..] == [(1, One(b))] && |Atoms(toks)[1..][1..]| == 0;
    assert Items(Atoms(toks)[1..]) == [(1, Span(b, b))];
    var items: seq<(nat, Item)> := JsItems(toks);
    assert items == [(2, Span(a, a)), (1, Span(b, b))];
    var last: seq<(nat, Item)> := items[1..];
    assert last == [(1, Span(b, b))] && last[1..] == [];
    assert AllRanges(last) == [Range(b, b)];
  }

  /** The class made of a letter has the letter in both cases, whatever the flag. */
  lemma LetterClassTakes(canon: CodeUnit -> CodeUnit, ignore: bool, c: CodeUnit, d: CodeUnit)
    requires IsLetter(c) && FoldsAscii(canon)
    ensures Takes(canon, ignore, InBrackets(LetterClass(c)), d) <==> SameUnit(canon, true, c, d)
  {
    hide JsRanges, ItemTokens, Negated;
    var a, b := ClearBit5(c), SetBit5(c);
    TwoLetterTokens(c);
    TwoLetterItems(a, b);
    var rs: seq<Range> := [Range(a, a), Range(b, b)];
    assert rs[0] in rs && rs[1] in rs;
    assert forall r :: r in rs ==> r == Range(a, a) || r == Range(b, b);
    assert forall x: CodeUnit :: InRanges(rs, x) <==> x == a || x == b;
    assert (c == a && SwapCase(c) == b) || (c == b && SwapCase(c) == a);
    assert canon(a) == canon(b) == canon(c);
    if SameUnit(canon, true, c, d) {
      assert d == a || d == b;
      assert InRanges(rs, d) && SameUnit(canon, ignore, d, d);
    }
  }
}
