/** What folding makes of a class in JavaScript's reading: when it is the class closed
    under case, and when folding again changes nothing. */
module ClassFolding {
  import opened Prelude
  import opened EscapeCodec
  import opened Sorting
  import opened CodeRanges
  import opened CharClass
  import opened ClassReading

  // ---- what a printed class denotes ----

  lemma CopiedAlone(tok: Text)
    requires IsVerbatim(tok)
    ensures |tok| == 2 && tok != CONTROL_TOKEN && tok != HYPHEN_TOKEN
    ensures ItemRanges(ItemOf(AtomOf(tok))) == EscapeRanges(tok[1])
  {
    assert tok == [BACKSLASH, tok[1]];
  }

  lemma EncodedAtom(c: CodeUnit)
    ensures var tok := EncodeEscape(c);
            && tok != [] && tok != CONTROL_TOKEN && tok != HYPHEN_TOKEN && !IsSet(tok)
            && JsValue(tok) == c && AtomOf(tok) == One(c)
  {
    DecodeEncode(c);
    EncodedIsSelfDelimiting(c);
    hide DecodeEscape, SelfDelimiting;
    SetIsVerbatim(EncodeEscape(c));
  }

  /** One printed range in front of tokens that begin with no hyphen. */
  lemma RangeReadStep(r: Range, rest: seq<Text>)
    requires 0 <= r.lo <= r.hi < 0x10000 && AreTokens(rest) && (rest != [] ==> rest[0] != HYPHEN_TOKEN)
    ensures var toks := RangeTokens(r) + rest;
            AreTokens(toks) && JsRanges(toks) == [r] + JsRanges(rest) && toks[0] != HYPHEN_TOKEN
  {
    hide EncodeEscape, JsValue, DecodeEscape, AtomOf, JsItems, IsSet;
    EncodedAtom(r.lo);
    EncodedAtom(r.hi);
    var toks := RangeTokens(r) + rest;
    if r.hi > r.lo {
      assert toks[3..] == rest;
      RangeStep(toks);
    } else {
      assert toks[1..] == rest;
      SingleStep(toks);
    }
    assert JsItems(toks)[1..] == JsItems(rest);
  }

  lemma {:induction false} RangesRead(rs: seq<Range>)
    requires CodeUnits(rs) && AllOrdered(rs)
    ensures AreTokens(AllRangeTokens(rs)) && JsRanges(AllRangeTokens(rs)) == rs
    ensures if rs == [] then AllRangeTokens(rs) == [] else AllRangeTokens(rs) != [] && AllRangeTokens(rs)[0] != HYPHEN_TOKEN
  {
    hide RangeTokens, JsItems;
    if rs == [] {
      NoRest(AllRangeTokens(rs));
    } else {
      assert rs[0] in rs;
      RangesRead(rs[1..]);
      RangeReadStep(rs[0], AllRangeTokens(rs[1..]));
    }
  }

  /** One copied escape in front of tokens that begin with no hyphen. */
  lemma CopiedStep(tok: Text, rest: seq<Text>)
    requires IsVerbatim(tok) && AreTokens(rest) && (rest != [] ==> rest[0] != HYPHEN_TOKEN)
    ensures |tok| == 2 && AreTokens([tok] + rest) && JsRanges([tok] + rest) == EscapeRanges(tok[1]) + JsRanges(rest)
  {
    hide IsVerbatim, JsItems, AtomOf, ItemOf, EscapeRanges, ItemRanges;
    CopiedAlone(tok);
    var toks := [tok] + rest;
    assert toks[1..] == rest;
    SingleStep(toks);
    assert JsItems(toks)[1..] == JsItems(rest);
  }

  lemma {:induction false} CopiedRead(v: seq<Text>, rs: seq<Range>)
    requires CodeUnits(rs) && AllOrdered(rs) && forall i :: 0 <= i < |v| ==> IsVerbatim(v[i])
    ensures AreTokens(v + AllRangeTokens(rs))
    ensures JsRanges(v + AllRangeTokens(rs)) == CopiedRanges(v) + rs
  {
    hide IsVerbatim, JsRanges, EscapeRanges, AllRangeTokens, CodeUnits, Ordered;
    RangesRead(rs);
    if v == [] {
      assert v + AllRangeTokens(rs) == AllRangeTokens(rs) && [] + rs == rs;
    } else {
      var rest := v[1..] + AllRangeTokens(rs);
      assert IsVerbatim(v[0]) && (|v| > 1 ==> IsVerbatim(v[1]));
      if |v| > 1 {
        CopiedAlone(v[1]);
        assert rest[0] == v[1];
      } else {
        assert rest == AllRangeTokens(rs);
      }
      CopiedRead(v[1..], rs);
      CopiedStep(v[0], rest);
      assert v + AllRangeTokens(rs) == [v[0]] + rest;
      assert CopiedRanges(v) + rs == EscapeRanges(v[0][1]) + (CopiedRanges(v[1..]) + rs);
    }
  }

  // ---- folding a class ----

  predicate Negated(e: Text)
    requires |e| >= 2
  {
    var toks := ClassTokens(Body(e));
    toks != [] && toks[0] == CARET_TOKEN
  }

  /** The tokens of a class behind its caret. */
  function ItemTokens(e: Text): (toks: seq<Text>)
    requires |e| >= 2
    ensures AreTokens(toks)
  {
    ClassTokensAreTokens(Body(e));
    var toks := ClassTokens(Body(e));
    if Negated(e) then toks[1..] else toks
  }

  /** What the class denotes in JavaScript, before its negation. */
  predicate Has(e: Text, c: int)
    requires |e| >= 2
  {
    InRanges(JsRanges(ItemTokens(e)), c)
  }

  /** The class is one the `RegExp` constructor accepts: no range is reversed. */
  predicate IsValid(e: Text)
    requires |e| >= 2
  {
    AllOrdered(JsRanges(ItemTokens(e)))
  }

  /** The ranges the folder prints, of the tokens behind the caret. */
  function FoldedOnce(toks: seq<Text>): seq<Range>
    requires ParseItems(toks).Some?
  {
    Printed(FoldedRanges(ParseItems(toks).value.1))
  }

  /** The folded class denotes the class closed under ASCII case. */
  ghost predicate Folds(e: Text, folded: Text)
    requires |e| >= 2 && |folded| >= 2
  {
    forall c :: Has(folded, c) <==> Has(e, c) || Has(e, SwapCase(c))
  }

  /** What a caller can compute of the tokens: the canonical form of what the folder
      copies and prints is that of what the class denotes, closed under case. */
  predicate SameWhenFolded(toks: seq<Text>)
    requires AreTokens(toks) && ParseItems(toks).Some?
    requires forall i :: 0 <= i < |ParseItems(toks).value.0| ==> IsVerbatim(ParseItems(toks).value.0[i])
  {
    Normalise(CopiedRanges(ParseItems(toks).value.0) + FoldedOnce(toks)) == FoldedRanges(JsRanges(toks))
  }

  lemma ParsedTokens(e: Text)
    requires |e| >= 2 && ParseClass(e).Ok?
    ensures var p := ParseClass(e).value;
            && ParseItems(ItemTokens(e)) == Some((p.verbatim, p.ranges)) && p.inverse == Negated(e)
            && (forall i :: 0 <= i < |p.verbatim| ==> IsVerbatim(p.verbatim[i]))
            && CodeUnits(p.ranges)
  {
    ParsedClassParts(e);
    hide ParseItems, ClassTokens, TokenLength;
    var toks := ClassTokens(Body(e));
    assert toks[0..] == toks;
  }

  /** What a folded class denotes, whatever the class was: the escapes copied, and the
      ranges as printed. */
  lemma FoldedHas(e: Text, folded: Text)
    requires |e| >= 2 && FoldClass(e) == Ok(folded)
    ensures |folded| >= 2 && Negated(folded) == Negated(e)
    ensures ParseItems(ItemTokens(e)).Some?
    ensures forall i :: 0 <= i < |ParseItems(ItemTokens(e)).value.0| ==> IsVerbatim(ParseItems(ItemTokens(e)).value.0[i])
    ensures CodeUnits(FoldedOnce(ItemTokens(e))) && AllOrdered(FoldedOnce(ItemTokens(e)))
    ensures JsRanges(ItemTokens(folded)) == CopiedRanges(ParseItems(ItemTokens(e)).value.0) + FoldedOnce(ItemTokens(e))
  {
    hide ParseItems, ClassTokens, FoldedRanges, JsItems, IsVerbatim, BodyTokens, AllRangeTokens;
    ParsedTokens(e);
    FoldClassReads(e, folded);
    var p := ParseClass(e).value;
    FoldedRangesStayCodeUnits(p.ranges);
    PrintedIsOrdered(FoldedRanges(p.ranges));
    var q := p.(ranges := Printed(FoldedRanges(p.ranges)));
    PrintedTokens(q);
    CopiedRead(q.verbatim, q.ranges);
  }

  lemma PrintedTokens(q: ParsedClass)
    requires Printable(q)
    ensures |PrintClass(q)| >= 2 && Negated(PrintClass(q)) == q.inverse
    ensures ItemTokens(PrintClass(q)) == q.verbatim + AllRangeTokens(q.ranges)
  {
    hide ClassTokens, AllRangeTokens, BodyTokens, Concat, SelfDelimiting, PrintClass, Body;
    assert CodeUnits(q.ranges);
    PrintedBody(q);
    BodyTokensAreSelfDelimiting(q);
    TokensOfConcat(BodyTokens(q));
    FirstBodyToken(q);
    assert BodyTokens(q)[0..] == BodyTokens(q);
  }

  /** Folding a class that JavaScript accepts gives the class closed under ASCII case,
      with the same negation, if the class is faithful, which is what a reader of the
      class can see. Some others come out right as well: exactly when what the folder
      makes of the tokens has the canonical form of that closure, a comparison of
      two lists that a program can make. */
  lemma FoldClassMeans(e: Text, folded: Text)
    requires |e| >= 2 && FoldClass(e) == Ok(folded) && IsValid(e)
    ensures |folded| >= 2 && Negated(folded) == Negated(e)
    ensures ParseItems(ItemTokens(e)).Some?
    ensures forall i :: 0 <= i < |ParseItems(ItemTokens(e)).value.0| ==> IsVerbatim(ParseItems(ItemTokens(e)).value.0[i])
    ensures Folds(e, folded) <==> SameWhenFolded(ItemTokens(e))
    ensures Faithful(ItemTokens(e)) ==> Folds(e, folded)
  {
    hide ParseItems, ItemTokens, FoldedRanges, JsRanges, CopiedRanges, FoldedOnce, Faithful, Negated, Normalise;
    FoldedHas(e, folded);
    var toks := ItemTokens(e);
    var v, js := ParseItems(toks).value.0, JsRanges(toks);
    CopiedAreOrdered(v);
    var out := CopiedRanges(v) + FoldedOnce(toks);
    NormaliseIsCanonical(out);
    FoldedRangesClose(js);
    assert js == JsRanges(ItemTokens(e));
    if Folds(e, folded) {
      forall c ensures InRanges(Normalise(out), c) <==> InRanges(FoldedRanges(js), c) {
        assert Has(folded, c) <==> Has(e, c) || Has(e, SwapCase(c));
      }
      CanonicalIsUnique(Normalise(out), FoldedRanges(js));
    }
    if SameWhenFolded(toks) {
      forall c ensures Has(folded, c) <==> Has(e, c) || Has(e, SwapCase(c)) {
        assert InRanges(out, c) <==> InRanges(FoldedRanges(js), c);
      }
    }
    if Faithful(toks) { FaithfulFolds(e, folded); }
  }

  /** Of a faithful class the folder's parse denotes what the class denotes. */
  lemma FaithfulParsed(toks: seq<Text>)
    requires AreTokens(toks) && Faithful(toks) && AllOrdered(JsRanges(toks))
    ensures ParseItems(toks).Some?
    ensures var (v, rs) := ParseItems(toks).value;
            && (forall i :: 0 <= i < |v| ==> IsVerbatim(v[i])) && B_TOKEN !in v && AllOrdered(rs)
            && forall c :: InRanges(JsRanges(toks), c) <==> InRanges(CopiedRanges(v), c) || InRanges(rs, c)
  {
    hide Faithful, Atoms, Items, CodeItems, ParseItems, CopiedRanges;
    ReadingsAgree(toks);
    AtomsAreProper(toks);
    ItemsAreProper(Atoms(toks));
    ItemsParsed(toks);
    SpansOrdered(JsItems(toks));
  }

  lemma {:induction false} SpansOrdered(items: seq<(nat, Item)>)
    requires AllOrdered(AllRanges(items))
    ensures Ranged(items)
  {
    if items != [] {
      assert forall r :: r in AllRanges(items[1..]) ==> r in AllRanges(items);
      SpansOrdered(items[1..]);
      forall i | 0 <= i < |items| && items[i].1.Span? ensures items[i].1.lo <= items[i].1.hi {
        if i == 0 { assert Range(items[0].1.lo, items[0].1.hi) in AllRanges(items); } else { assert items[i] == items[1..][i - 1]; }
      }
    }
  }

  lemma FaithfulFolds(e: Text, folded: Text)
    requires |e| >= 2 && |folded| >= 2 && FoldClass(e) == Ok(folded) && IsValid(e) && Faithful(ItemTokens(e))
    ensures Folds(e, folded)
  {
    hide ParseItems, ItemTokens, FoldedRanges, JsRanges, CopiedRanges, Faithful, Negated, FoldClass;
    var toks := ItemTokens(e);
    FoldedHas(e, folded);
    FaithfulParsed(toks);
    var (v, rs) := ParseItems(toks).value;
    CopiedAreOrdered(v);
    FoldedRangesClose(rs);
    FoldedCodeUnits(e);
    PrintedIsOrdered(FoldedRanges(rs));
    InPair(CopiedRanges(v), FoldedOnce(toks));
    forall c ensures Has(folded, c) <==> Has(e, c) || Has(e, SwapCase(c)) {
      assert SwapCase(SwapCase(c)) == c;
    }
  }

  lemma FoldedCodeUnits(e: Text)
    requires |e| >= 2 && FoldClass(e).Ok?
    ensures ParseClass(e).Ok? && ParseItems(ItemTokens(e)).Some?
    ensures CodeUnits(FoldedRanges(ParseItems(ItemTokens(e)).value.1))
  {
    hide ParseItems, ItemTokens, FoldedRanges;
    ParsedTokens(e);
    FoldedRangesStayCodeUnits(ParseClass(e).value.ranges);
  }

  /** Folding once more changes nothing if and only if the ranges printed the first
      time are canonical and closed under case; and so they are if the folder parsed
      no reversed range. */
  lemma FoldClassIsIdempotent(e: Text, folded: Text)
    requires |e| >= 2 && FoldClass(e) == Ok(folded)
    ensures |folded| >= 2 && ParseItems(ItemTokens(e)).Some?
    ensures FoldClass(folded) == Ok(folded) <==> Canonical(FoldedOnce(ItemTokens(e))) && CaseClosed(FoldedOnce(ItemTokens(e)))
    ensures AllOrdered(ParseItems(ItemTokens(e)).value.1) ==> FoldClass(folded) == Ok(folded)
    ensures IsValid(e) && Faithful(ItemTokens(e)) ==> FoldClass(folded) == Ok(folded)
  {
    hide ParseItems, ItemTokens, FoldedRanges, PrintClass, Printable, JsRanges, Faithful, CopiedRanges, Printed,
         Canonical, CaseClosed, CodeUnits, AllOrdered, FoldClass;
    FoldedCodeUnits(e);
    ParsedTokens(e);
    FoldClassReads(e, folded);
    var p, rs := ParseClass(e).value, FoldedOnce(ItemTokens(e));
    PrintedIsOrdered(FoldedRanges(p.ranges));
    FixedFold(rs);
    SecondFold(p.(ranges := rs), folded);
    if AllOrdered(p.ranges) { OrderedFold(p.ranges); }
    if IsValid(e) && Faithful(ItemTokens(e)) { FaithfulParsed(ItemTokens(e)); }
  }

  lemma FixedFold(rs: seq<Range>)
    requires CodeUnits(rs) && AllOrdered(rs)
    ensures CodeUnits(FoldedRanges(rs)) && AllOrdered(FoldedRanges(rs))
    ensures FoldedRanges(rs) == rs <==> Canonical(rs) && CaseClosed(rs)
  {
    hide FoldedRanges, InRanges;
    FoldedRangesClose(rs);
    FoldedRangesStayCodeUnits(rs);
    forall c ensures SwapCase(SwapCase(c)) == c {}
    if Canonical(rs) && CaseClosed(rs) {
      forall c ensures InRanges(FoldedRanges(rs), c) <==> InRanges(rs, c) { assert SwapCase(SwapCase(c)) == c; }
      CanonicalIsUnique(FoldedRanges(rs), rs);
    }
  }

  /** Ranges that are not reversed are folded for good, and printed as they are. */
  lemma OrderedFold(rs: seq<Range>)
    requires AllOrdered(rs) && CodeUnits(FoldedRanges(rs))
    ensures Canonical(FoldedRanges(rs)) && CaseClosed(FoldedRanges(rs)) && Printed(FoldedRanges(rs)) == FoldedRanges(rs)
  {
    hide FoldedRanges, InRanges, Printed;
    FoldedRangesClose(rs);
    PrintedIsOrdered(FoldedRanges(rs));
    forall c | InRanges(FoldedRanges(rs), c) ensures InRanges(FoldedRanges(rs), SwapCase(c)) {
      assert SwapCase(SwapCase(c)) == c;
    }
  }

  lemma SecondFold(q: ParsedClass, folded: Text)
    requires Printable(q) && folded == PrintClass(q) && |folded| >= 2 && ParseClass(folded) == Ok(q)
    requires CodeUnits(FoldedRanges(q.ranges)) && AllOrdered(FoldedRanges(q.ranges))
    ensures FoldClass(folded) == Ok(folded) <==> FoldedRanges(q.ranges) == q.ranges
  {
    hide FoldedRanges, PrintClass, ParseClass;
    FoldedRangesStay(q.ranges);
    var q' := q.(ranges := FoldedRanges(q.ranges));
    assert Printable(q');
    ParsePrint(q');
  }

  /** Folding fails just where an escape has no value, or there is nothing to fold. */
  lemma {:induction false} GarbledFails(toks: seq<Text>)
    ensures ParseItems(toks).None? <==> exists i :: 0 <= i < |CodeItems(toks)| && CodeItems(toks)[i].1.Garbled?
    decreases |toks|
  {
    hide DecodeEscape, IsVerbatim;
    if toks != [] {
      var items := CodeItems(toks);
      var k := if !IsVerbatim(toks[0]) && |toks| > 2 && toks[1] == HYPHEN_TOKEN then 3 else 1;
      GarbledFails(toks[k..]);
      assert items == [items[0]] + CodeItems(toks[k..]);
      if i :| 0 <= i < |CodeItems(toks[k..])| && CodeItems(toks[k..])[i].1.Garbled? {
        assert items[i + 1].1.Garbled?;
      }
      if i :| 0 < i < |items| && items[i].1.Garbled? {
        assert CodeItems(toks[k..])[i - 1].1.Garbled?;
      }
    }
  }

  // ---- classes that fail ----

  /** A character, a hyphen and an escape for a set, in brackets. */
  function Endpoint(a: CodeUnit, letter: CodeUnit): Text { [91, a, HYPHEN, BACKSLASH, letter, CLOSE_BRACKET] }

  lemma ThreeItems(t: (nat, Item), u: (nat, Item), v: (nat, Item))
    ensures AllRanges([t, u, v] + []) == ItemRanges(t.1) + ItemRanges(u.1) + ItemRanges(v.1)
  {
    var items: seq<(nat, Item)> := [t, u, v];
    assert items + [] == items && items[1..] == [u, v] && items[1..][1..] == [v] && items[1..][1..][1..] == [];
    assert AllRanges([v]) == ItemRanges(v.1) + [];
  }

  lemma EndpointItems(toks: seq<Text>, a: CodeUnit, letter: CodeUnit)
    requires a !in {BACKSLASH, HYPHEN, CARET} && letter in {100, 115, 119, 68, 83, 87}
    requires toks == [[a], HYPHEN_TOKEN, [BACKSLASH, letter]]
    ensures AreTokens(toks) && !Faithful(toks)
    ensures JsRanges(toks) == [Range(a, a)] + [Range(HYPHEN, HYPHEN)] + EscapeRanges(letter)
    ensures ParseItems(toks) == Some(([], [Range(a, letter)]))
  {
    hide EscapeRanges, AllRanges;
    assert toks[3..] == [];
    NoRest(toks[3..]);
    HyphenValue();
    RangeStep(toks);
    ThreeItems((3, Span(a, a)), (2, Span(HYPHEN, HYPHEN)), (1, Escape(letter)));
    assert DecodeEscape(toks[0]) == Some(a) && DecodeEscape(toks[2]) == Some(letter);
    assert ParseItems(toks) == Prepend([], [Range(a, letter)], ParseItems(toks[3..]));
    var parsed := ParseItems(toks).value;
    assert parsed.0 == [] && parsed.1 == [Range(a, letter)];
  }

  /** The folder takes `[a-\d]` and its like for a range; JavaScript does not. */
  lemma EndpointReads(a: CodeUnit, letter: CodeUnit)
    requires a !in {BACKSLASH, HYPHEN, CARET} && letter in {100, 115, 119, 68, 83, 87}
    ensures var e := Endpoint(a, letter);
            && !Negated(e) && !Faithful(ItemTokens(e)) && FoldClass(e).Ok?
            && JsRanges(ItemTokens(e)) == [Range(a, a)] + [Range(HYPHEN, HYPHEN)] + EscapeRanges(letter)
            && ParseItems(ItemTokens(e)) == Some(([], [Range(a, letter)]))
  {
    hide ParseItems, JsRanges, EscapeRanges, FoldedRanges, Faithful, ClassTokens;
    var e, x, y := Endpoint(a, letter), [a], [BACKSLASH, letter];
    EndpointTokens(Body(e), x, y);
    assert ClassTokens(Body(e))[0..] == ClassTokens(Body(e));
    EndpointItems(ItemTokens(e), a, letter);
  }

  lemma EndpointTokens(s: Text, x: Text, y: Text)
    requires |x| == 1 && x[0] !in {BACKSLASH, HYPHEN, CARET} && |y| == 2 && y[0] == BACKSLASH
    requires y[1] in {100, 115, 119, 68, 83, 87} && s == x + [HYPHEN] + y
    ensures ClassTokens(s) == [x, HYPHEN_TOKEN, y] && x != CARET_TOKEN
  {
    assert s[1..] == [HYPHEN] + y && s[1..][1..] == y && y[2..] == [];
    assert y[..2] == y && s[..1] == x && s[1..][..1] == HYPHEN_TOKEN;
    assert ClassTokens(y) == [y];
    assert ClassTokens(s[1..]) == [HYPHEN_TOKEN, y];
  }

  /** What folding `[a-\d]` and its like gives if the range is not reversed. */
  lemma EndpointFolded(a: CodeUnit, letter: CodeUnit, folded: Text)
    requires a !in {BACKSLASH, HYPHEN, CARET} && letter in {100, 115, 119, 68, 83, 87} && a <= letter
    requires FoldClass(Endpoint(a, letter)) == Ok(folded)
    ensures |folded| >= 2
    ensures forall c :: Has(folded, c) <==> a <= c <= letter || a <= SwapCase(c) <= letter
  {
    hide FoldClass, FoldedRanges, ItemTokens, ParseItems, JsRanges;
    var e, rs := Endpoint(a, letter), [Range(a, letter)];
    EndpointReads(a, letter);
    FoldedHas(e, folded);
    FoldedCodeUnits(e);
    FoldedRangesClose(rs);
    PrintedIsOrdered(FoldedRanges(rs));
    assert JsRanges(ItemTokens(folded)) == [] + FoldedRanges(rs);
    assert rs[0] in rs;
  }

  lemma DoesNotFold(e: Text, folded: Text, c: int)
    requires |e| >= 2 && |folded| >= 2 && Has(folded, c) != (Has(e, c) || Has(e, SwapCase(c)))
    ensures !Folds(e, folded)
  {}

  /** `[a-\d]`: the digits and the hyphen are lost, and b, c and d are new. */
  lemma EscapeAsRangeEnd(folded: Text)
    requires FoldClass(Endpoint(97, 100)) == Ok(folded)
    ensures |folded| >= 2 && !Folds(Endpoint(97, 100), folded)
    ensures Has(Endpoint(97, 100), 48) && !Has(folded, 48) && !Has(Endpoint(97, 100), 98) && Has(folded, 98)
  {
    hide FoldClass, ItemTokens, JsRanges;
    EndpointReads(97, 100);
    EndpointFolded(97, 100, folded);
    var js := JsRanges(ItemTokens(Endpoint(97, 100)));
    assert js == [Range(97, 97), Range(HYPHEN, HYPHEN), Range(48, 57)];
    assert js[2] in js;
    DoesNotFold(Endpoint(97, 100), folded, 48);
  }

  /** `[z-\D]`: parsed as a reversed range, of which only z is left, and its capital
      is missing; folding that class once more brings it. */
  lemma FoldingTwiceDiffers(folded: Text)
    requires FoldClass(Endpoint(122, 68)) == Ok(folded)
    ensures |folded| >= 2 && FoldClass(folded) != Ok(folded)
  {
    hide FoldClass, ItemTokens, ParseItems;
    var e := Endpoint(122, 68);
    EndpointReads(122, 68);
    FoldClassIsIdempotent(e, folded);
    ReversedFolds();
    var rs := FoldedOnce(ItemTokens(e));
    assert rs == [Range(122, 122)] && rs[0] in rs;
    assert InRanges(rs, 122) && !InRanges(rs, SwapCase(122));
  }

  lemma ReversedFolds()
    ensures FoldedRanges([Range(122, 68)]) == [Range(122, 68)]
  {
    var rs := [Range(122, 68)];
    assert rs[..0] == [] && rs[1..] == [];
    assert WithAllCaseFolds(rs[..0]) == [] && WithCaseFolds(rs[0]) == rs;
    assert WithAllCaseFolds(rs) == rs;
    assert Sort(Leq, rs[1..]) == [];
    assert Sort(Leq, rs) == Insert(Leq, rs[0], []) == rs;
    assert Merge(rs[..0]) == [];
    assert Merge(rs) == Absorb([], rs[0]) == rs;
  }

  lemma OneToken(tok: Text)
    requires |tok| == 2 && tok[0] == BACKSLASH && tok[1] in {66, 120}
    ensures var e := [91] + tok + [CLOSE_BRACKET]; !Negated(e) && ItemTokens(e) == [tok] && ClassTokens(Body(e)) == [tok]
  {
    var e := [91] + tok + [CLOSE_BRACKET];
    assert Body(e) == tok && tok[..2] == tok && tok[2..] == [];
    assert ClassTokens(tok) == [tok] + ClassTokens(tok[2..]);
    assert [tok][0..] == [tok];
  }

  lemma CopiedLetter()
    ensures ParseItems([B_TOKEN]) == Some(([B_TOKEN], [])) && JsRanges([B_TOKEN]) == [Range(66, 66)]
    ensures CopiedRanges([B_TOKEN]) == [Range(66, 66)]
  {
    hide JsItems;
    var none: seq<Text> := [];
    assert [B_TOKEN][1..] == none && [B_TOKEN] + none == [B_TOKEN];
    assert ParseItems([B_TOKEN]) == Prepend([B_TOKEN], [], ParseItems(none));
    var parsed := ParseItems([B_TOKEN]).value;
    assert parsed.0 == [B_TOKEN] && parsed.1 == [];
    CopiedStep(B_TOKEN, none);
    NoRest(none);
    assert JsRanges(none) == [] && EscapeRanges(66) == [Range(66, 66)];
    assert CopiedRanges([B_TOKEN]) == [Range(66, 66)] + CopiedRanges(none);
  }

  /** `[\B]`: the letter, which is copied as if it were an escape for a set. */
  lemma EscapedLetterStays(folded: Text)
    requires FoldClass([91, 92, 66, 93]) == Ok(folded)
    ensures |folded| >= 2 && Has([91, 92, 66, 93], 66) && !Has(folded, 98) && !Folds([91, 92, 66, 93], folded)
  {
    hide ParseItems, JsRanges, CopiedRanges, FoldClass, ItemTokens;
    var e: Text := [91, 92, 66, 93];
    assert e == [91] + B_TOKEN + [CLOSE_BRACKET];
    OneToken(B_TOKEN);
    FoldedHas(e, folded);
    CopiedLetter();
    NothingFolds();
    var rs := JsRanges(ItemTokens(e));
    assert rs[0] in rs;
    assert JsRanges(ItemTokens(folded)) == rs + [] && rs + [] == rs;
    DoesNotFold(e, folded, 98);
  }

  lemma NothingFolds()
    ensures Printed(FoldedRanges([])) == []
  {}

  /** `[\x]`: a letter for JavaScript, no number for the folder. */
  lemma LetterIsNoNumber()
    ensures FoldClass([91, 92, 120, 93]) == Err(NotANumber) && Has([91, 92, 120, 93], 120)
  {
    hide JsItems, FoldedRanges;
    var e, tok: Text := [91, 92, 120, 93], [BACKSLASH, 120];
    assert e == [91] + tok + [CLOSE_BRACKET];
    OneToken(tok);
    assert tok[2..] == [] && DecodeEscape(tok) == None;
    assert [tok][1..] == [] && [tok][0..] == [tok];
    NoRest([]);
    SingleStep([tok]);
    var rs := JsRanges(ItemTokens(e));
    assert rs == [Range(120, 120)] + [] && rs[0] in rs;
  }

  /** The class `[\b-z]`. */
  const FROM_BACKSPACE: Text := [91, BACKSLASH, 98, HYPHEN, 122, CLOSE_BRACKET]

  lemma FromBackspaceTokens()
    ensures !Negated(FROM_BACKSPACE) && ItemTokens(FROM_BACKSPACE) == [[BACKSLASH, 98], HYPHEN_TOKEN, [122]]
  {
    var s, b: Text := Body(FROM_BACKSPACE), [BACKSLASH, 98];
    assert s == [BACKSLASH, 98, HYPHEN, 122] && s[..2] == b && s[2..] == [HYPHEN, 122] && s[2..][1..] == [122];
    assert [122][..1] == [122] && [122][1..] == [] && s[2..][..1] == HYPHEN_TOKEN;
    assert ClassTokens(s[2..][1..]) == [[122]];
    assert ClassTokens(s[2..]) == [HYPHEN_TOKEN, [122]];
    var toks: seq<Text> := ClassTokens(s);
    assert toks == [b, HYPHEN_TOKEN, [122]];
    assert toks[0..] == toks;
  }

  lemma FromBackspaceReads()
    ensures var toks: seq<Text> := [[BACKSLASH, 98], HYPHEN_TOKEN, [122]];
            && AreTokens(toks) && !Faithful(toks) && JsRanges(toks) == [Range(8, 122)]
            && ParseItems(toks) == Some(([toks[0]], [Range(45, 45), Range(122, 122)]))
  {
    hide AllRanges;
    var toks: seq<Text> := [[BACKSLASH, 98], HYPHEN_TOKEN, [122]];
    var rest, none: seq<Text> := toks[1..], toks[3..];
    assert none == [] && rest == [HYPHEN_TOKEN, [122]] && rest[1..] == [[122]] && rest[1..][1..] == none;
    NoRest(none);
    HyphenValue();
    RangeStep(toks);
    var items: seq<(nat, Item)> := JsItems(toks);
    assert items == [(3, Span(8, 122))];
    OneSpan(3, 8, 122);
    FromBackspaceParsed(rest);
    assert ParseItems(toks) == Prepend([toks[0]], [], ParseItems(rest));
    var parsed := ParseItems(toks).value;
    assert parsed.0 == [toks[0]] && parsed.1 == [Range(45, 45), Range(122, 122)];
  }

  lemma FromBackspaceParsed(rest: seq<Text>)
    requires rest == [HYPHEN_TOKEN, [122]]
    ensures ParseItems(rest).Some? && ParseItems(rest).value.0 == [] && ParseItems(rest).value.1 == [Range(45, 45), Range(122, 122)]
  {
    var last, none: seq<Text> := [[122]], [];
    assert rest[1..] == last && last[1..] == none;
    assert ParseItems(last) == Prepend([], [Range(122, 122)], ParseItems(none));
    assert ParseItems(rest) == Prepend([], [Range(45, 45)], ParseItems(last));
    HyphenValue();
  }

  lemma OneSpan(n: nat, lo: int, hi: int)
    ensures AllRanges([(n, Span(lo, hi))]) == [Range(lo, hi)]
  {
    var items: seq<(nat, Item)> := [(n, Span(lo, hi))];
    assert items[1..] == [];
  }

  /** `[\b-z]`: the folder copies the escape and takes the hyphen for itself, so that the
      characters in between are lost. */
  lemma EscapeAsRangeStart(folded: Text)
    requires FoldClass(FROM_BACKSPACE) == Ok(folded)
    ensures |folded| >= 2 && Has(FROM_BACKSPACE, 97) && !Has(folded, 97) && !Folds(FROM_BACKSPACE, folded)
  {
    hide FoldClass, FoldedRanges, ItemTokens, ParseItems, JsRanges;
    var rs := [Range(45, 45), Range(122, 122)];
    FromBackspaceTokens();
    FromBackspaceReads();
    FoldedHas(FROM_BACKSPACE, folded);
    FoldedCodeUnits(FROM_BACKSPACE);
    FoldedRangesClose(rs);
    PrintedIsOrdered(FoldedRanges(rs));
    var whole, b: seq<Range> := [Range(8, 122)], CopiedRanges([[BACKSLASH, 98]]);
    assert whole[0] in whole;
    assert b == [Range(8, 8)] by { BackspaceAlone(); }
    assert !InRanges(rs, 97) && !InRanges(rs, SwapCase(97));
    var all := b + FoldedRanges(rs);
    assert !InRanges(all, 97);
    DoesNotFold(FROM_BACKSPACE, folded, 97);
  }

  lemma BackspaceAlone()
    ensures CopiedRanges([[BACKSLASH, 98]]) == [Range(8, 8)]
  {
    var v: seq<Text> := [[BACKSLASH, 98]];
    assert v[1..] == [];
    assert CopiedRanges(v) == EscapeRanges(98) + CopiedRanges(v[1..]);
  }

  /** Two more that are not faithful: `[\cJ]` and `[\d-a-z]`. */
  lemma OthersUnfaithful()
    ensures !Faithful([CONTROL_TOKEN, [74]])
    ensures !Faithful([[BACKSLASH, 100], HYPHEN_TOKEN, [97], HYPHEN_TOKEN, [122]])
  {}
}
