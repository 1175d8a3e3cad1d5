/** The text of a regex character class: cutting it into tokens, parsing it into
    ranges, printing ranges back, and folding a class under ASCII case. */
module CharClass {
  import opened Prelude
  import opened EscapeCodec
  import opened Sorting
  import opened CodeRanges

  const HYPHEN_TOKEN: Text := [HYPHEN]
  const CARET_TOKEN: Text := [CARET]

  /** Why folding fails: `[]` has no token to look at, and an escape such as a
      bare `\u` decodes to NaN. */
  datatype FoldError = NoTokens | NotANumber

  datatype ParsedClass = ParsedClass(inverse: bool, verbatim: seq<Text>, ranges: seq<Range>)

  // ---- tokens ----

  /** How many of the first `most` units of `s` are octal digits. */
  function OctalRun(s: Text, most: nat): (k: nat)
    ensures k <= |s| && k <= most
  {
    if most > 0 && s != [] && IsOctal(s[0]) then 1 + OctalRun(s[1..], most - 1) else 0
  }

  /** The length of the first token of a class body, 0 where none starts (a
      backslash with nothing after it). */
  function TokenLength(s: Text): (n: nat)
    ensures n <= |s|
  {
    if s == [] then 0
    else if s[0] != BACKSLASH then 1
    else if |s| == 1 then 0
    else if s[1] == 117 && |s| >= 6 && IsHex(s[2]) && IsHex(s[3]) && IsHex(s[4]) && IsHex(s[5]) then 6
    else if s[1] == 120 && |s| >= 4 && IsHex(s[2]) && IsHex(s[3]) then 4
    else if 48 <= s[1] <= 51 then 2 + OctalRun(s[2..], 2)
    else if 52 <= s[1] <= 55 then 2 + OctalRun(s[2..], 1)
    else 2
  }

  /** All matches of the token pattern, left to right. */
  function ClassTokens(s: Text): seq<Text> {
    if s == [] then []
    else
      var n := TokenLength(s);
      if n == 0 then ClassTokens(s[1..]) else [s[..n]] + ClassTokens(s[n..])
  }

  /** `\b`, `\d`, `\s`, `\w` and their capitals are copied to the result as they are. */
  predicate IsVerbatim(tok: Text) {
    |tok| == 2 && tok[0] == BACKSLASH && tok[1] in {98, 100, 115, 119, 66, 68, 83, 87}
  }

  // ---- parsing ----

  /** The items of a class after the caret; `None` when an escape is NaN. */
  function ParseItems(toks: seq<Text>): Option<(seq<Text>, seq<Range>)> {
    if toks == [] then Some(([], []))
    else if IsVerbatim(toks[0]) then Prepend([toks[0]], [], ParseItems(toks[1..]))
    else
      var lo := DecodeEscape(toks[0]);
      if |toks| > 2 && toks[1] == HYPHEN_TOKEN then
        var hi := DecodeEscape(toks[2]);
        if lo.None? || hi.None? then None
        else Prepend([], [Range(lo.value, hi.value)], ParseItems(toks[3..]))
      else if lo.None? then None
      else Prepend([], [Range(lo.value, lo.value)], ParseItems(toks[1..]))
  }

  function Prepend(v: seq<Text>, rs: seq<Range>, rest: Option<(seq<Text>, seq<Range>)>): Option<(seq<Text>, seq<Range>)> {
    if rest.None? then None else Some((v + rest.value.0, rs + rest.value.1))
  }

  function Body(e: Text): Text
    requires |e| >= 2
  {
    e[1..|e|-1]
  }

  function ParseClass(e: Text): Result<ParsedClass, FoldError>
    requires |e| >= 2
  {
    var toks := ClassTokens(Body(e));
    if toks == [] then Err(NoTokens)
    else
      var inverse := toks[0] == CARET_TOKEN;
      var items := ParseItems(toks[if inverse then 1 else 0..]);
      if items.None? then Err(NotANumber) else Ok(ParsedClass(inverse, items.value.0, items.value.1))
  }

  // ---- printing ----

  function RangeTokens(r: Range): seq<Text>
    requires 0 <= r.lo && 0 <= r.hi
  {
    [EncodeEscape(r.lo)] + if r.hi > r.lo then [HYPHEN_TOKEN, EncodeEscape(r.hi)] else []
  }

  predicate CodeUnits(rs: seq<Range>) {
    forall r :: r in rs ==> 0 <= r.lo < 0x10000 && 0 <= r.hi < 0x10000
  }

  function AllRangeTokens(rs: seq<Range>): seq<Text>
    requires CodeUnits(rs)
  {
    if rs == [] then [] else assert rs[0] in rs; RangeTokens(rs[0]) + AllRangeTokens(rs[1..])
  }

  /** The tokens between the brackets of a printed class. */
  function BodyTokens(p: ParsedClass): seq<Text>
    requires CodeUnits(p.ranges)
  {
    (if p.inverse then [CARET_TOKEN] else []) + p.verbatim + AllRangeTokens(p.ranges)
  }

  function PrintClass(p: ParsedClass): Text
    requires CodeUnits(p.ranges)
  {
    [91] + Concat(BodyTokens(p)) + [CLOSE_BRACKET]
  }

  // ---- a printed class reads back ----

  /** A text that is one token whatever follows it. */
  ghost predicate SelfDelimiting(tok: Text) {
    tok != [] && forall rest: Text :: TokenLength(tok + rest) == |tok|
  }

  lemma EncodedIsSelfDelimiting(c: CodeUnit)
    ensures SelfDelimiting(EncodeEscape(c)) && !IsVerbatim(EncodeEscape(c)) && EncodeEscape(c) != HYPHEN_TOKEN
    ensures EncodeEscape(c) != CARET_TOKEN
  {
    var e := EncodeEscape(c);
    forall rest: Text ensures TokenLength(e + rest) == |e| {
      if c < 32 {
        assert e == [BACKSLASH, 120, HexDigit(c / 16), HexDigit(c % 16)];
        assert (e + rest)[2] == e[2] && (e + rest)[3] == e[3];
      }
    }
  }

  lemma {:induction false} TokensOfConcat(toks: seq<Text>)
    requires forall i :: 0 <= i < |toks| ==> SelfDelimiting(toks[i])
    ensures ClassTokens(Concat(toks)) == toks
  {
    if toks != [] {
      var tok, rest := toks[0], Concat(toks[1..]);
      assert TokenLength(tok + rest) == |tok|;
      assert (tok + rest)[..|tok|] == tok && (tok + rest)[|tok|..] == rest;
      TokensOfConcat(toks[1..]);
    }
  }

  lemma {:induction false} RangeTokensAreSelfDelimiting(rs: seq<Range>)
    requires CodeUnits(rs)
    ensures forall i :: 0 <= i < |AllRangeTokens(rs)| ==> SelfDelimiting(AllRangeTokens(rs)[i])
  {
    if rs != [] {
      assert rs[0] in rs;
      EncodedIsSelfDelimiting(rs[0].lo);
      EncodedIsSelfDelimiting(rs[0].hi);
      assert SelfDelimiting(HYPHEN_TOKEN);
      RangeTokensAreSelfDelimiting(rs[1..]);
    }
  }

  lemma {:induction false} ParseRangeTokens(rs: seq<Range>)
    requires CodeUnits(rs) && AllOrdered(rs)
    ensures ParseItems(AllRangeTokens(rs)) == Some(([], rs))
    ensures rs != [] ==> AllRangeTokens(rs)[0] != HYPHEN_TOKEN && AllRangeTokens(rs)[0] != CARET_TOKEN
  {
    hide EncodeEscape, DecodeEscape, IsVerbatim, SelfDelimiting;
    if rs != [] {
      var r, rest := rs[0], AllRangeTokens(rs[1..]);
      assert r in rs;
      EncodedIsSelfDelimiting(r.lo);
      DecodeEncode(r.lo);
      DecodeEncode(r.hi);
      ParseRangeTokens(rs[1..]);
      var toks := AllRangeTokens(rs);
      if r.hi > r.lo {
        assert toks[3..] == rest;
      } else {
        assert toks[1..] == rest;
        assert |toks| > 2 ==> rs[1..] != [] && toks[1] == rest[0];
      }
      var none: seq<Text> := [];
      assert none + none == none && [r] + rs[1..] == rs;
      assert ParseItems(toks) == Prepend([], [r], Some(([], rs[1..])));
    }
  }

  lemma {:induction false} ParseVerbatim(v: seq<Text>, toks: seq<Text>)
    requires forall i :: 0 <= i < |v| ==> IsVerbatim(v[i])
    ensures ParseItems(v + toks) == Prepend(v, [], ParseItems(toks))
  {
    if v == [] {
      var rest := ParseItems(toks);
      assert v + toks == toks;
      assert rest.Some? ==> v + rest.value.0 == rest.value.0 && [] + rest.value.1 == rest.value.1;
    } else {
      assert (v + toks)[1..] == v[1..] + toks;
      ParseVerbatim(v[1..], toks);
      var rest := ParseItems(toks);
      if rest.Some? {
        assert [v[0]] + (v[1..] + rest.value.0) == v + rest.value.0;
        assert [] + ([] + rest.value.1) == rest.value.1 == [] + rest.value.1;
      }
    }
  }

  /** What a printable class is: something between the brackets, escapes the
      folder copies, and ordered ranges of code units. */
  predicate Printable(p: ParsedClass) {
    && CodeUnits(p.ranges) && AllOrdered(p.ranges)
    && (forall i :: 0 <= i < |p.verbatim| ==> IsVerbatim(p.verbatim[i]))
    && (p.inverse || p.verbatim != [] || p.ranges != [])
  }

  lemma BodyTokensAreSelfDelimiting(p: ParsedClass)
    requires Printable(p)
    ensures forall i :: 0 <= i < |BodyTokens(p)| ==> SelfDelimiting(BodyTokens(p)[i])
  {
    assert SelfDelimiting(CARET_TOKEN);
    RangeTokensAreSelfDelimiting(p.ranges);
    forall i | 0 <= i < |p.verbatim| ensures SelfDelimiting(p.verbatim[i]) {
      assert IsVerbatim(p.verbatim[i]);
    }
  }

  lemma ParseBodyItems(p: ParsedClass)
    requires Printable(p)
    ensures ParseItems(p.verbatim + AllRangeTokens(p.ranges)) == Some((p.verbatim, p.ranges))
  {
    ParseRangeTokens(p.ranges);
    ParseVerbatim(p.verbatim, AllRangeTokens(p.ranges));
    assert p.verbatim + [] == p.verbatim && [] + p.ranges == p.ranges;
  }

  /** The caret is the first token exactly when the class is negated. */
  lemma FirstBodyToken(p: ParsedClass)
    requires Printable(p)
    ensures BodyTokens(p) != [] && (BodyTokens(p)[0] == CARET_TOKEN <==> p.inverse)
    ensures p.inverse ==> BodyTokens(p)[1..] == p.verbatim + AllRangeTokens(p.ranges)
    ensures !p.inverse ==> BodyTokens(p)[0..] == p.verbatim + AllRangeTokens(p.ranges)
  {
    hide ParseItems, EncodeEscape, AllOrdered;
    ParseRangeTokens(p.ranges);
    var v, r := p.verbatim, AllRangeTokens(p.ranges);
    if p.inverse {
      assert BodyTokens(p) == [CARET_TOKEN] + (v + r);
    } else {
      assert BodyTokens(p) == v + r;
      assert v != [] ==> IsVerbatim(v[0]) && (v + r)[0] == v[0];
      assert v == [] ==> v + r == r && r != [];
    }
  }

  lemma PrintedBody(p: ParsedClass)
    requires Printable(p)
    ensures CodeUnits(p.ranges) && |PrintClass(p)| >= 2 && Body(PrintClass(p)) == Concat(BodyTokens(p))
  {
  }

  /** Parsing undoes printing. */
  lemma ParsePrint(p: ParsedClass)
    requires Printable(p)
    ensures ParseClass(PrintClass(p)) == Ok(p)
  {
    hide Printable, ParseItems, ClassTokens, Concat, BodyTokens, AllRangeTokens, SelfDelimiting, PrintClass, Body;
    PrintedBody(p);
    BodyTokensAreSelfDelimiting(p);
    TokensOfConcat(BodyTokens(p));
    ParseBodyItems(p);
    FirstBodyToken(p);
  }

  // ---- parsed ranges are code units ----

  ghost predicate IsToken(tok: Text) { tok != [] && TokenLength(tok) == |tok| }

  lemma OctalRunOfPrefix(s: Text, most: nat)
    ensures OctalRun(s[..OctalRun(s, most)], most) == OctalRun(s, most)
  {
    var k := OctalRun(s, most);
    if k > 0 {
      OctalRunOfPrefix(s[1..], most - 1);
      assert s[..k][1..] == s[1..][..k-1];
    }
  }

  lemma TokenOfPrefix(s: Text)
    requires TokenLength(s) > 0
    ensures IsToken(s[..TokenLength(s)])
  {
    var n := TokenLength(s);
    if s[0] == BACKSLASH && 48 <= s[1] <= 55 {
      OctalRunOfPrefix(s[2..], if s[1] <= 51 then 2 else 1);
      assert s[..n][2..] == s[2..][..n-2];
    }
  }

  lemma {:induction false} ClassTokensAreTokens(s: Text)
    ensures forall i :: 0 <= i < |ClassTokens(s)| ==> IsToken(ClassTokens(s)[i])
    decreases |s|
  {
    if s != [] {
      var n := TokenLength(s);
      if n == 0 {
        ClassTokensAreTokens(s[1..]);
      } else {
        TokenOfPrefix(s);
        ClassTokensAreTokens(s[n..]);
      }
    }
  }

  lemma TokenDecodesToCodeUnit(tok: Text)
    requires IsToken(tok)
    ensures DecodeEscape(tok).Some? ==> 0 <= DecodeEscape(tok).value < 0x10000
  {
    if tok[0] == BACKSLASH && |tok| > 1 {
      if 48 <= tok[1] <= 55 {
        ParseIntBound(tok[1..], 8);
      } else if tok[1] == 117 || tok[1] == 120 {
        ParseIntBound(tok[2..], 16);
      }
    }
  }

  lemma {:induction false} ParseItemsGivesCodeUnits(toks: seq<Text>)
    requires forall i :: 0 <= i < |toks| ==> IsToken(toks[i])
    ensures ParseItems(toks).Some? ==> CodeUnits(ParseItems(toks).value.1)
    ensures ParseItems(toks).Some? ==>
              forall i :: 0 <= i < |ParseItems(toks).value.0| ==> IsVerbatim(ParseItems(toks).value.0[i])
    ensures ParseItems(toks).Some? && toks != [] ==> ParseItems(toks).value != ([], [])
    decreases |toks|
  {
    if toks != [] {
      TokenDecodesToCodeUnit(toks[0]);
      ParseItemsGivesCodeUnits(toks[1..]);
      if |toks| > 2 {
        TokenDecodesToCodeUnit(toks[2]);
        ParseItemsGivesCodeUnits(toks[3..]);
      }
    }
  }

  lemma ParsedClassParts(e: Text)
    requires |e| >= 2 && ParseClass(e).Ok?
    ensures var p := ParseClass(e).value;
            && CodeUnits(p.ranges)
            && (forall i :: 0 <= i < |p.verbatim| ==> IsVerbatim(p.verbatim[i]))
            && (p.inverse || p.verbatim != [] || p.ranges != [])
  {
    var toks := ClassTokens(Body(e));
    ClassTokensAreTokens(Body(e));
    ParseItemsGivesCodeUnits(toks[if toks[0] == CARET_TOKEN then 1 else 0..]);
  }

  // ---- folding a class ----

  /** The ranges the folder prints for the ranges it parsed. */
  function FoldedRanges(rs: seq<Range>): seq<Range> { Normalise(WithAllCaseFolds(rs)) }

  lemma FoldsStayCodeUnits(r: Range)
    requires CodeUnits([r])
    ensures CodeUnits(WithCaseFolds(r))
  {
    assert r in [r];
  }

  lemma {:induction false} AllFoldsStayCodeUnits(rs: seq<Range>)
    requires CodeUnits(rs)
    ensures CodeUnits(WithAllCaseFolds(rs))
  {
    if rs != [] {
      FoldsStayCodeUnits(rs[|rs|-1]);
      AllFoldsStayCodeUnits(rs[..|rs|-1]);
    }
  }

  lemma {:induction false} MergeStaysCodeUnits(rs: seq<Range>)
    requires CodeUnits(rs)
    ensures CodeUnits(Merge(rs))
  {
    if rs != [] {
      var m := Merge(rs[..|rs|-1]);
      MergeStaysCodeUnits(rs[..|rs|-1]);
      assert m != [] ==> m[|m|-1] in m;
    }
  }

  lemma FoldedRangesStayCodeUnits(rs: seq<Range>)
    requires CodeUnits(rs)
    ensures CodeUnits(FoldedRanges(rs))
  {
    var all := WithAllCaseFolds(rs);
    AllFoldsStayCodeUnits(rs);
    SortSorts(Leq, all);
    forall r | r in Sort(Leq, all) ensures r in all {
      assert r in multiset(Sort(Leq, all));
    }
    MergeStaysCodeUnits(Sort(Leq, all));
  }

  /** The printed ranges are canonical and denote the parsed set closed under ASCII case. */
  lemma FoldedRangesClose(rs: seq<Range>)
    requires AllOrdered(rs)
    ensures Canonical(FoldedRanges(rs))
    ensures forall c :: InRanges(FoldedRanges(rs), c) <==> InRanges(rs, c) || InRanges(rs, SwapCase(c))
  {
    WithAllCaseFoldsCloses(rs, 0);
    NormaliseIsCanonical(WithAllCaseFolds(rs));
    forall c ensures InRanges(FoldedRanges(rs), c) <==> InRanges(rs, c) || InRanges(rs, SwapCase(c)) {
      WithAllCaseFoldsCloses(rs, c);
    }
  }

  /** `caseFoldCharset`: the text of the folded class. */
  function FoldClass(e: Text): Result<Text, FoldError>
    requires |e| >= 2
  {
    match ParseClass(e)
    case Err(error) => Err(error)
    case Ok(p) =>
      ParsedClassParts(e);
      FoldedRangesStayCodeUnits(p.ranges);
      Ok(PrintClass(p.(ranges := FoldedRanges(p.ranges))))
  }

  /** Ranges as they come out of the printing: of a reversed one its start is left. */
  function Printed(rs: seq<Range>): (ps: seq<Range>)
    ensures |ps| == |rs|
  {
    seq(|rs|, i requires 0 <= i < |rs| => Range(rs[i].lo, Max(rs[i].lo, rs[i].hi)))
  }

  lemma PrintedIsOrdered(rs: seq<Range>)
    requires CodeUnits(rs)
    ensures CodeUnits(Printed(rs)) && AllOrdered(Printed(rs))
    ensures AllOrdered(rs) ==> Printed(rs) == rs
  {
    forall r | r in Printed(rs) ensures 0 <= r.lo < 0x10000 && 0 <= r.hi < 0x10000 && Ordered(r) {
      var i :| 0 <= i < |rs| && Printed(rs)[i] == r;
      assert rs[i] in rs;
    }
    if AllOrdered(rs) {
      forall i | 0 <= i < |rs| ensures Printed(rs)[i] == rs[i] { assert rs[i] in rs; }
    }
  }

  lemma {:induction false} PrintedPrintsSame(rs: seq<Range>)
    requires CodeUnits(rs) && CodeUnits(Printed(rs))
    ensures AllRangeTokens(Printed(rs)) == AllRangeTokens(rs)
  {
    if rs != [] {
      assert Printed(rs)[1..] == Printed(rs[1..]);
      PrintedPrintsSame(rs[1..]);
    }
  }

  lemma FoldedRangesStay(rs: seq<Range>)
    ensures rs != [] ==> FoldedRanges(rs) != []
  {
    if rs != [] {
      var all := WithAllCaseFolds(rs);
      SortSorts(Leq, all);
      assert all != [] && |multiset(Sort(Leq, all))| == |multiset(all)|;
    }
  }

  /** What comes out of a class, reversed ranges or not: it reads back as the same
      flag and escapes, with the folded ranges as they were printed. */
  lemma FoldClassReads(e: Text, folded: Text)
    requires |e| >= 2 && FoldClass(e) == Ok(folded)
    ensures |folded| >= 2
    ensures var p := ParseClass(e).value;
            var q := p.(ranges := Printed(FoldedRanges(p.ranges)));
            Printable(q) && ParseClass(folded) == Ok(q) && folded == PrintClass(q)
  {
    hide ParseItems, FoldedRanges, ClassTokens, TokenLength;
    var p := ParseClass(e).value;
    var rs := FoldedRanges(p.ranges);
    ParsedClassParts(e);
    FoldedRangesStayCodeUnits(p.ranges);
    FoldedRangesStay(p.ranges);
    PrintedIsOrdered(rs);
    PrintedPrintsSame(rs);
    ParsePrint(p.(ranges := Printed(rs)));
  }

  // ---- the folding loops ----

  lemma EmitStep(out: seq<Text>, rs: seq<Range>, a: nat, all: seq<Text>)
    requires CodeUnits(rs) && a < |rs| && out + AllRangeTokens(rs[a..]) == all
    ensures rs[a] in rs && out + RangeTokens(rs[a]) + AllRangeTokens(rs[a+1..]) == all
  {
    hide RangeTokens;
    assert rs[a] in rs && rs[a..][1..] == rs[a+1..];
    var t, u := RangeTokens(rs[a]), AllRangeTokens(rs[a+1..]);
    assert out + (t + u) == out + t + u;
  }

  /** One turn of the emission loop. */
  method EmitRange(h: RangeCell, ghost r: Range, start: seq<Text>) returns (out: seq<Text>)
    requires h.lo == r.lo && h.hi == r.hi && 0 <= r.lo && 0 <= r.hi
    ensures out == start + RangeTokens(r)
  {
    hide EncodeEscape;
    out := start + [EncodeEscape(h.lo)];
    if h.hi > h.lo {
      if h.hi + 1 > h.lo {
        out := out + [HYPHEN_TOKEN];
      }
      out := out + [EncodeEscape(h.hi)];
    }
  }

  /** The emission loop: prints each merged range after what is already there. */
  method EmitRanges(merged: seq<RangeCell>, ghost rs: seq<Range>, start: seq<Text>) returns (out: seq<Text>)
    requires CodeUnits(rs) && Hold(merged, rs)
    ensures out == start + AllRangeTokens(rs)
  {
    hide RangeTokens;
    out := start;
    assert rs[0..] == rs;
    for a := 0 to |merged|
      invariant out + AllRangeTokens(rs[a..]) == start + AllRangeTokens(rs)
    {
      EmitStep(out, rs, a, start + AllRangeTokens(rs));
      out := EmitRange(merged[a], rs[a], out);
    }
    assert out + [] == out;
  }

  lemma PrependTwice(v: seq<Text>, rs: seq<Range>, v': seq<Text>, rs': seq<Range>, rest: Option<(seq<Text>, seq<Range>)>)
    ensures Prepend(v, rs, Prepend(v', rs', rest)) == Prepend(v + v', rs + rs', rest)
  {
    if rest.Some? {
      assert v + (v' + rest.value.0) == v + v' + rest.value.0;
      assert rs + (rs' + rest.value.1) == rs + rs' + rest.value.1;
    }
  }

  /** One parsed range goes onto the list, followed by its case images. */
  method PushRange(ranges: seq<Range>, lo: int, hi: int) returns (pushed: seq<Range>)
    ensures pushed == ranges + WithCaseFolds(Range(lo, hi))
  {
    pushed := ranges + [Range(lo, hi)];
    if !(hi < 65 || lo > 122) {
      if !(hi < 65 || lo > 90) {
        pushed := pushed + [Range(SetBit5(Max(65, lo)), SetBit5(Min(hi, 90)))];
      }
      if !(hi < 97 || lo > 122) {
        pushed := pushed + [Range(ClearBit5(Max(97, lo)), ClearBit5(Min(hi, 122)))];
      }
    }
  }

  lemma AddParsed(copied: seq<Text>, parsed: seq<Range>, r: Range, rest: Option<(seq<Text>, seq<Range>)>)
    ensures Prepend(copied, parsed, Prepend([], [r], rest)) == Prepend(copied, parsed + [r], rest)
    ensures WithAllCaseFolds(parsed + [r]) == WithAllCaseFolds(parsed) + WithCaseFolds(r)
  {
    PrependTwice(copied, parsed, [], [r], rest);
    assert copied + [] == copied && (parsed + [r])[..|parsed|] == parsed;
  }

  lemma AddCopied(copied: seq<Text>, parsed: seq<Range>, tok: Text, rest: Option<(seq<Text>, seq<Range>)>)
    ensures Prepend(copied, parsed, Prepend([tok], [], rest)) == Prepend(copied + [tok], parsed, rest)
  {
    PrependTwice(copied, parsed, [tok], [], rest);
    assert parsed + [] == parsed;
  }

  lemma PrependNothing(rest: Option<(seq<Text>, seq<Range>)>)
    ensures Prepend([], [], rest) == rest
  {
    assert rest.Some? ==> [] + rest.value.0 == rest.value.0 && [] + rest.value.1 == rest.value.1;
  }

  /** The parsing loop. Every parsed range is pushed with its case images; the
      escapes it copies go straight to the output. */
  method CollectRanges(toks: seq<Text>, first: nat) returns (r: Option<(seq<Text>, seq<Range>)>)
    requires first <= |toks|
    ensures ParseItems(toks[first..]).None? <==> r.None?
    ensures r.Some? ==> r.value.0 == ParseItems(toks[first..]).value.0
    ensures r.Some? ==> r.value.1 == WithAllCaseFolds(ParseItems(toks[first..]).value.1)
  {
    var copied: seq<Text>, ranges: seq<Range> := [], [];
    ghost var parsed: seq<Range> := [];
    ghost var all := ParseItems(toks[first..]);
    PrependNothing(all);
    var a := first;
    while a < |toks|
      invariant first <= a <= |toks|
      invariant all == Prepend(copied, parsed, ParseItems(toks[a..]))
      invariant ranges == WithAllCaseFolds(parsed)
    {
      ghost var before, left := a, toks[a..];
      var tok := toks[a];
      if IsVerbatim(tok) {
        AddCopied(copied, parsed, tok, ParseItems(left[1..]));
        copied := copied + [tok];
      } else {
        var lo := DecodeEscape(tok);
        var hi := lo;
        if a + 2 < |toks| && toks[a+1] == HYPHEN_TOKEN {
          hi := DecodeEscape(toks[a+2]);
          a := a + 2;
        }
        if lo.None? || hi.None? {
          return None;
        }
        ranges := PushRange(ranges, lo.value, hi.value);
        AddParsed(copied, parsed, Range(lo.value, hi.value), ParseItems(left[a-before+1..]));
        parsed := parsed + [Range(lo.value, hi.value)];
      }
      a := a + 1;
      assert toks[a..] == left[a-before..];
    }
    assert all == Some((copied + [], parsed + []));
    assert copied + [] == copied && parsed + [] == parsed;
    r := Some((copied, ranges));
  }

  method MakeCells(rs: seq<Range>) returns (cells: seq<RangeCell>)
    ensures Hold(cells, rs) && fresh(cells)
    ensures AllDistinct(cells)
  {
    cells := [];
    for i := 0 to |rs|
      invariant Hold(cells, rs[..i]) && fresh(cells)
      invariant AllDistinct(cells)
    {
      var cell := new RangeCell(rs[i]);
      cells := cells + [cell];
    }
    assert rs[..|rs|] == rs;
  }

  /** `caseFoldCharset` step by step: tokens, collected ranges, `sort`, the
      aliasing merge, and the emission of the class text. */
  method CaseFoldCharset(e: Text) returns (r: Result<Text, FoldError>)
    requires |e| >= 2
    ensures r == FoldClass(e)
  {
    var toks := ClassTokens(Body(e));
    if toks == [] {
      return Err(NoTokens);
    }
    var inverse := toks[0] == CARET_TOKEN;
    var items := CollectRanges(toks, if inverse then 1 else 0);
    if items.None? {
      return Err(NotANumber);
    }
    var out := (if inverse then [CARET_TOKEN] else []) + items.value.0;
    var cells := MakeCells(Sort(Leq, items.value.1));
    var merged := MergeSorted(cells, Sort(Leq, items.value.1));
    ghost var rs := ParseClass(e).value.ranges;
    ParsedClassParts(e);
    FoldedRangesStayCodeUnits(rs);
    out := EmitRanges(merged, FoldedRanges(rs), out);
    r := Ok([91] + Concat(out) + [CLOSE_BRACKET]);
  }
}
