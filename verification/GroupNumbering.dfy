/** Rewriting the tokens of one pattern: capture groups are renumbered, and groups
    that no back-reference names stop capturing. */
module GroupNumbering {
  import opened Prelude
  import opened EscapeCodec
  import opened CodeRanges
  import opened CharClass

  const OPEN: Text := [40]                // (
  const CLOSE: Text := [41]               // )
  const NON_CAPTURE: Text := [40, 63, 58] // (?:

  // ---- numbers as text ----

  predicate IsDecimal(s: Text) { s != [] && forall i :: 0 <= i < |s| ==> 48 <= s[i] <= 57 }

  function Decimal(n: nat): Text {
    if n < 10 then [48 + n] else Decimal(n / 10) + [48 + n % 10]
  }

  lemma {:induction false} DecimalReads(n: nat)
    ensures IsDecimal(Decimal(n)) && DigitsValue(Decimal(n), 10) == n
  {
    if n >= 10 {
      DecimalReads(n / 10);
      assert Decimal(n)[..|Decimal(n)|-1] == Decimal(n / 10);
    } else {
      assert Decimal(n)[..0] == [];
    }
  }

  /** `+tok.substring(1)` on an escape, with 0 for everything the source's test
      rejects (NaN and zero are both falsy). */
  function NumericValue(tok: Text): int {
    if tok != [] && tok[0] == BACKSLASH && IsDecimal(tok[1..]) then DigitsValue(tok[1..], 10) else 0
  }

  lemma EncodedIsNotNumeric(n: nat)
    ensures NumericValue(EncodeEscape(n)) == 0
    ensures EncodeEscape(n) == OPEN <==> n % 0x10000 == 40
    ensures EncodeEscape(n) != NON_CAPTURE
  {
    var e := EncodeEscape(n);
    if n < 32 {
      assert e[1..][0] == 120;
    } else if |e| == 2 {
      assert e[1..][0] == n % 0x10000;
    }
  }

  lemma NumberedEscapeReads(n: nat)
    requires n > 0
    ensures NumericValue([BACKSLASH] + Decimal(n)) == n
    ensures [BACKSLASH] + Decimal(n) != OPEN && [BACKSLASH] + Decimal(n) != NON_CAPTURE
  {
    DecimalReads(n);
    assert ([BACKSLASH] + Decimal(n))[1..] == Decimal(n);
  }

  // ---- groups and references of one token list ----

  /** How many groups the first `i` tokens open. */
  function Opens(toks: seq<Text>, i: nat): (n: nat)
    requires i <= |toks|
    ensures n <= i
  {
    if i == 0 then 0 else Opens(toks, i - 1) + if toks[i-1] == OPEN then 1 else 0
  }

  /** An escape that refers to a group opened to its left. */
  predicate IsBackRef(toks: seq<Text>, i: nat)
    requires i < |toks|
  {
    0 < NumericValue(toks[i]) <= Opens(toks, i)
  }

  predicate IsOutOfRange(toks: seq<Text>, i: nat)
    requires i < |toks|
  {
    NumericValue(toks[i]) > Opens(toks, i)
  }

  /** The groups that the first `n` tokens refer back to. */
  function References(toks: seq<Text>, n: nat): set<int>
    requires n <= |toks|
  {
    if n == 0 then {}
    else References(toks, n - 1) + if IsBackRef(toks, n - 1) then {NumericValue(toks[n-1])} else {}
  }

  predicate Referenced(toks: seq<Text>, k: int) { k in References(toks, |toks|) }

  /** The number given to group `k` when `x` numbers are already taken. */
  function NumberOf(toks: seq<Text>, x: nat, k: nat): (n: nat)
    ensures n >= x
  {
    if k == 0 then x else NumberOf(toks, x, k - 1) + if Referenced(toks, k) then 1 else 0
  }

  /** The counter after a pattern has been renumbered. */
  function CounterAfter(toks: seq<Text>, x: nat): nat { NumberOf(toks, x, Opens(toks, |toks|)) }

  // ---- the passes ----

  /** What token `i` is after the first pass: an escape beyond the groups so far
      is a character. */
  function CharacterToken(toks: seq<Text>, i: nat): Text
    requires i < |toks|
  {
    if IsOutOfRange(toks, i) then EncodeEscape(NumericValue(toks[i])) else toks[i]
  }

  function WithCharacters(toks: seq<Text>): (s: seq<Text>)
    ensures |s| == |toks|
    ensures forall i :: 0 <= i < |toks| ==> s[i] == CharacterToken(toks, i)
  {
    seq(|toks|, i requires 0 <= i < |toks| => CharacterToken(toks, i))
  }

  /** What token `i` is after the third pass: groups and back-references carry
      their new numbers. */
  function RenumberedToken(toks: seq<Text>, x: nat, i: nat): Text
    requires i < |toks|
  {
    var cs := WithCharacters(toks);
    if cs[i] == OPEN then
      if Referenced(toks, Opens(cs, i) + 1) then OPEN else NON_CAPTURE
    else if IsBackRef(toks, i) then
      [BACKSLASH] + Decimal(NumberOf(toks, x, NumericValue(toks[i])))
    else cs[i]
  }

  function Renumbered(toks: seq<Text>, x: nat): (s: seq<Text>)
    ensures |s| == |toks|
    ensures forall i :: 0 <= i < |toks| ==> s[i] == RenumberedToken(toks, x, i)
  {
    seq(|toks|, i requires 0 <= i < |toks| => RenumberedToken(toks, x, i))
  }

  /** Start-of-input assertions match the empty text here, unless doubled. */
  function CaretToken(s: seq<Text>, i: nat): Text
    requires i < |s|
  {
    if s[i] == CARET_TOKEN && !(i + 1 < |s| && s[i+1] == CARET_TOKEN) then [] else s[i]
  }

  function WithoutCarets(s: seq<Text>): (t: seq<Text>)
    ensures |t| == |s|
    ensures forall i :: 0 <= i < |s| ==> t[i] == CaretToken(s, i)
  {
    seq(|s|, i requires 0 <= i < |s| => CaretToken(s, i))
  }

  predicate IsLetter(c: CodeUnit) { 65 <= c <= 90 || 97 <= c <= 122 }

  function FoldLetters(t: Text): Text {
    if t == [] then []
    else (if IsLetter(t[0]) then [91, ClearBit5(t[0]), SetBit5(t[0]), CLOSE_BRACKET] else [t[0]]) + FoldLetters(t[1..])
  }

  /** Case folding of one token: classes as ranges, other text letter by letter. */
  function FoldToken(tok: Text): Result<Text, FoldError> {
    if |tok| >= 2 && tok[0] == 91 then FoldClass(tok)
    else if tok == [] || tok[0] != BACKSLASH then Ok(FoldLetters(tok))
    else Ok(tok)
  }

  function FoldTokens(s: seq<Text>, n: nat): (r: Result<seq<Text>, FoldError>)
    requires n <= |s|
    ensures r.Ok? ==> |r.value| == n
  {
    if n == 0 then Ok([])
    else
      var front := FoldTokens(s, n - 1);
      if front.Err? then front
      else
        var last := FoldToken(s[n-1]);
        if last.Err? then Err(last.error) else Ok(front.value + [last.value])
  }

  /** Everything `allowAnywhereFoldCaseAndRenumberGroups` does to a token list. */
  function Rewritten(toks: seq<Text>, x: nat, fold: bool): Result<seq<Text>, FoldError> {
    var s := WithoutCarets(Renumbered(toks, x));
    if fold then FoldTokens(s, |s|) else Ok(s)
  }

  // ---- the passes as loops that overwrite one list ----

  lemma NumberOfSettles(toks: seq<Text>, x: nat, m: nat, n: nat)
    requires m <= n
    requires forall k :: m < k <= n ==> !Referenced(toks, k)
    ensures NumberOf(toks, x, m) == NumberOf(toks, x, n)
  {
    if m < n { NumberOfSettles(toks, x, m, n - 1); }
  }

  lemma OpenIsNotNumeric()
    ensures NumericValue(OPEN) == 0
  {
  }

  lemma {:induction false} WithCharactersOpens(toks: seq<Text>, i: nat)
    requires i <= |toks|
    ensures Opens(toks, i) <= Opens(WithCharacters(toks), i)
  {
    hide NumericValue, EncodeEscape;
    if i > 0 {
      WithCharactersOpens(toks, i - 1);
      OpenIsNotNumeric();
    }
  }

  lemma BackRefReferences(toks: seq<Text>, i: nat, n: nat)
    requires i < n <= |toks| && IsBackRef(toks, i)
    ensures NumericValue(toks[i]) in References(toks, n)
  {
    if i < n - 1 { BackRefReferences(toks, i, n - 1); }
  }

  /** The groups referred to are those that some token refers back to. */
  lemma {:induction false} ReferencesMean(toks: seq<Text>, n: nat, k: int)
    requires n <= |toks|
    ensures k in References(toks, n) <==> exists i :: 0 <= i < n && IsBackRef(toks, i) && NumericValue(toks[i]) == k
  {
    hide NumericValue, Opens;
    if n > 0 { ReferencesMean(toks, n - 1, k); }
  }

  /** A token left with a numeric value after the first pass is a back-reference. */
  lemma NumericAfterFirstPass(toks: seq<Text>, f: nat)
    requires f < |toks|
    ensures var c := CharacterToken(toks, f);
            if IsBackRef(toks, f)
            then c == toks[f] && c != OPEN && NumericValue(c) <= Opens(WithCharacters(toks), f)
                 && Referenced(toks, NumericValue(c))
            else NumericValue(c) <= 0
  {
    hide EncodeEscape, NumericValue;
    WithCharactersOpens(toks, f);
    OpenIsNotNumeric();
    if IsOutOfRange(toks, f) {
      EncodedIsNotNumeric(NumericValue(toks[f]));
    } else if IsBackRef(toks, f) {
      BackRefReferences(toks, f, |toks|);
    }
  }

  /** The third pass only needs the first pass's result and its own count of groups. */
  lemma ThirdPassAt(toks: seq<Text>, x: nat, f: nat)
    requires f < |toks|
    ensures var c, h := CharacterToken(toks, f), Opens(WithCharacters(toks), f);
            && (c != OPEN && 0 < NumericValue(c) <= h ==> Referenced(toks, NumericValue(c)))
            && RenumberedToken(toks, x, f) ==
               if c == OPEN then (if Referenced(toks, h + 1) then OPEN else NON_CAPTURE)
               else if 0 < NumericValue(c) <= h then [BACKSLASH] + Decimal(NumberOf(toks, x, NumericValue(c)))
               else c
  {
    NumericAfterFirstPass(toks, f);
    hide CharacterToken, NumericValue, Decimal, NumberOf, References;
  }

  /** First pass: count groups, mark the referenced ones in the sparse array `d`
      (its length is `dLen`), and turn the other numeric escapes into characters. */
  method MarkReferences(toks: seq<Text>) returns (a: seq<Text>, d: map<int, int>, dLen: nat)
    ensures a == WithCharacters(toks)
    ensures d.Keys == References(toks, |toks|)
    ensures forall k :: k in d ==> d[k] == -1 && 0 < k < dLen
    ensures dLen <= Opens(toks, |toks|) + 1
  {
    hide EncodeEscape, NumericValue, WithCharacters;
    a, d, dLen := toks, map[], 0;
    var h := 0;
    for f := 0 to |toks|
      invariant |a| == |toks| && h == Opens(toks, f)
      invariant forall i :: 0 <= i < f ==> a[i] == CharacterToken(toks, i)
      invariant forall i :: f <= i < |a| ==> a[i] == toks[i]
      invariant d.Keys == References(toks, f)
      invariant forall k :: k in d ==> d[k] == -1 && 0 < k < dLen
      invariant dLen <= h + 1
    {
      var l := a[f];
      var n := NumericValue(l);
      OpenIsNotNumeric();
      if l == OPEN {
        h := h + 1;
      } else if n > 0 {
        if n <= h {
          d, dLen := d[n := -1], Max(dLen, n + 1);
        } else {
          a := a[f := EncodeEscape(n)];
        }
      }
    }
  }

  /** Second pass: hand out the next numbers to the marked groups, in order. */
  method AssignNumbers(ghost toks: seq<Text>, marked: map<int, int>, dLen: nat, x: nat)
    returns (d: map<int, int>, x': nat)
    requires marked.Keys == References(toks, |toks|)
    requires forall k :: k in marked ==> marked[k] == -1 && 0 < k < dLen
    requires dLen <= Opens(toks, |toks|) + 1
    ensures d.Keys == marked.Keys
    ensures forall k :: k in d ==> k > 0 && d[k] == NumberOf(toks, x, k)
    ensures x' == CounterAfter(toks, x)
  {
    hide References, Opens;
    d, x' := marked, x;
    var f := 1;
    while f < dLen
      invariant 1 <= f <= Max(dLen, 1)
      invariant x' == NumberOf(toks, x, f - 1)
      invariant d.Keys == marked.Keys
      invariant forall k :: k in d ==> d[k] == if k < f then NumberOf(toks, x, k) else -1
    {
      if f in d && d[f] == -1 {
        x' := x' + 1;
        d := d[f := x'];
      }
      f := f + 1;
    }
    NumberOfSettles(toks, x, if dLen == 0 then 0 else dLen - 1, Opens(toks, |toks|));
  }

  /** Third pass: unreferenced groups stop capturing, back-references are renumbered. */
  method Renumber(cs: seq<Text>, ghost toks: seq<Text>, d: map<int, int>, x: nat) returns (a: seq<Text>)
    requires cs == WithCharacters(toks) && d.Keys == References(toks, |toks|)
    requires forall k :: k in d ==> k > 0 && d[k] == NumberOf(toks, x, k)
    ensures a == Renumbered(toks, x)
  {
    hide References, NumberOf, NumericValue, Decimal, WithCharacters, Renumbered, RenumberedToken, CharacterToken;
    a := cs;
    var h := 0;
    for f := 0 to |cs|
      invariant |a| == |cs| && h == Opens(cs, f)
      invariant forall i :: 0 <= i < f ==> a[i] == RenumberedToken(toks, x, i)
      invariant forall i :: f <= i < |a| ==> a[i] == cs[i]
    {
      var l := a[f];
      var n := NumericValue(l);
      ThirdPassAt(toks, x, f);
      if l == OPEN {
        h := h + 1;
        if h !in d {
          a := a[f := NON_CAPTURE];
        }
      } else if n > 0 && n <= h {
        a := a[f := [BACKSLASH] + Decimal(d[n])];
      }
    }
  }

  /** Fourth pass. */
  method DropCarets(s: seq<Text>) returns (a: seq<Text>)
    ensures a == WithoutCarets(s)
  {
    a := s;
    for f := 0 to |s|
      invariant |a| == |s|
      invariant forall i :: 0 <= i < f ==> a[i] == CaretToken(s, i)
      invariant forall i :: f <= i < |a| ==> a[i] == s[i]
    {
      if a[f] == CARET_TOKEN && !(f + 1 < |a| && a[f+1] == CARET_TOKEN) {
        a := a[f := []];
      }
    }
  }

  /** Fifth pass. */
  method FoldAll(s: seq<Text>) returns (r: Result<seq<Text>, FoldError>)
    ensures r == FoldTokens(s, |s|)
  {
    hide FoldToken;
    var a := s;
    for f := 0 to |s|
      invariant |a| == |s| && FoldTokens(s, f) == Ok(a[..f])
      invariant forall i :: f <= i < |a| ==> a[i] == s[i]
    {
      var folded := FoldToken(a[f]);
      if folded.Err? {
        FoldTokensFails(s, f, |s|);
        return Err(folded.error);
      }
      ghost var done := a[..f];
      a := a[f := folded.value];
      assert a[..f+1] == done + [folded.value];
    }
    assert a[..|s|] == a;
    r := Ok(a);
  }

  /** The whole rewriting of one pattern; `x` is the counter shared by all patterns. */
  method RewritePattern(toks: seq<Text>, x: nat, fold: bool) returns (r: Result<seq<Text>, FoldError>, x': nat)
    ensures r == Rewritten(toks, x, fold)
    ensures x' == CounterAfter(toks, x)
  {
    hide FoldTokens, Renumbered, WithCharacters, WithoutCarets, CounterAfter;
    var a, d, dLen := MarkReferences(toks);
    d, x' := AssignNumbers(toks, d, dLen, x);
    a := Renumber(a, toks, d, x);
    a := DropCarets(a);
    if fold {
      r := FoldAll(a);
    } else {
      r := Ok(a);
    }
  }

  /** The first token that cannot be folded decides the error. */
  lemma FoldTokensFails(s: seq<Text>, f: nat, n: nat)
    requires f < n <= |s| && FoldTokens(s, f).Ok? && FoldToken(s[f]).Err?
    ensures FoldTokens(s, n) == Err(FoldToken(s[f]).error)
  {
    hide FoldToken;
    if f + 1 < n { FoldTokensFails(s, f, n - 1); }
  }

  // ---- what a rewritten token is ----

  lemma {:induction false} FoldLettersShape(t: Text)
    ensures FoldLetters(t) == t || 91 in FoldLetters(t)
    ensures t != [] ==> FoldLetters(t) != [] && (FoldLetters(t)[0] == t[0] || FoldLetters(t)[0] == 91)
  {
    if t != [] {
      FoldLettersShape(t[1..]);
      assert t == [t[0]] + t[1..];
    }
  }

  lemma FoldTokenShape(tok: Text)
    requires FoldToken(tok).Ok?
    ensures var out := FoldToken(tok).value;
            && (out == OPEN <==> tok == OPEN) && (out == NON_CAPTURE <==> tok == NON_CAPTURE)
            && NumericValue(out) == NumericValue(tok)
  {
    FoldLettersShape(tok);
    assert OPEN[1..] == [] && NON_CAPTURE[1..] == [63, 58] && NON_CAPTURE[1..][1..] == [58];
    assert FoldLetters([58]) == [58] && FoldLetters([63, 58]) == [63, 58];
  }

  lemma {:induction false} FoldTokensAt(s: seq<Text>, n: nat, i: nat)
    requires i < n <= |s| && FoldTokens(s, n).Ok?
    ensures FoldToken(s[i]) == Ok(FoldTokens(s, n).value[i])
  {
    if i < n - 1 { FoldTokensAt(s, n - 1, i); }
  }

  // ---- the parenthesis of a group ----

  /** The token that opens group `n`. */
  function Target(toks: seq<Text>, n: nat): (t: nat)
    requires 0 < n <= Opens(toks, |toks|)
    ensures t < |toks| && toks[t] == OPEN && Opens(toks, t) + 1 == n
  {
    TargetFrom(toks, n, |toks|)
  }

  function TargetFrom(toks: seq<Text>, n: nat, i: nat): (t: nat)
    requires i <= |toks| && 0 < n <= Opens(toks, i)
    ensures t < i && toks[t] == OPEN && Opens(toks, t) + 1 == n
  {
    if toks[i-1] == OPEN && Opens(toks, i) == n then i - 1 else TargetFrom(toks, n, i - 1)
  }

  lemma OpensMonotone(toks: seq<Text>, i: nat, j: nat)
    requires i <= j <= |toks|
    ensures Opens(toks, i) <= Opens(toks, j)
  {
    if i < j { OpensMonotone(toks, i, j - 1); }
  }

  lemma TargetIsUnique(toks: seq<Text>, t: nat)
    requires t < |toks| && toks[t] == OPEN
    ensures Opens(toks, t) + 1 <= Opens(toks, |toks|) && Target(toks, Opens(toks, t) + 1) == t
  {
    OpensMonotone(toks, t + 1, |toks|);
    var u := Target(toks, Opens(toks, t) + 1);
    if u < t { OpensMonotone(toks, u + 1, t); }
    if t < u { OpensMonotone(toks, t + 1, u); }
  }
}
