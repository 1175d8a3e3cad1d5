/** The text of a pattern. It is cut into tokens as the source cuts it, and read: the
    groups, ends of groups, bars, classes and numeric escapes are marks, each with its
    place. A text that is put together of others has their marks in turn, unless a
    token goes on where the other text begins. */
module PatternText {
  import opened Prelude
  import opened EscapeCodec
  import opened GroupNumbering

  // ---- tokens ----

  predicate IsDigit(c: CodeUnit) { 48 <= c <= 57 }

  /** How many leading units are decimal digits. */
  function DecimalRun(s: Text): (k: nat)
    ensures k <= |s|
  {
    if s != [] && IsDigit(s[0]) then 1 + DecimalRun(s[1..]) else 0
  }

  /** Behind the bracket that opens a class: the length up to and with the bracket
      that closes it, 0 where there is none. */
  function BodyEnd(t: Text): (n: nat)
    ensures n <= |t|
  {
    if t == [] then 0
    else if t[0] == CLOSE_BRACKET then 1
    else if t[0] == BACKSLASH then
      if |t| < 2 || BodyEnd(t[2..]) == 0 then 0 else 2 + BodyEnd(t[2..])
    else if BodyEnd(t[1..]) == 0 then 0 else 1 + BodyEnd(t[1..])
  }

  /** A unit that is in no other token: not `( ) [ \ ^`. */
  predicate IsPlain(c: CodeUnit) { c !in {40, 41, 91, 92, 94} }

  function PlainRun(s: Text): (k: nat)
    ensures k <= |s|
    ensures s != [] && IsPlain(s[0]) ==> k > 0
  {
    if s != [] && IsPlain(s[0]) then 1 + PlainRun(s[1..]) else 0
  }

  /** `!`, `:` and `=`, which behind `(?` make another kind of group. */
  predicate IsSign(c: CodeUnit) { c in {33, 58, 61} }

  /** The length of the first token of a pattern, 0 where none starts. */
  function PatternTokenLength(s: Text): (n: nat)
    ensures n <= |s|
  {
    if s == [] then 0
    else if s[0] == 91 then (if BodyEnd(s[1..]) == 0 then 0 else 1 + BodyEnd(s[1..]))
    else if s[0] == BACKSLASH then
      if |s| == 1 then 0
      else if s[1] == 117 then (if |s| >= 6 && IsHex(s[2]) && IsHex(s[3]) && IsHex(s[4]) && IsHex(s[5]) then 6 else 0)
      else if s[1] == 120 then (if |s| >= 4 && IsHex(s[2]) && IsHex(s[3]) then 4 else 0)
      else if IsDigit(s[1]) then 1 + DecimalRun(s[1..])
      else 2
    else if s[0] == 40 then (if StartsGroup(s[1..]) then 3 else 1)
    else if s[0] == 41 || s[0] == 94 then 1
    else PlainRun(s)
  }

  /** `?` with a sign behind it. */
  predicate StartsGroup(t: Text) { |t| >= 2 && t[0] == 63 && IsSign(t[1]) }

  predicate StartsDigit(t: Text) { t != [] && IsDigit(t[0]) }

  /** All matches of the token pattern, left to right. */
  function PatternTokens(s: Text): seq<Text> {
    if s == [] then []
    else
      var n := PatternTokenLength(s);
      if n == 0 then PatternTokens(s[1..]) else [s[..n]] + PatternTokens(s[n..])
  }

  // ---- reading a pattern ----

  /** What shapes a pattern: a group that captures, another group by its sign, the
      end of a group, the assertion of the start, a bar, a class, an escape with digits,
      or text no token fits. */
  datatype Kind = Capture | Group(sign: CodeUnit) | Close | Start | Bar | Class | Numeral(digits: Text) | Broken

  datatype Mark = Mark(at: nat, kind: Kind)

  function BarMarks(t: Text, at: nat): seq<Mark> {
    if t == [] then [] else (if t[0] == 124 then [Mark(at, Bar)] else []) + BarMarks(t[1..], at + 1)
  }

  function TokenMarks(tok: Text, at: nat): seq<Mark> {
    if tok == [] then []
    else if tok[0] == 40 then [Mark(at, if |tok| >= 3 then Group(tok[2]) else Capture)]
    else if tok[0] == 41 then [Mark(at, Close)]
    else if tok[0] == 94 then [Mark(at, Start)]
    else if tok[0] == 91 then [Mark(at, Class)]
    else if tok[0] == BACKSLASH then
      if |tok| > 1 && IsDigit(tok[1]) then [Mark(at, Numeral(tok[1..]))] else []
    else BarMarks(tok, at)
  }

  /** The marks of a text that begins at `at`, token by token. */
  function Scan(s: Text, at: nat): seq<Mark>
    decreases |s|
  {
    if s == [] then []
    else
      var n := PatternTokenLength(s);
      if n == 0 then [Mark(at, Broken)] + Scan(s[1..], at + 1) else TokenMarks(s[..n], at) + Scan(s[n..], at + n)
  }

  predicate AllFrom(marks: seq<Mark>, at: nat) { forall i :: 0 <= i < |marks| ==> marks[i].at >= at }

  lemma {:induction false} BarMarksFrom(t: Text, at: nat)
    ensures AllFrom(BarMarks(t, at), at)
  {
    if t != [] { BarMarksFrom(t[1..], at + 1); }
  }

  lemma {:induction false} ScanFrom(s: Text, at: nat)
    ensures AllFrom(Scan(s, at), at)
    decreases |s|
  {
    if s != [] {
      var n := PatternTokenLength(s);
      if n == 0 { ScanFrom(s[1..], at + 1); } else { ScanFrom(s[n..], at + n); BarMarksFrom(s[..n], at); }
    }
  }

  // ---- where a text splits ----

  lemma ScanStep(tok: Text, rest: Text, at: nat)
    requires tok != [] && PatternTokenLength(tok + rest) == |tok|
    ensures Scan(tok + rest, at) == TokenMarks(tok, at) + Scan(rest, at + |tok|)
  {
    hide PatternTokenLength, TokenMarks;
    assert (tok + rest)[..|tok|] == tok && (tok + rest)[|tok|..] == rest;
  }

  /** A token that does not go on into what stands behind it reads as it does alone. */
  lemma DelimitedSplits(tok: Text, rest: Text, at: nat)
    requires tok != [] && PatternTokenLength(tok) == |tok| && PatternTokenLength(tok + rest) == |tok|
    ensures Scan(tok, at) == TokenMarks(tok, at)
    ensures Scan(tok + rest, at) == Scan(tok, at) + Scan(rest, at + |tok|)
  {
    hide PatternTokenLength, TokenMarks, Scan;
    ScanStep(tok, rest, at);
    assert tok + [] == tok;
    ScanStep(tok, [], at);
    ScanNothing(at + |tok|);
  }

  lemma ScanNothing(at: nat)
    ensures Scan([], at) == []
  {}

  lemma {:induction false} BodyEndOfPrefix(t: Text, rest: Text)
    requires BodyEnd(t) == |t| > 0
    ensures BodyEnd(t + rest) == |t|
    decreases |t|
  {
    if t[0] == CLOSE_BRACKET {
    } else if t[0] == BACKSLASH {
      assert (t + rest)[2..] == t[2..] + rest;
      BodyEndOfPrefix(t[2..], rest);
    } else {
      assert (t + rest)[1..] == t[1..] + rest;
      BodyEndOfPrefix(t[1..], rest);
    }
  }

  lemma {:induction false} DecimalRunOfPrefix(t: Text, rest: Text)
    requires DecimalRun(t) == |t|
    ensures DecimalRun(t + rest) == |t| + DecimalRun(rest)
  {
    if t == [] {
      assert t + rest == rest;
    } else {
      assert (t + rest)[1..] == t[1..] + rest;
      DecimalRunOfPrefix(t[1..], rest);
    }
  }

  /** A token, as the token pattern finds it. */
  predicate IsPatternToken(tok: Text) { tok != [] && PatternTokenLength(tok) == |tok| }

  /** Whether a token goes on into the text behind it: digits into digits, and a
      parenthesis into a question mark and a sign. */
  predicate GoesOn(tok: Text, rest: Text) {
    (|tok| > 1 && tok[0] == BACKSLASH && IsDigit(tok[1]) && StartsDigit(rest)) || (tok == OPEN && StartsGroup(rest))
  }

  lemma TokenDelimited(tok: Text, rest: Text)
    requires IsPatternToken(tok) && !IsPlain(tok[0]) && !GoesOn(tok, rest)
    ensures PatternTokenLength(tok + rest) == |tok|
  {
    var s := tok + rest;
    assert s[1..] == tok[1..] + rest;
    if tok[0] == 91 {
      BodyEndOfPrefix(tok[1..], rest);
    } else if tok[0] == BACKSLASH && IsDigit(tok[1]) {
      DecimalRunOfPrefix(tok[1..], rest);
    } else if tok[0] == BACKSLASH {
      assert forall i :: 0 <= i < |tok| ==> s[i] == tok[i];
    } else if tok == OPEN {
      assert tok[1..] == [] && [] + rest == rest;
    } else if tok[0] == 40 {
      assert tok[1..][0] == tok[1] && tok[1..][1] == tok[2];
    }
  }

  // ---- plain text ----

  predicate AllPlain(t: Text) { forall i :: 0 <= i < |t| ==> IsPlain(t[i]) }

  lemma {:induction false} BarMarksConcat(a: Text, b: Text, at: nat)
    ensures BarMarks(a + b, at) == BarMarks(a, at) + BarMarks(b, at + |a|)
  {
    if a == [] {
      assert a + b == b;
    } else {
      BarMarksConcat(a[1..], b, at + 1);
      BarMarksCons(a[0], a[1..], at);
      BarMarksCons(a[0], a[1..] + b, at);
      assert a == [a[0]] + a[1..] && a + b == [a[0]] + (a[1..] + b);
    }
  }

  lemma BarMarksCons(c: CodeUnit, t: Text, at: nat)
    ensures BarMarks([c] + t, at) == (if c == 124 then [Mark(at, Bar)] else []) + BarMarks(t, at + 1)
  {
    assert ([c] + t)[1..] == t;
  }

  /** Plain text, as far as it goes, is one token. */
  lemma PlainStep(t: Text, at: nat)
    requires t != [] && IsPlain(t[0])
    ensures var n := PlainRun(t); 0 < n <= |t| && Scan(t, at) == BarMarks(t[..n], at) + Scan(t[n..], at + n)
  {
    hide PatternTokenLength, Scan, BarMarks;
    var n := PlainRun(t);
    assert t[..n] + t[n..] == t;
    PlainIsToken(t);
    ScanStep(t[..n], t[n..], at);
  }

  lemma PlainIsToken(t: Text)
    requires t != [] && IsPlain(t[0])
    ensures PatternTokenLength(t) == PlainRun(t)
  {}

  /** One plain unit in front of a text. */
  lemma PlainUnitSplits(c: CodeUnit, rest: Text, at: nat)
    requires IsPlain(c)
    ensures Scan([c] + rest, at) == BarMarks([c], at) + Scan(rest, at + 1)
  {
    hide Scan, PatternTokenLength, BarMarks;
    var s, n := [c] + rest, PlainRun(rest);
    assert s[1..] == rest;
    PlainStep(s, at);
    assert s[n + 1..] == rest[n..] && s[..n + 1] == [c] + rest[..n];
    BarMarksConcat([c], rest[..n], at);
    if rest != [] && IsPlain(rest[0]) {
      PlainStep(rest, at + 1);
      Reassociate(BarMarks([c], at), BarMarks(rest[..n], at + 1), Scan(rest[n..], at + 1 + n));
    } else {
      assert rest[..n] == [] && rest[n..] == rest;
      NoBars(at + 1);
    }
  }

  lemma NoBars(at: nat)
    ensures BarMarks([], at) == []
  {}

  /** Plain text reads as its bars, whatever stands behind it. */
  lemma {:induction false} PlainSplits(t: Text, rest: Text, at: nat)
    requires AllPlain(t)
    ensures Scan(t + rest, at) == BarMarks(t, at) + Scan(rest, at + |t|)
  {
    hide Scan, BarMarks;
    if t == [] {
      assert t + rest == rest;
      NoBars(at);
    } else {
      PlainUnitSplits(t[0], t[1..] + rest, at);
      assert t + rest == [t[0]] + (t[1..] + rest) && t == [t[0]] + t[1..];
      PlainSplits(t[1..], rest, at + 1);
      BarMarksConcat([t[0]], t[1..], at);
      Reassociate(BarMarks([t[0]], at), BarMarks(t[1..], at + 1), Scan(rest, at + |t|));
    }
  }

  // ---- tokens are tokens ----

  lemma {:induction false} BodyEndStops(t: Text)
    requires BodyEnd(t) > 0
    ensures BodyEnd(t[..BodyEnd(t)]) == BodyEnd(t)
    decreases |t|
  {
    var n := BodyEnd(t);
    if t[0] == CLOSE_BRACKET {
    } else if t[0] == BACKSLASH {
      BodyEndStops(t[2..]);
      assert t[..n][2..] == t[2..][..n-2];
    } else {
      BodyEndStops(t[1..]);
      assert t[..n][1..] == t[1..][..n-1];
    }
  }

  lemma {:induction false} DecimalRunStops(t: Text)
    ensures DecimalRun(t[..DecimalRun(t)]) == DecimalRun(t)
  {
    var n := DecimalRun(t);
    if n > 0 {
      DecimalRunStops(t[1..]);
      assert t[..n][1..] == t[1..][..n-1];
    }
  }

  lemma {:induction false} PlainRunStops(t: Text)
    ensures PlainRun(t[..PlainRun(t)]) == PlainRun(t)
  {
    var n := PlainRun(t);
    if n > 0 {
      PlainRunStops(t[1..]);
      assert t[..n][1..] == t[1..][..n-1];
    }
  }

  lemma TokenStops(s: Text)
    requires PatternTokenLength(s) > 0
    ensures IsPatternToken(s[..PatternTokenLength(s)])
  {
    var n := PatternTokenLength(s);
    var tok := s[..n];
    if s[0] == 91 {
      BodyEndStops(s[1..]);
      assert tok[1..] == s[1..][..n-1];
    } else if s[0] == BACKSLASH && IsDigit(s[1]) {
      DecimalRunStops(s[1..]);
      assert tok[1..] == s[1..][..n-1];
    } else if s[0] == 40 {
      if n == 3 { assert tok[1..] == s[1..][..2]; }
    } else if IsPlain(s[0]) {
      PlainRunStops(s);
    }
  }

  predicate Tokenised(toks: seq<Text>) { forall i :: 0 <= i < |toks| ==> IsPatternToken(toks[i]) }

  lemma {:induction false} PatternTokensAreTokens(s: Text)
    ensures Tokenised(PatternTokens(s))
    decreases |s|
  {
    hide PatternTokenLength;
    if s != [] {
      var n := PatternTokenLength(s);
      if n == 0 {
        PatternTokensAreTokens(s[1..]);
      } else {
        TokenStops(s);
        PatternTokensAreTokens(s[n..]);
      }
    }
  }

  lemma {:induction false} PlainRunIsPlain(t: Text)
    requires PlainRun(t) == |t|
    ensures AllPlain(t)
  {
    if t != [] { PlainRunIsPlain(t[1..]); }
  }

  // ---- the first mark ----

  /** A text that begins with a bracket, a parenthesis or a bar has a mark there. */
  lemma SyntaxMark(s: Text, at: nat)
    requires s != [] && s[0] in {40, 41, 91, 124}
    ensures Scan(s, at) != [] && Scan(s, at)[0].at == at
    ensures s[0] == 40 ==> Scan(s, at)[0] == Mark(at, if StartsGroup(s[1..]) then Group(s[2]) else Capture)
  {
    var n := PatternTokenLength(s);
    if s[0] == 124 {
      PlainStep(s, at);
      BarMarksCons(124, s[1..PlainRun(s)], at);
      assert s[..PlainRun(s)] == [124] + s[1..PlainRun(s)];
    } else if n > 0 {
      assert s[..n][0] == s[0];
    }
  }

  lemma NumeralMark(s: Text, at: nat)
    requires |s| > 1 && s[0] == BACKSLASH && IsDigit(s[1])
    ensures Scan(s, at) != [] && Scan(s, at)[0] == Mark(at, Numeral(s[1..1 + DecimalRun(s[1..])]))
  {
    var n := 1 + DecimalRun(s[1..]);
    assert s == s[..n] + s[n..] && s[..n][1..] == s[1..n];
    ScanStep(s[..n], s[n..], at);
  }

  /** Only digits behind a backslash make a numeral. */
  lemma NoNumeralMark(s: Text, at: nat)
    requires s != [] && !(|s| > 1 && s[0] == BACKSLASH && IsDigit(s[1]))
    ensures Scan(s, at) != [] && Scan(s, at)[0].at == at ==> !Scan(s, at)[0].kind.Numeral?
  {
    hide Scan;
    if IsPlain(s[0]) {
      PlainStep(s, at);
      var n := PlainRun(s);
      BarsAreBars(s[..n], at);
      ScanFrom(s[n..], at + n);
      FirstOfTwo(BarMarks(s[..n], at), Scan(s[n..], at + n), at, at + n);
    } else {
      SyntaxScan(s, at);
    }
  }

  lemma FirstOfTwo(a: seq<Mark>, b: seq<Mark>, at: nat, later: nat)
    requires AllFrom(b, later) && at < later
    ensures a + b != [] && (a + b)[0].at == at ==> a != [] && (a + b)[0] == a[0]
  {}

  lemma SyntaxScan(s: Text, at: nat)
    requires s != [] && !IsPlain(s[0]) && !(|s| > 1 && s[0] == BACKSLASH && IsDigit(s[1]))
    ensures Scan(s, at) != [] && Scan(s, at)[0].at == at ==> !Scan(s, at)[0].kind.Numeral?
  {
    var n := PatternTokenLength(s);
    if n > 0 {
      ScanFrom(s[n..], at + n);
      assert s[..n][0] == s[0] && (n > 1 ==> s[..n][1] == s[1]);
    }
  }

  lemma {:induction false} BarsAreBars(t: Text, at: nat)
    ensures forall i :: 0 <= i < |BarMarks(t, at)| ==> BarMarks(t, at)[i].kind.Bar?
  {
    if t != [] { BarsAreBars(t[1..], at + 1); }
  }
}
