/** The pattern of the index page's search: a substring for a lower-case query,
    camel-case bits otherwise. */
module SearchPattern {
  import opened Prelude
  import opened EscapeCodec
  import opened MiniRegex
  import opened QueryCompilers

  /** `. * + ? | ( ) [ ] \`; neither the anchors nor the braces. */
  const SEARCH_SPECIAL: set<CodeUnit> := {46, 42, 43, 63, 124, 40, 41, 91, 93, 92}

  /** Every capital letter lets lower-case letters stand in front of it. */
  function LeadIns(e: Text): Text {
    if e == [] then [] else (if IsUpper(e[0]) then LOWERS + [e[0]] else [e[0]]) + LeadIns(e[1..])
  }

  datatype Compiled = Compiled(pattern: Text, ignoreCase: bool)

  function CompilePattern(lower: Text -> Text, q: Text): Compiled {
    var escaped := Escape(SEARCH_SPECIAL, q);
    if lower(q) != q then Compiled(LeadIns(escaped), false) else Compiled(escaped, true)
  }

  /** The case folding of a case-sensitive pattern. */
  const SAME: CodeUnit -> CodeUnit := (c: CodeUnit) => c

  /** The flag decides between the given case folding and none. */
  ghost predicate Accepts(canon: CodeUnit -> CodeUnit, r: Compiled, t: Text) {
    var p := Parse(r.pattern);
    p.Some? && Test(if r.ignoreCase then canon else SAME, p.value, t)
  }

  predicate IsAnchor(c: CodeUnit) { c == CARET || c == DOLLAR }

  predicate AnchorFree(q: Text) { forall i :: 0 <= i < |q| ==> !IsAnchor(q[i]) }

  /** No part of the query reads as a count, such as `{2}`, `{2,}` or `{2,3}`. */
  predicate CountFree(q: Text) { forall i :: 0 <= i < |q| ==> Quantifier(q[i..]).None? }

  /** The query means the same as a pattern and as a text. */
  predicate IsPlainQuery(q: Text) { AnchorFree(q) && CountFree(q) }

  // ---- reading the compiled pattern ----

  function LeadIn(c: CodeUnit, mixed: bool): seq<Atom> { if mixed && IsUpper(c) then [Lowers] else [] }

  function InFront(atoms: seq<Atom>, rest: Option<seq<Atom>>): Option<seq<Atom>> {
    if rest.None? then None else Some(atoms + rest.value)
  }

  /** What a query is read as: anchors anchor, a count repeats the character in front
      of it, and is an error behind anything else; other characters stand for themselves. */
  function Atoms(q: Text, mixed: bool): Option<seq<Atom>>
    decreases |q|
  {
    if q == [] then Some([])
    else if q[0] == CARET then InFront([Start], Atoms(q[1..], mixed))
    else if q[0] == DOLLAR then InFront([End], Atoms(q[1..], mixed))
    else if Quantifier(q).Some? then None
    else
      var a := Counted(q[0], q[1..]);
      if a.None? then None else InFront(LeadIn(q[0], mixed) + [a.value.0], Atoms(q[1..][a.value.1..], mixed))
  }

  function PatternText(q: Text, mixed: bool): Text {
    var escaped := Escape(SEARCH_SPECIAL, q);
    if mixed then LeadIns(escaped) else escaped
  }

  /** What the two rewritings make of one character. */
  function Piece(c: CodeUnit, mixed: bool): Text {
    (if mixed && IsUpper(c) then LOWERS else []) + (if c in SEARCH_SPECIAL then [BACKSLASH, c] else [c])
  }

  lemma LeadInsStep(c: CodeUnit, e: Text)
    ensures LeadIns([c] + e) == (if IsUpper(c) then LOWERS else []) + [c] + LeadIns(e)
  {
    assert ([c] + e)[1..] == e;
  }

  lemma PieceLeads(c: CodeUnit, e: Text)
    ensures LeadIns((if c in SEARCH_SPECIAL then [BACKSLASH, c] else [c]) + e) == Piece(c, true) + LeadIns(e)
  {
    hide LeadIns;
    if c in SEARCH_SPECIAL {
      LeadInsStep(BACKSLASH, [c] + e);
      LeadInsStep(c, e);
      assert [BACKSLASH, c] + e == [BACKSLASH] + ([c] + e);
      assert [BACKSLASH, c] + LeadIns(e) == [BACKSLASH] + ([c] + LeadIns(e));
    } else {
      LeadInsStep(c, e);
    }
  }

  lemma PatternTextStep(q: Text, mixed: bool)
    requires q != []
    ensures PatternText(q, mixed) == Piece(q[0], mixed) + PatternText(q[1..], mixed)
  {
    hide LeadIns;
    PieceLeads(q[0], Escape(SEARCH_SPECIAL, q[1..]));
  }

  // ---- counts survive the rewriting ----

  /** A digit, a comma or a brace. */
  predicate InCounts(c: CodeUnit) { 48 <= c <= 57 || c in {44, OPEN_BRACE, CLOSE_BRACE} }

  /** The rewriting leaves such a character alone, and starts with none for any other. */
  lemma StartsAlike(q: Text, mixed: bool)
    ensures PatternText(q, mixed) == [] <==> q == []
    ensures q != [] && InCounts(q[0]) ==> PatternText(q, mixed) == [q[0]] + PatternText(q[1..], mixed)
    ensures q != [] && !InCounts(q[0]) ==> !InCounts(PatternText(q, mixed)[0])
  {
    hide PatternText;
    if q == [] { NothingRewritten(mixed); } else { PatternTextStep(q, mixed); }
  }

  lemma NothingRewritten(mixed: bool)
    ensures PatternText([], mixed) == []
  {}

  lemma {:induction false} CountCharsStay(q: Text, mixed: bool, n: nat)
    requires n <= |q| && forall i :: 0 <= i < n ==> InCounts(q[i])
    ensures PatternText(q, mixed) == q[..n] + PatternText(q[n..], mixed)
  {
    hide PatternText;
    if n == 0 {
      assert q[0..] == q;
    } else {
      StartsAlike(q, mixed);
      CountCharsStay(q[1..], mixed, n - 1);
      assert q[..n] == [q[0]] + q[1..][..n - 1] && q[n..] == q[1..][n - 1..];
    }
  }

  lemma {:induction false} CountCharsWere(q: Text, mixed: bool, n: nat)
    requires var p := PatternText(q, mixed); n <= |p| && forall i :: 0 <= i < n ==> InCounts(p[i])
    ensures n <= |q| && q[..n] == PatternText(q, mixed)[..n]
  {
    hide PatternText, InCounts;
    var p := PatternText(q, mixed);
    StartsAlike(q, mixed);
    if n > 0 {
      assert InCounts(p[0]);
      assert p[1..] == PatternText(q[1..], mixed);
      CountCharsWere(q[1..], mixed, n - 1);
      assert q[..n] == [q[0]] + q[1..][..n - 1] && p[..n] == [p[0]] + p[1..][..n - 1];
    }
  }

  lemma {:induction false} DigitRunAgrees(a: Text, b: Text, n: nat)
    requires n <= |a| && n <= |b| && a[..n] == b[..n] && DigitRun(a, 10) < n
    ensures DigitRun(b, 10) == DigitRun(a, 10)
  {
    assert a[0] == a[..n][0] && b[0] == b[..n][0];
    if DigitRun(a, 10) > 0 {
      assert a[1..][..n - 1] == a[..n][1..] && b[1..][..n - 1] == b[..n][1..];
      DigitRunAgrees(a[1..], b[1..], n - 1);
    }
  }

  /** Digits with another character behind them, at the front of both texts. */
  lemma DigitsAreLocal(a: Text, b: Text, n: nat)
    requires n <= |a| && n <= |b| && a[..n] == b[..n] && DigitRun(a, 10) < n
    ensures var k := DigitRun(a, 10);
            DigitRun(b, 10) == k && b[..k] == a[..k] && b[k] == a[k] && b[k..][..n - k] == a[k..][..n - k]
  {
    hide DigitRun;
    var k := DigitRun(a, 10);
    DigitRunAgrees(a, b, n);
    assert a[..k] == a[..n][..k] && b[..k] == b[..n][..k];
    assert a[k] == a[..n][k] && b[k] == b[..n][k];
    assert a[k..][..n - k] == a[..n][k..] && b[k..][..n - k] == b[..n][k..];
  }

  lemma FirstAgrees(a: Text, b: Text, n: nat)
    requires 0 < n <= |a| && n <= |b| && a[..n] == b[..n]
    ensures a[0] == b[0] && a[1..][..n - 1] == b[1..][..n - 1]
  {
    assert a[0] == a[..n][0] && b[0] == b[..n][0];
    assert a[1..][..n - 1] == a[..n][1..] && b[1..][..n - 1] == b[..n][1..];
  }

  /** A count is told by its own characters. */
  lemma CountIsLocal(a: Text, b: Text)
    requires Quantifier(a).Some? && Quantifier(a).value.length <= |b|
    requires b[..Quantifier(a).value.length] == a[..Quantifier(a).value.length]
    ensures Quantifier(b) == Quantifier(a)
  {
    hide DigitsValue, DigitRun;
    var n, k := Quantifier(a).value.length, DigitRun(a[1..], 10);
    FirstAgrees(a, b, n);
    DigitsAreLocal(a[1..], b[1..], n - 1);
    var u, v := a[1..][k..], b[1..][k..];
    if u[0] != CLOSE_BRACE {
      FirstAgrees(u, v, n - 1 - k);
      DigitsAreLocal(u[1..], v[1..], n - 2 - k);
    }
  }

  lemma CountShape(t: Text)
    requires Quantifier(t).Some?
    ensures var n := Quantifier(t).value.length;
            && t[n - 1] == CLOSE_BRACE && 48 <= t[1] <= 57
            && forall i :: 0 <= i < n - 1 ==> InCounts(t[i]) && t[i] != CLOSE_BRACE
  {
    hide DigitsValue, DigitRun;
    var k := DigitRun(t[1..], 10);
    var u := t[1..][k..];
    DigitRunIsDigits(t[1..], 10);
    assert forall i :: 0 < i <= k ==> t[i] == t[1..][i - 1];
    assert u[0] == t[k + 1];
    if u[0] != CLOSE_BRACE {
      var m := DigitRun(u[1..], 10);
      DigitRunIsDigits(u[1..], 10);
      assert forall i :: k + 1 < i <= k + 1 + m ==> t[i] == u[1..][i - k - 2];
      assert u[1..][m..][0] == t[k + m + 2];
    }
  }

  /** A count in the query is the same count in the pattern, and nothing else is one. */
  lemma CountStays(q: Text, mixed: bool)
    ensures Quantifier(PatternText(q, mixed)) == Quantifier(q)
    ensures Quantifier(q).Some? ==>
              PatternText(q, mixed)[Quantifier(q).value.length..] == PatternText(q[Quantifier(q).value.length..], mixed)
  {
    hide PatternText, Quantifier;
    var p := PatternText(q, mixed);
    if Quantifier(q).Some? {
      var n := Quantifier(q).value.length;
      CountShape(q);
      CountCharsStay(q, mixed, n);
      assert p[..n] == q[..n] && p[n..] == PatternText(q[n..], mixed);
      CountIsLocal(q, p);
    } else if Quantifier(p).Some? {
      CountShape(p);
      CountCharsWere(q, mixed, Quantifier(p).value.length);
      CountIsLocal(p, q);
      assert false;
    }
  }

  // ---- parsing the compiled pattern ----

  lemma ParseLowers(p: Text)
    ensures Parse(LOWERS + p) == WithFront([Lowers], Parse(p))
  {
    assert (LOWERS + p)[6..] == p && (LOWERS + p)[..6] == LOWERS;
    assert Token(LOWERS + p) == Some((Lowers, 6));
  }

  lemma FrontTwice(a: seq<Atom>, b: seq<Atom>, p: Option<Pattern>)
    requires p.Some? ==> p.value != []
    ensures WithFront(a, WithFront(b, p)) == WithFront(a + b, p)
  {
    if p.Some? { assert a + (b + p.value[0]) == a + b + p.value[0]; }
  }

  lemma FrontOfOne(a: seq<Atom>, b: seq<Atom>)
    ensures WithFront(a, Some([b])) == Some([a + b])
  {
    assert [a + b] + [b][1..] == [a + b];
  }

  lemma AnchorParses(c: CodeUnit, p: Text)
    requires IsAnchor(c)
    ensures Parse([c] + p) == WithFront([if c == CARET then Start else End], Parse(p))
  {
    assert ([c] + p)[1..] == p;
  }

  /** A character, escaped or not, with its count. */
  lemma ParseCounted(c: CodeUnit, escaped: bool, p: Text)
    requires if escaped then IsPunctuation(c) else c != BAR && !IsSyntax(c) && Quantifier([c] + p).None?
    ensures var a := Counted(c, p);
            Parse((if escaped then [BACKSLASH, c] else [c]) + p)
            == if a.None? then None else WithFront([a.value.0], Parse(p[a.value.1..]))
  {
    hide Quantifier, Counted;
    var front := if escaped then [BACKSLASH, c] else [c];
    var a := Counted(c, p);
    assert (front + p)[|front|..] == p;
    assert Token(front + p) == CountedToken(c, |front|, front + p);
    if a.Some? { assert (front + p)[|front| + a.value.1..] == p[a.value.1..]; }
  }

  lemma CountAloneFails(p: Text)
    requires Quantifier(p).Some?
    ensures Parse(p) == None
  {
    hide Quantifier;
    assert p[0] == OPEN_BRACE;
  }

  lemma PieceParses(c: CodeUnit, mixed: bool, p: Text)
    requires !IsAnchor(c) && Quantifier([c] + p).None?
    ensures var a := Counted(c, p);
            Parse(Piece(c, mixed) + p) == if a.None? then None else WithFront(LeadIn(c, mixed) + [a.value.0], Parse(p[a.value.1..]))
  {
    hide Quantifier, Counted, Parse;
    var a := Counted(c, p);
    ParseCounted(c, c in SEARCH_SPECIAL, p);
    if mixed && IsUpper(c) {
      ParseLowers([c] + p);
      assert Piece(c, mixed) + p == LOWERS + ([c] + p);
      if a.Some? { FrontTwice([Lowers], [a.value.0], Parse(p[a.value.1..])); }
    } else {
      assert Piece(c, mixed) == if c in SEARCH_SPECIAL then [BACKSLASH, c] else [c];
      if a.Some? { assert LeadIn(c, mixed) + [a.value.0] == [a.value.0]; }
    }
  }

  function OneAlternative(atoms: Option<seq<Atom>>): Option<Pattern> {
    if atoms.None? then None else Some([atoms.value])
  }

  lemma OneInFront(atoms: seq<Atom>, rest: Option<seq<Atom>>)
    ensures WithFront(atoms, OneAlternative(rest)) == OneAlternative(InFront(atoms, rest))
  {
    if rest.Some? { FrontOfOne(atoms, rest.value); }
  }

  /** Any query compiles to one alternative, or to an error, as the query reads. */
  lemma {:induction false} PatternParses(q: Text, mixed: bool)
    ensures Parse(PatternText(q, mixed)) == OneAlternative(Atoms(q, mixed))
    decreases |q|
  {
    hide Parse, PatternText, Piece, Quantifier, Counted, LeadIn, OneAlternative;
    if q == [] {
      ParseNothing(mixed);
    } else {
      var rest := PatternText(q[1..], mixed);
      PatternTextStep(q, mixed);
      CountStays(q, mixed);
      CountStays(q[1..], mixed);
      if IsAnchor(q[0]) {
        var anchor: seq<Atom> := [if q[0] == CARET then Start else End];
        PatternParses(q[1..], mixed);
        AnchorPiece(q[0], mixed);
        AnchorParses(q[0], rest);
        OneInFront(anchor, Atoms(q[1..], mixed));
      } else if Quantifier(q).Some? {
        CountAloneFails(PatternText(q, mixed));
        NoAlternative();
      } else {
        var a := Counted(q[0], q[1..]);
        SameCounted(q, mixed);
        NoCountHere(q, mixed);
        PieceParses(q[0], mixed, rest);
        if a.None? {
          NoAlternative();
        } else {
          PatternParses(q[1..][a.value.1..], mixed);
          OneInFront(LeadIn(q[0], mixed) + [a.value.0], Atoms(q[1..][a.value.1..], mixed));
        }
      }
    }
  }

  lemma ParseNothing(mixed: bool)
    ensures Parse(PatternText([], mixed)) == Some([[]]) == OneAlternative(Atoms([], mixed))
  {}

  lemma NoAlternative()
    ensures OneAlternative(None) == None
  {}

  lemma AnchorPiece(c: CodeUnit, mixed: bool)
    requires IsAnchor(c)
    ensures Piece(c, mixed) == [c]
  {}

  lemma SameCounted(q: Text, mixed: bool)
    requires q != []
    ensures var a := Counted(q[0], q[1..]);
            Counted(q[0], PatternText(q[1..], mixed)) == a
            && (a.Some? ==> PatternText(q[1..], mixed)[a.value.1..] == PatternText(q[1..][a.value.1..], mixed))
  {
    hide PatternText, Quantifier;
    CountStays(q[1..], mixed);
    if Counted(q[0], q[1..]).Some? && Quantifier(q[1..]).None? {
      assert PatternText(q[1..], mixed)[0..] == PatternText(q[1..], mixed) && q[1..][0..] == q[1..];
    }
  }

  /** A brace that begins no count in the query begins none in the pattern. */
  lemma NoCountHere(q: Text, mixed: bool)
    requires q != [] && !IsAnchor(q[0]) && Quantifier(q).None?
    ensures Quantifier([q[0]] + PatternText(q[1..], mixed)).None?
  {
    hide PatternText;
    if q[0] == OPEN_BRACE {
      StartsAlike(q, mixed);
      CountStays(q, mixed);
    }
  }
}
