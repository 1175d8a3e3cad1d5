/** When the search finds just the names that contain what was typed: for a query that
    means the same as a pattern and as a text. */
module PlainQueries {
  import opened Prelude
  import opened EscapeCodec
  import opened MiniRegex
  import opened QueryCompilers
  import opened SearchPattern

  // ---- matches, cut out of their text ----

  /** The atoms match the whole text, wherever anchors stand. */
  ghost predicate Spells(canon: CodeUnit -> CodeUnit, atoms: seq<Atom>, u: Text)
    decreases |atoms|, |u|
  {
    if atoms == [] then u == []
    else
      match atoms[0]
      case Char(c) => u != [] && canon(u[0]) == canon(c) && Spells(canon, atoms[1..], u[1..])
      case Lowers => Spells(canon, atoms[1..], u) || (u != [] && InLowers(canon, u[0]) && Spells(canon, atoms, u[1..]))
      case Start => Spells(canon, atoms[1..], u)
      case End => Spells(canon, atoms[1..], u)
      case Repeat(c, lo, hi) =>
        (lo <= 0 && Spells(canon, atoms[1..], u))
        || (hi != Some(0) && u != [] && canon(u[0]) == canon(c) && Spells(canon, [OneLess(atoms[0])] + atoms[1..], u[1..]))
  }

  /** A match needs no more text than it takes: the part from `a`, anywhere before
      the match, to its end `e` still matches, and is what the pattern spells. */
  lemma {:induction false} Cropped(canon: CodeUnit -> CodeUnit, atoms: seq<Atom>, t: Text, a: nat, i: nat) returns (e: nat)
    requires a <= i <= |t| && MatchesFrom(canon, atoms, t, i)
    ensures i <= e <= |t| && MatchesFrom(canon, atoms, t[a..e], i - a) && Spells(canon, atoms, t[i..e])
    decreases |atoms|, |t| - i
  {
    e := i;
    if atoms != [] {
      var rest := atoms[1..];
      match atoms[0] {
        case Char(c) =>
          e := Cropped(canon, rest, t, a, i + 1);
          assert t[a..e][i - a] == t[i] && t[i..e][1..] == t[i + 1..e];
        case Lowers =>
          if MatchesFrom(canon, rest, t, i) {
            e := Cropped(canon, rest, t, a, i);
          } else {
            e := Cropped(canon, atoms, t, a, i + 1);
            assert t[a..e][i - a] == t[i] && t[i..e][1..] == t[i + 1..e];
          }
        case Repeat(c, lo, hi) =>
          if lo <= 0 && MatchesFrom(canon, rest, t, i) {
            e := Cropped(canon, rest, t, a, i);
          } else {
            e := Cropped(canon, [OneLess(atoms[0])] + rest, t, a, i + 1);
            assert t[a..e][i - a] == t[i] && t[i..e][1..] == t[i + 1..e];
          }
        case _ =>
          e := Cropped(canon, rest, t, a, i);
      }
    }
  }

  // ---- a query that is not plain does not spell itself ----

  /** Case folding keeps anchors, braces and digits apart from everything else. */
  ghost predicate KeepsMarks(canon: CodeUnit -> CodeUnit) {
    forall c, d :: IsMark(c) && canon(c) == canon(d) ==> c == d
  }

  predicate IsMark(c: CodeUnit) { IsAnchor(c) || c == OPEN_BRACE || c == CLOSE_BRACE || 48 <= c <= 57 }

  /** How many runs of the same character a text has, letters left out, behind a
      character that is `last` when folded. */
  ghost function Runs(canon: CodeUnit -> CodeUnit, t: Text, last: int): nat {
    if t == [] then 0
    else if InLowers(canon, t[0]) || canon(t[0]) == last then Runs(canon, t[1..], last)
    else 1 + Runs(canon, t[1..], canon(t[0]))
  }

  lemma {:induction false} RunsDiffer(canon: CodeUnit -> CodeUnit, t: Text, l: int, m: int)
    ensures Runs(canon, t, l) <= 1 + Runs(canon, t, m)
  {
    if t != [] {
      var k := canon(t[0]);
      RunsDiffer(canon, t[1..], l, m);
      RunsDiffer(canon, t[1..], k, m);
      RunsDiffer(canon, t[1..], l, k);
    }
  }

  /** Behind a character the text does not have, it has most runs. */
  lemma {:induction false} RunsAfresh(canon: CodeUnit -> CodeUnit, t: Text, l: int, m: int)
    requires forall i :: 0 <= i < |t| ==> canon(t[i]) != m
    ensures Runs(canon, t, l) <= Runs(canon, t, m)
  {
    if t != [] {
      var k := canon(t[0]);
      RunsAfresh(canon, t[1..], l, m);
      RunsDiffer(canon, t[1..], l, k);
    }
  }

  lemma MarkIsKept(canon: CodeUnit -> CodeUnit, c: CodeUnit)
    requires KeepsMarks(canon) && IsMark(c)
    ensures !InLowers(canon, c)
  {}

  lemma {:induction false} RunsToBrace(canon: CodeUnit -> CodeUnit, t: Text, p: nat, l: int)
    requires KeepsMarks(canon) && p < |t| && t[p] == CLOSE_BRACE && (forall i :: 0 <= i < p ==> t[i] != CLOSE_BRACE)
    requires l != canon(CLOSE_BRACE)
    ensures Runs(canon, t, l) >= 1 + Runs(canon, t[p + 1..], canon(CLOSE_BRACE))
  {
    hide InLowers;
    MarkIsKept(canon, CLOSE_BRACE);
    if p > 0 {
      RunsToBrace(canon, t[1..], p - 1, l);
      assert t[0] != CLOSE_BRACE;
      RunsToBrace(canon, t[1..], p - 1, canon(t[0]));
      assert t[1..][p..] == t[p + 1..];
    }
  }

  /** A count is two runs at least. */
  lemma RunsOfCount(canon: CodeUnit -> CodeUnit, t: Text, l: int)
    requires KeepsMarks(canon) && Quantifier(t).Some?
    ensures Runs(canon, t, l) >= 2 + Runs(canon, t[Quantifier(t).value.length..], canon(CLOSE_BRACE))
  {
    hide InLowers, Quantifier;
    var n := Quantifier(t).value.length;
    CountShape(t);
    MarkIsKept(canon, t[1]);
    MarkIsKept(canon, OPEN_BRACE);
    assert t[1] == t[1..][0] && t[2..] == t[1..][1..] && t[2..][n - 2..] == t[n..];
    RunsToBrace(canon, t[2..], n - 3, canon(t[1]));
    assert Runs(canon, t[1..], canon(OPEN_BRACE)) == 1 + Runs(canon, t[2..], canon(t[1]));
    assert Runs(canon, t, l) >= Runs(canon, t[1..], canon(OPEN_BRACE));
  }

  /** What a lead-in spells counts for nothing. */
  lemma {:induction false} LowersSpell(canon: CodeUnit -> CodeUnit, atoms: seq<Atom>, u: Text, l: int) returns (u': Text)
    requires atoms != [] && atoms[0] == Lowers && Spells(canon, atoms, u)
    ensures Spells(canon, atoms[1..], u') && Runs(canon, u, l) == Runs(canon, u', l)
    ensures AnchorFree(u') && KeepsMarks(canon) ==> AnchorFree(u)
    decreases |u|
  {
    if Spells(canon, atoms[1..], u) {
      u' := u;
    } else {
      u' := LowersSpell(canon, atoms, u[1..], l);
      if KeepsMarks(canon) && AnchorFree(u') { LetterIsNoAnchor(canon, u[0]); FirstAndRest(u); }
    }
  }

  lemma LetterIsNoAnchor(canon: CodeUnit -> CodeUnit, c: CodeUnit)
    requires KeepsMarks(canon) && InLowers(canon, c)
    ensures !IsAnchor(c)
  {}

  lemma FirstAndRest(u: Text)
    requires u != [] && !IsAnchor(u[0]) && AnchorFree(u[1..])
    ensures AnchorFree(u)
  {
    assert forall i :: 0 < i < |u| ==> u[i] == u[1..][i - 1];
  }

  /** What a repeated character spells is one run at most. */
  lemma {:induction false} RepeatSpells(canon: CodeUnit -> CodeUnit, atoms: seq<Atom>, u: Text, l: int) returns (u': Text)
    requires KeepsMarks(canon) && atoms != [] && atoms[0].Repeat? && !IsAnchor(atoms[0].c) && Spells(canon, atoms, u)
    ensures Spells(canon, atoms[1..], u') && (AnchorFree(u') ==> AnchorFree(u))
    ensures Runs(canon, u, l) <= Runs(canon, [atoms[0].c], l) + 1 + Runs(canon, u', canon(CLOSE_BRACE))
    decreases |u|
  {
    hide InLowers, AnchorFree, IsAnchor;
    var a := atoms[0];
    if a.lo <= 0 && Spells(canon, atoms[1..], u) {
      u' := u;
      RunsDiffer(canon, u, l, canon(CLOSE_BRACE));
    } else {
      var more := [OneLess(a)] + atoms[1..];
      assert more[1..] == atoms[1..] && more[0].c == a.c;
      var last := if InLowers(canon, u[0]) || canon(u[0]) == l then l else canon(u[0]);
      u' := RepeatSpells(canon, more, u[1..], last);
      if AnchorFree(u') { SameIsNoAnchor(canon, a.c, u[0]); FirstAndRest(u); }
      SameInLowers(canon, a.c, u[0]);
      OneRun(canon, a.c, l);
      OneRun(canon, a.c, last);
    }
  }

  lemma SameIsNoAnchor(canon: CodeUnit -> CodeUnit, c: CodeUnit, d: CodeUnit)
    requires KeepsMarks(canon) && canon(c) == canon(d) && !IsAnchor(c)
    ensures !IsAnchor(d)
  {}

  lemma SameInLowers(canon: CodeUnit -> CodeUnit, c: CodeUnit, d: CodeUnit)
    requires canon(c) == canon(d)
    ensures InLowers(canon, c) <==> InLowers(canon, d)
  {}

  lemma OneRun(canon: CodeUnit -> CodeUnit, c: CodeUnit, l: int)
    ensures Runs(canon, [c], l) == if InLowers(canon, c) || canon(c) == l then 0 else 1
  {
    assert [c][1..] == [];
  }

  lemma PlainStep(q: Text)
    requires q != []
    ensures IsPlainQuery(q) <==> !IsAnchor(q[0]) && Quantifier(q).None? && IsPlainQuery(q[1..])
  {
    hide Quantifier;
    assert q[0..] == q;
    assert forall i :: 0 < i < |q| ==> q[i..] == q[1..][i - 1..] && q[i] == q[1..][i - 1];
    if !IsAnchor(q[0]) && Quantifier(q).None? && IsPlainQuery(q[1..]) {
      forall i | 0 <= i < |q| ensures !IsAnchor(q[i]) && Quantifier(q[i..]).None? {
        if i > 0 { assert Quantifier(q[1..][i - 1..]).None?; }
      }
    }
    if IsPlainQuery(q) {
      forall i | 0 <= i < |q| - 1 ensures !IsAnchor(q[1..][i]) && Quantifier(q[1..][i..]).None? {
        assert q[1..][i..] == q[i + 1..] && q[1..][i] == q[i + 1];
      }
    }
  }

  lemma AnchorRuns(canon: CodeUnit -> CodeUnit, q: Text, u: Text, l: int)
    requires KeepsMarks(canon) && q != [] && IsAnchor(q[0]) && AnchorFree(u)
    requires Runs(canon, u, canon(q[0])) <= Runs(canon, q[1..], canon(q[0]))
    ensures Runs(canon, u, l) <= Runs(canon, q, l)
    ensures l != canon(q[0]) ==> Runs(canon, u, l) < Runs(canon, q, l)
  {
    hide InLowers;
    MarkIsKept(canon, q[0]);
    forall i | 0 <= i < |u| ensures canon(u[i]) != canon(q[0]) {}
    RunsAfresh(canon, u, l, canon(q[0]));
  }

  /** A character in front of what is spelled, and in front of the query. */
  lemma CharRuns(canon: CodeUnit -> CodeUnit, q: Text, u: Text, l: int) returns (l': int)
    requires q != [] && u != [] && canon(u[0]) == canon(q[0])
    ensures l' == l || l' == canon(q[0])
    ensures Runs(canon, u, l) - Runs(canon, u[1..], l') == Runs(canon, q, l) - Runs(canon, q[1..], l')
  {
    hide InLowers;
    SameInLowers(canon, u[0], q[0]);
    l' := if InLowers(canon, q[0]) || canon(q[0]) == l then l else canon(q[0]);
  }

  lemma CountRuns(canon: CodeUnit -> CodeUnit, q: Text, u: Text, u': Text, l: int)
    requires KeepsMarks(canon) && q != [] && Quantifier(q[1..]).Some?
    requires Runs(canon, u, l) <= Runs(canon, [q[0]], l) + 1 + Runs(canon, u', canon(CLOSE_BRACE))
    requires Runs(canon, u', canon(CLOSE_BRACE)) <= Runs(canon, q[1..][Quantifier(q[1..]).value.length..], canon(CLOSE_BRACE))
    ensures Runs(canon, u, l) < Runs(canon, q, l)
  {
    hide InLowers, Quantifier;
    OneRun(canon, q[0], l);
    RunsOfCount(canon, q[1..], l);
    RunsOfCount(canon, q[1..], canon(q[0]));
  }

  lemma NoAnchorLast(canon: CodeUnit -> CodeUnit, c: CodeUnit)
    requires KeepsMarks(canon) && !IsAnchor(c)
    ensures canon(c) != canon(CARET) && canon(c) != canon(DOLLAR)
  {}

  /** What a query spells has no more runs than the query, and fewer unless the query
      is plain; nor has it an anchor. */
  lemma {:induction false} SpelledRuns(canon: CodeUnit -> CodeUnit, q: Text, mixed: bool, u: Text, l: int)
    requires KeepsMarks(canon) && Atoms(q, mixed).Some? && Spells(canon, Atoms(q, mixed).value, u)
    ensures AnchorFree(u) && Runs(canon, u, l) <= Runs(canon, q, l)
    ensures !IsPlainQuery(q) && l != canon(CARET) && l != canon(DOLLAR) ==> Runs(canon, u, l) < Runs(canon, q, l)
    decreases |q|
  {
    hide InLowers, Quantifier, IsPlainQuery, Runs, AnchorFree, KeepsMarks;
    if q == [] {
      NothingSpelled(canon, l);
    } else {
      PlainStep(q);
      var atoms := Atoms(q, mixed).value;
      if IsAnchor(q[0]) {
        assert atoms[1..] == Atoms(q[1..], mixed).value;
        SpelledRuns(canon, q[1..], mixed, u, canon(q[0]));
        AnchorRuns(canon, q, u, l);
      } else {
        CharSpelled(canon, q, mixed, u, l);
      }
    }
  }

  lemma NothingSpelled(canon: CodeUnit -> CodeUnit, l: int)
    ensures AnchorFree([]) && IsPlainQuery([]) && Runs(canon, [], l) == 0
  {}

  lemma {:induction false} CharSpelled(canon: CodeUnit -> CodeUnit, q: Text, mixed: bool, u: Text, l: int)
    requires KeepsMarks(canon) && Atoms(q, mixed).Some? && Spells(canon, Atoms(q, mixed).value, u)
    requires q != [] && !IsAnchor(q[0])
    ensures AnchorFree(u) && Runs(canon, u, l) <= Runs(canon, q, l)
    ensures !IsPlainQuery(q) && l != canon(CARET) && l != canon(DOLLAR) ==> Runs(canon, u, l) < Runs(canon, q, l)
    decreases |q|, 0
  {
    hide InLowers, Quantifier, IsPlainQuery, Runs, AnchorFree, KeepsMarks;
    var atoms, a := Atoms(q, mixed).value, Counted(q[0], q[1..]).value;
    var u1 := u;
    var rest := Atoms(q[1..][a.1..], mixed).value;
    if mixed && IsUpper(q[0]) {
      u1 := LowersSpell(canon, atoms, u, l);
      assert atoms[1..] == [a.0] + rest;
    } else {
      assert atoms == [a.0] + rest;
    }
    assert ([a.0] + rest)[1..] == rest;
    if Quantifier(q[1..]).None? {
      assert q[1..][0..] == q[1..];
      var l' := CharRuns(canon, q, u1, l);
      SpelledRuns(canon, q[1..], mixed, u1[1..], l');
      SameIsNoAnchor(canon, q[0], u1[0]);
      assert AnchorFree(u1) by { FirstAndRest(u1); }
      NoAnchorLast(canon, q[0]);
      PlainStep(q);
    } else {
      var u2 := RepeatSpells(canon, [a.0] + rest, u1, l);
      SpelledRuns(canon, q[1..][a.1..], mixed, u2, canon(CLOSE_BRACE));
      CountRuns(canon, q, u1, u2, l);
    }
  }

  /** The pattern of a query that is not plain does not match the query, or matches a
      part of it that does not have as many runs. */
  lemma PartOfItself(canon: CodeUnit -> CodeUnit, q: Text, mixed: bool) returns (u: Text)
    requires KeepsMarks(canon) && !IsPlainQuery(q) && Reads(canon, q, mixed, q)
    ensures Reads(canon, q, mixed, u) && |u| < |q|
  {
    hide IsPlainQuery, KeepsMarks, MatchesFrom, Spells, Atoms;
    var atoms := Atoms(q, mixed).value;
    var b, i :| 0 <= b < 1 && 0 <= i <= |q| && MatchesFrom(canon, [atoms][b], q, i);
    var e := Cropped(canon, atoms, q, i, i);
    u := q[i..e];
    assert MatchesFrom(canon, [atoms][0], u, 0);
    SpelledRuns(canon, q, mixed, u, -1);
    assert u == q || |u| < |q|;
  }

  /** The compiled query, as it reads, matches the text. */
  ghost predicate Reads(canon: CodeUnit -> CodeUnit, q: Text, mixed: bool, t: Text) {
    Atoms(q, mixed).Some? && Test(canon, [Atoms(q, mixed).value], t)
  }

  // ---- plain queries ----

  /** The characters themselves, with the lead-ins of capitals. */
  function PlainAtoms(q: Text, mixed: bool): seq<Atom> {
    if q == [] then [] else LeadIn(q[0], mixed) + [Char(q[0])] + PlainAtoms(q[1..], mixed)
  }

  lemma {:induction false} PlainReads(q: Text, mixed: bool)
    requires IsPlainQuery(q)
    ensures Atoms(q, mixed) == Some(PlainAtoms(q, mixed))
  {
    hide Quantifier, IsPlainQuery;
    if q != [] {
      PlainStep(q);
      PlainReads(q[1..], mixed);
      if q[1..] != [] { PlainStep(q[1..]); }
      assert Quantifier(q[1..]).None? by { if q[1..] == [] { NoCountInNothing(); } }
      assert q[1..][0..] == q[1..];
    }
  }

  lemma NoCountInNothing()
    ensures Quantifier([]).None?
  {}

  lemma {:induction false} PlainIsChars(q: Text)
    ensures PlainAtoms(q, false) == Chars(q)
  {
    if q != [] {
      PlainIsChars(q[1..]);
      assert Chars(q) == [Char(q[0])] + Chars(q[1..]);
    }
  }

  // ---- the lower-case branch ----

  lemma AcceptsReads(canon: CodeUnit -> CodeUnit, lower: Text -> Text, q: Text, t: Text)
    ensures Accepts(canon, CompilePattern(lower, q), t) <==> Reads(if lower(q) == q then canon else SAME, q, lower(q) != q, t)
  {
    hide Parse, Test, Atoms;
    PatternParses(q, lower(q) != q);
  }

  /** A lower-case query finds exactly the names it is a substring of, whatever the
      case, just if it is plain: no `^`, no `$` and no count in braces. */
  lemma LowerCaseSearch(canon: CodeUnit -> CodeUnit, lower: Text -> Text, q: Text)
    requires lower(q) == q && KeepsMarks(canon)
    ensures (forall t :: Accepts(canon, CompilePattern(lower, q), t) <==> Within(canon, q, t)) <==> IsPlainQuery(q)
  {
    hide MatchesFrom, Parse, Within, IsPlainQuery, KeepsMarks, Accepts, CompilePattern;
    forall t ensures Accepts(canon, CompilePattern(lower, q), t) <==> Reads(canon, q, false, t) { AcceptsReads(canon, lower, q, t); }
    if IsPlainQuery(q) {
      PlainReads(q, false);
      PlainIsChars(q);
      forall t ensures Reads(canon, q, false, t) <==> Within(canon, q, t) { LiteralTests(canon, q, t); }
    } else {
      var t := TellsApart(canon, q);
    }
  }

  /** A text that tells a query that is not plain from its substrings. */
  lemma TellsApart(canon: CodeUnit -> CodeUnit, q: Text) returns (t: Text)
    requires KeepsMarks(canon) && !IsPlainQuery(q)
    ensures Reads(canon, q, false, t) != Within(canon, q, t)
  {
    hide Reads, IsPlainQuery, KeepsMarks;
    if Reads(canon, q, false, q) {
      t := PartOfItself(canon, q, false);
    } else {
      t := q;
      assert At(canon, q, q, 0);
    }
  }

  // ---- the mixed-case branch ----

  predicate AllLower(t: Text, i: nat, j: nat)
    requires j <= |t|
  {
    forall k :: i <= k < j ==> IsLower(t[k])
  }

  /** A character of the query may stand at `p` when the one before ends at `i`: next
      to it, or, a capital, with lower-case letters in between. */
  predicate Follows(c: CodeUnit, t: Text, i: nat, p: nat) {
    p == i || (IsUpper(c) && i <= p <= |t| && AllLower(t, i, p))
  }

  /** The query's characters stand at the given positions of the text. */
  predicate Spread(q: Text, t: Text, pos: seq<nat>) {
    && |pos| == |q|
    && forall j :: 0 <= j < |q| ==>
         && pos[j] < |t| && t[pos[j]] == q[j]
         && (j + 1 < |q| ==> Follows(q[j + 1], t, pos[j] + 1, pos[j + 1]))
  }

  /** The text has the query with only lower-case letters inserted, and only in
      front of its capitals. */
  ghost predicate OccursSpread(q: Text, t: Text) { exists pos :: Spread(q, t, pos) }

  lemma LowersSame(c: CodeUnit)
    ensures InLowers(SAME, c) <==> IsLower(c)
  {
    if IsLower(c) { assert SAME(c) == SAME(c); }
  }

  lemma SpreadCons(q: Text, t: Text, p: nat, pos: seq<nat>)
    requires q != [] && p < |t| && t[p] == q[0]
    requires Spread(q[1..], t, pos) && (|q| > 1 ==> Follows(q[1], t, p + 1, pos[0]))
    ensures Spread(q, t, [p] + pos)
  {
    var all := [p] + pos;
    forall j | 0 <= j < |q| ensures all[j] < |t| && t[all[j]] == q[j] {
      if j > 0 { assert all[j] == pos[j - 1] && q[j] == q[1..][j - 1]; }
    }
    forall j | 0 <= j < |q| - 1 ensures Follows(q[j + 1], t, all[j] + 1, all[j + 1]) {
      if j > 0 {
        assert q[j + 1] == q[1..][(j - 1) + 1] && all[j] == pos[j - 1] && all[j + 1] == pos[(j - 1) + 1];
      }
    }
  }

  lemma SpreadTail(q: Text, t: Text, pos: seq<nat>)
    requires q != [] && Spread(q, t, pos)
    ensures Spread(q[1..], t, pos[1..])
  {
    forall j | 0 <= j < |q| - 2 ensures Follows(q[1..][j + 1], t, pos[1..][j] + 1, pos[1..][j + 1]) {
      assert Follows(q[(j + 1) + 1], t, pos[j + 1] + 1, pos[(j + 1) + 1]);
    }
  }

  /** From a match to the positions. */
  lemma {:induction false} Positions(q: Text, t: Text, i: nat) returns (pos: seq<nat>)
    requires i <= |t| && MatchesFrom(SAME, PlainAtoms(q, true), t, i)
    ensures Spread(q, t, pos) && (q != [] ==> Follows(q[0], t, i, pos[0]))
    decreases |q|, |t| - i
  {
    hide Spread;
    if q == [] {
      pos := [];
      SpreadNothing(t);
    } else {
      var atoms, rest := PlainAtoms(q, true), PlainAtoms(q[1..], true);
      if IsUpper(q[0]) {
        assert atoms[1..] == [Char(q[0])] + rest && ([Char(q[0])] + rest)[1..] == rest;
        if !MatchesFrom(SAME, atoms[1..], t, i) {
          LowersSame(t[i]);
          pos := Positions(q, t, i + 1);
          return;
        }
      } else {
        assert atoms[1..] == rest;
      }
      var tail := Positions(q[1..], t, i + 1);
      SpreadCons(q, t, i, tail);
      pos := [i] + tail;
    }
  }

  lemma SpreadNothing(t: Text)
    ensures Spread([], t, [])
  {}

  /** From the positions to a match. */
  lemma {:induction false} FromPositions(q: Text, t: Text, pos: seq<nat>, i: nat)
    requires i <= |t| && Spread(q, t, pos) && (q != [] ==> Follows(q[0], t, i, pos[0]))
    ensures MatchesFrom(SAME, PlainAtoms(q, true), t, i)
    decreases |q|, |t| - i
  {
    if q != [] {
      var atoms, rest := PlainAtoms(q, true), PlainAtoms(q[1..], true);
      if i < pos[0] {
        LowersSame(t[i]);
        FromPositions(q, t, pos, i + 1);
      } else {
        SpreadTail(q, t, pos);
        if |q| > 1 { assert Follows(q[0 + 1], t, pos[0] + 1, pos[0 + 1]); }
        FromPositions(q[1..], t, pos[1..], i + 1);
        if IsUpper(q[0]) {
          assert atoms[1..] == [Char(q[0])] + rest && ([Char(q[0])] + rest)[1..] == rest;
        } else {
          assert atoms[1..] == rest;
        }
      }
    }
  }

  lemma MixedTests(q: Text, t: Text)
    ensures Test(SAME, [PlainAtoms(q, true)], t) <==> OccursSpread(q, t)
  {
    hide MatchesFrom, Spread;
    var p := [PlainAtoms(q, true)];
    if Test(SAME, p, t) {
      var b, i :| 0 <= b < |p| && 0 <= i <= |t| && MatchesFrom(SAME, p[b], t, i);
      var pos := Positions(q, t, i);
    }
    if OccursSpread(q, t) {
      var pos :| Spread(q, t, pos);
      SpreadStart(q, t, pos);
      FromPositions(q, t, pos, if q == [] then 0 else pos[0]);
      assert MatchesFrom(SAME, p[0], t, if q == [] then 0 else pos[0]);
    }
  }

  lemma SpreadStart(q: Text, t: Text, pos: seq<nat>)
    requires Spread(q, t, pos)
    ensures |pos| == |q| && (q != [] ==> pos[0] <= |t|)
  {}

  /** A query that has the literal text occurs in it. */
  lemma LiteralOccurs(q: Text, t: Text)
    requires Within(SAME, q, t)
    ensures OccursSpread(q, t)
  {
    var i: nat :| At(SAME, q, t, i);
    var pos: seq<nat> := seq(|q|, j requires 0 <= j < |q| => i + j);
    forall j | 0 <= j < |q| ensures t[pos[j]] == q[j] { assert SAME(t[i + j]) == SAME(q[j]); }
    assert Spread(q, t, pos);
  }

  lemma {:induction false} SpreadLength(q: Text, t: Text, pos: seq<nat>, j: nat)
    requires Spread(q, t, pos) && j < |q|
    ensures pos[j] >= j
  {
    if j > 0 {
      SpreadLength(q, t, pos, j - 1);
      assert Follows(q[(j - 1) + 1], t, pos[j - 1] + 1, pos[(j - 1) + 1]);
    }
  }

  /** A query with capitals finds exactly the names it occurs in with only lower-case
      letters inserted in front of its capitals, just if it is plain; so it finds every
      name that has it literally. */
  lemma MixedCaseSearch(canon: CodeUnit -> CodeUnit, lower: Text -> Text, q: Text)
    requires lower(q) != q
    ensures (forall t :: Accepts(canon, CompilePattern(lower, q), t) <==> OccursSpread(q, t)) <==> IsPlainQuery(q)
    ensures IsPlainQuery(q) ==> forall t :: Within(SAME, q, t) ==> Accepts(canon, CompilePattern(lower, q), t)
  {
    hide MatchesFrom, Parse, OccursSpread, Within, IsPlainQuery, Accepts, CompilePattern;
    forall t ensures Accepts(canon, CompilePattern(lower, q), t) <==> Reads(SAME, q, true, t) { AcceptsReads(canon, lower, q, t); }
    if IsPlainQuery(q) {
      PlainReads(q, true);
      forall t ensures Reads(SAME, q, true, t) <==> OccursSpread(q, t) { MixedTests(q, t); }
      forall t | Within(SAME, q, t) ensures OccursSpread(q, t) { LiteralOccurs(q, t); }
    } else {
      var t := TellsSpreadApart(q);
    }
  }

  lemma SameKeepsMarks()
    ensures KeepsMarks(SAME)
  {}

  lemma TellsSpreadApart(q: Text) returns (t: Text)
    requires !IsPlainQuery(q)
    ensures Reads(SAME, q, true, t) != OccursSpread(q, t)
  {
    hide Reads, IsPlainQuery, KeepsMarks;
    SameKeepsMarks();
    if Reads(SAME, q, true, q) {
      t := PartOfItself(SAME, q, true);
      if OccursSpread(q, t) {
        var pos :| Spread(q, t, pos);
        SpreadLength(q, t, pos, |q| - 1);
        assert false;
      }
    } else {
      t := q;
      assert At(SAME, q, q, 0);
      LiteralOccurs(q, q);
    }
  }

  /** The text `a{2}`. */
  const TWICE_A: Text := [97, OPEN_BRACE, 50, CLOSE_BRACE]

  lemma TwiceReads()
    ensures Atoms(TWICE_A, false) == Some([Repeat(97, 2, Some(2))])
  {
    hide Quantifier;
    var none: seq<Atom> := [];
    TwiceCount();
    assert TWICE_A[1..][3..] == [] && [Repeat(97, 2, Some(2))] + none == [Repeat(97, 2, Some(2))];
    assert Quantifier(TWICE_A).None? by { assert TWICE_A[0] != OPEN_BRACE; }
    assert LeadIn(97, false) + [Repeat(97, 2, Some(2))] + none == [Repeat(97, 2, Some(2))];
  }

  lemma TwiceCount()
    ensures Quantifier(TWICE_A[1..]) == Some(Braces(3, 2, Some(2)))
  {
    var t := TWICE_A[1..];
    assert t == [OPEN_BRACE, 50, CLOSE_BRACE] && t[1..] == [50, CLOSE_BRACE] && t[1..][1..] == [CLOSE_BRACE];
    assert DigitRun(t[1..][1..], 10) == 0 && DigitRun(t[1..], 10) == 1;
    assert t[1..][..1] == [50] && t[1..][..1][..0] == [];
    assert DigitsValue(t[1..][..1], 10) == 2;
  }

  lemma TwiceMatches(canon: CodeUnit -> CodeUnit, t: Text, i: nat)
    requires i <= |t|
    ensures MatchesFrom(canon, [Repeat(97, 2, Some(2))], t, i)
       <==> i + 2 <= |t| && canon(t[i]) == canon(97) && canon(t[i + 1]) == canon(97)
  {
    var none: seq<Atom> := [];
    var two, one, zero: Atom := Repeat(97, 2, Some(2)), Repeat(97, 1, Some(1)), Repeat(97, 0, Some(0));
    assert [two][1..] == [one][1..] == [zero][1..] == none;
    assert [OneLess(two)] + none == [one] && [OneLess(one)] + none == [zero];
    assert forall j: nat :: j <= |t| ==> MatchesFrom(canon, [zero], t, j) by { ZeroTimes(canon, t); }
    if i < |t| { assert MatchesFrom(canon, [one], t, i + 1) <==> i + 1 < |t| && canon(t[i + 1]) == canon(97); }
  }

  lemma ZeroTimes(canon: CodeUnit -> CodeUnit, t: Text)
    ensures forall j: nat :: j <= |t| ==> MatchesFrom(canon, [Repeat(97, 0, Some(0))], t, j)
  {
    assert [Repeat(97, 0, Some(0))][1..] == [];
  }

  /** `a{2}` finds `aa`, and not itself. */
  lemma CountFindsOther(canon: CodeUnit -> CodeUnit, lower: Text -> Text)
    requires lower(TWICE_A) == TWICE_A && KeepsMarks(canon)
    ensures Accepts(canon, CompilePattern(lower, TWICE_A), [97, 97])
    ensures !Accepts(canon, CompilePattern(lower, TWICE_A), TWICE_A)
  {
    hide MatchesFrom, Accepts, CompilePattern, Atoms;
    var p: Pattern := [[Repeat(97, 2, Some(2))]];
    TwiceReads();
    AcceptsReads(canon, lower, TWICE_A, [97, 97]);
    AcceptsReads(canon, lower, TWICE_A, TWICE_A);
    TwiceMatches(canon, [97, 97], 0);
    assert MatchesFrom(canon, p[0], [97, 97], 0);
    if Test(canon, p, TWICE_A) {
      var b, i :| 0 <= b < |p| && 0 <= i <= |TWICE_A| && MatchesFrom(canon, p[b], TWICE_A, i);
      TwiceMatches(canon, TWICE_A, i);
      assert false;
    }
  }
}
