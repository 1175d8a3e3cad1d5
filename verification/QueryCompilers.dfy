/** From the words a user types to a pattern: the member filter of a template page
    and the search of the index page. */
module QueryCompilers {
  import opened Prelude
  import opened Texts
  import opened MiniRegex

  /** The characters of a list with a backslash in front. */
  function Escape(special: set<CodeUnit>, q: Text): (e: Text) {
    if q == [] then []
    else (if q[0] in special then [BACKSLASH, q[0]] else [q[0]]) + Escape(special, q[1..])
  }

  // ---- the member filter ----

  /** `- [ ] { } ( ) * + ? . , \ ^ $ | #` */
  const FILTER_SPECIAL: set<CodeUnit> := {45, 91, 93, 123, 125, 40, 41, 42, 43, 63, 46, 44, 92, 94, 36, 124, 35}

  /** Every run of white space becomes a bar. */
  function BarSpaces(q: Text): (r: Text)
    decreases |q|
  {
    if q == [] then []
    else if IsSpace(q[0]) then [BAR] + BarSpaces(TrimLeft(q[1..]))
    else [q[0]] + BarSpaces(q[1..])
  }

  /** The rewriting of the typed query; `lower` is `toLowerCase`. */
  function FilterQuery(lower: Text -> Text, input: Text): Text { lower(Trim(input)) }

  function FilterPattern(query: Text): Text { BarSpaces(Escape(FILTER_SPECIAL, query)) }

  /** The pieces between runs of white space. */
  function Terms(q: Text): (r: seq<Text>)
    ensures r != []
    decreases |q|
  {
    if q == [] then [[]]
    else if IsSpace(q[0]) then [[]] + Terms(TrimLeft(q[1..]))
    else
      var rest := Terms(q[1..]);
      [[q[0]] + rest[0]] + rest[1..]
  }

  function AllChars(ts: seq<Text>): (p: Pattern)
    ensures |p| == |ts|
  {
    seq(|ts|, i requires 0 <= i < |ts| => Chars(ts[i]))
  }

  lemma {:induction false} EscapeTrims(q: Text)
    ensures TrimLeft(Escape(FILTER_SPECIAL, q)) == Escape(FILTER_SPECIAL, TrimLeft(q))
  {
    if q != [] && IsSpace(q[0]) { EscapeTrims(q[1..]); }
  }

  lemma ParseLiteral(c: CodeUnit, escaped: bool, p: Text)
    requires if escaped then IsPunctuation(c) else c !in {BAR, OPEN_BRACE} && !IsSyntax(c)
    requires Quantifier(p).None?
    ensures Parse((if escaped then [BACKSLASH, c] else [c]) + p) == WithFront([Char(c)], Parse(p))
  {
    var front := if escaped then [BACKSLASH, c] else [c];
    assert (front + p)[|front|..] == p;
    assert Token(front + p) == Some((Char(c), |front|));
  }

  lemma ParseBar(p: Text)
    ensures Parse([BAR] + p) == if Parse(p).None? then None else Some([[]] + Parse(p).value)
  {
    assert ([BAR] + p)[1..] == p;
  }

  lemma AllCharsCons(c: CodeUnit, ts: seq<Text>)
    requires ts != []
    ensures AllChars([[c] + ts[0]] + ts[1..]) == [[Char(c)] + AllChars(ts)[0]] + AllChars(ts)[1..]
    ensures AllChars([[]] + ts) == [[]] + AllChars(ts)
  {
    assert Chars([c] + ts[0]) == [Char(c)] + Chars(ts[0]);
    assert Chars([]) == [];
  }

  /** The filter's pattern reads as one literal alternative for each term. */
  lemma {:induction false} FilterParses(q: Text)
    ensures Parse(FilterPattern(q)) == Some(AllChars(Terms(q)))
    decreases |q|, 1
  {
    hide Token, AllChars, Chars;
    if q == [] {
      AllCharsOfEmpty();
    } else if IsSpace(q[0]) {
      var r := TrimLeft(q[1..]);
      FilterParses(r);
      EscapeTrims(q[1..]);
      assert Escape(FILTER_SPECIAL, q)[1..] == Escape(FILTER_SPECIAL, q[1..]);
      ParseBar(FilterPattern(r));
      AllCharsCons(0, Terms(r));
    } else {
      FilterParsesOn(q);
    }
  }

  lemma {:induction false} FilterParsesOn(q: Text)
    requires q != [] && !IsSpace(q[0])
    ensures Parse(FilterPattern(q)) == Some(AllChars(Terms(q)))
    decreases |q|, 0
  {
    hide Token, AllChars, Chars, Parse, BarSpaces;
    FilterParses(q[1..]);
    var special := q[0] in FILTER_SPECIAL;
    BarLiteral(q[0], special, Escape(FILTER_SPECIAL, q[1..]));
    NoBraceFirst(q[1..]);
    ParseLiteral(q[0], special, FilterPattern(q[1..]));
    AllCharsCons(q[0], Terms(q[1..]));
  }

  /** The filter escapes braces, so there is no count in its pattern. */
  lemma NoBraceFirst(q: Text)
    ensures Quantifier(FilterPattern(q)).None?
  {
    assert q != [] ==> Escape(FILTER_SPECIAL, q)[0] != OPEN_BRACE;
  }

  lemma AllCharsOfEmpty()
    ensures AllChars([[]]) == [[]]
  {
    assert Chars([]) == [];
  }

  lemma BarLiteral(c: CodeUnit, escaped: bool, e: Text)
    requires !IsSpace(c)
    ensures var front := if escaped then [BACKSLASH, c] else [c]; BarSpaces(front + e) == front + BarSpaces(e)
  {
    assert ([c] + e)[1..] == e;
    if escaped { assert ([BACKSLASH, c] + e)[1..] == [c] + e; }
  }

  /** Some term is a substring, up to `canon`. */
  ghost predicate SomeTermWithin(canon: CodeUnit -> CodeUnit, ts: seq<Text>, t: Text) {
    exists k :: 0 <= k < |ts| && Within(canon, ts[k], t)
  }

  lemma AlternativesTest(canon: CodeUnit -> CodeUnit, ts: seq<Text>, t: Text)
    ensures Test(canon, AllChars(ts), t) <==> SomeTermWithin(canon, ts, t)
  {
    if Test(canon, AllChars(ts), t) {
      var a, i :| 0 <= a < |AllChars(ts)| && 0 <= i <= |t| && MatchesFrom(canon, AllChars(ts)[a], t, i);
      CharsMatch(canon, ts[a], t, i);
    }
    if SomeTermWithin(canon, ts, t) {
      var k :| 0 <= k < |ts| && Within(canon, ts[k], t);
      var i: nat :| At(canon, ts[k], t, i);
      CharsMatch(canon, ts[k], t, i);
      assert MatchesFrom(canon, AllChars(ts)[k], t, i);
    }
  }

  /** What `toLowerCase` must do for a query: keep length, white space, and every
      code unit up to case. It does so for ASCII. */
  ghost predicate KeepsCase(canon: CodeUnit -> CodeUnit, q: Text, q': Text) {
    |q'| == |q| && forall i :: 0 <= i < |q| ==> canon(q'[i]) == canon(q[i]) && (IsSpace(q'[i]) <==> IsSpace(q[i]))
  }

  lemma {:induction false} TrimLeftKeepsCase(canon: CodeUnit -> CodeUnit, q: Text, q': Text)
    requires KeepsCase(canon, q, q')
    ensures KeepsCase(canon, TrimLeft(q), TrimLeft(q'))
  {
    if q != [] && IsSpace(q[0]) { TrimLeftKeepsCase(canon, q[1..], q'[1..]); }
  }

  lemma KeepsCaseStep(canon: CodeUnit -> CodeUnit, q: Text, q': Text)
    requires q != [] && KeepsCase(canon, q, q')
    ensures canon(q'[0]) == canon(q[0]) && (IsSpace(q'[0]) <==> IsSpace(q[0])) && KeepsCase(canon, q[1..], q'[1..])
  {}

  lemma KeepsCaseCons(canon: CodeUnit -> CodeUnit, c: CodeUnit, c': CodeUnit, t: Text, t': Text)
    requires canon(c') == canon(c) && (IsSpace(c') <==> IsSpace(c)) && KeepsCase(canon, t, t')
    ensures KeepsCase(canon, [c] + t, [c'] + t')
  {}

  lemma NothingKeepsCase(canon: CodeUnit -> CodeUnit)
    ensures KeepsCase(canon, [], [])
  {}

  ghost predicate AllKeepCase(canon: CodeUnit -> CodeUnit, ts: seq<Text>, ts': seq<Text>) {
    |ts'| == |ts| && forall k :: 0 <= k < |ts| ==> KeepsCase(canon, ts[k], ts'[k])
  }

  lemma AllKeepCaseCons(canon: CodeUnit -> CodeUnit, t: Text, t': Text, ts: seq<Text>, ts': seq<Text>)
    requires KeepsCase(canon, t, t') && AllKeepCase(canon, ts, ts')
    ensures AllKeepCase(canon, [t] + ts, [t'] + ts')
    ensures ts != [] ==> ts' != [] && KeepsCase(canon, ts[0], ts'[0]) && AllKeepCase(canon, ts[1..], ts'[1..])
  {
    hide KeepsCase;
  }

  lemma TermsStep(q: Text)
    ensures q == [] ==> Terms(q) == [[]]
    ensures q != [] && IsSpace(q[0]) ==> Terms(q) == [[]] + Terms(TrimLeft(q[1..]))
    ensures q != [] && !IsSpace(q[0]) ==> Terms(q) == [[q[0]] + Terms(q[1..])[0]] + Terms(q[1..])[1..]
  {}

  /** The same terms, up to case. */
  lemma {:induction false} TermsKeepCase(canon: CodeUnit -> CodeUnit, q: Text, q': Text)
    requires KeepsCase(canon, q, q')
    ensures AllKeepCase(canon, Terms(q), Terms(q'))
    decreases |q|
  {
    hide IsSpace, KeepsCase, Terms, AllKeepCase;
    SameLength(canon, q, q');
    NothingKeepsCase(canon);
    TermsStep(q);
    TermsStep(q');
    if q == [] {
      NoneKeepCase(canon);
    } else {
      KeepsCaseStep(canon, q, q');
      if IsSpace(q[0]) {
        var r, r' := TrimLeft(q[1..]), TrimLeft(q'[1..]);
        TrimLeftKeepsCase(canon, q[1..], q'[1..]);
        TermsKeepCase(canon, r, r');
        AllKeepCaseCons(canon, [], [], Terms(r), Terms(r'));
      } else {
        var ts, ts' := Terms(q[1..]), Terms(q'[1..]);
        TermsKeepCase(canon, q[1..], q'[1..]);
        AllKeepCaseCons(canon, [], [], ts, ts');
        KeepsCaseCons(canon, q[0], q'[0], ts[0], ts'[0]);
        AllKeepCaseCons(canon, [q[0]] + ts[0], [q'[0]] + ts'[0], ts[1..], ts'[1..]);
      }
    }
  }

  lemma NoneKeepCase(canon: CodeUnit -> CodeUnit)
    ensures AllKeepCase(canon, [[]], [[]])
  {}

  lemma SameLength(canon: CodeUnit -> CodeUnit, q: Text, q': Text)
    requires KeepsCase(canon, q, q')
    ensures |q'| == |q|
  {}

  lemma WithinKeepsCase(canon: CodeUnit -> CodeUnit, q: Text, q': Text, t: Text)
    requires KeepsCase(canon, q, q')
    ensures Within(canon, q', t) <==> Within(canon, q, t)
  {
    forall i: nat ensures At(canon, q', t, i) <==> At(canon, q, t, i) {}
  }

  lemma WithinTransitive(canon: CodeUnit -> CodeUnit, a: Text, b: Text, t: Text)
    requires Within(canon, a, b) && Within(canon, b, t)
    ensures Within(canon, a, t)
  {
    var i: nat :| At(canon, a, b, i);
    var j: nat :| At(canon, b, t, j);
    forall k | 0 <= k < |a| ensures canon(t[j + i + k]) == canon(a[k]) {
      assert canon(t[j + (i + k)]) == canon(b[i + k]);
    }
    assert At(canon, a, t, j + i);
  }

  lemma WithinItself(canon: CodeUnit -> CodeUnit, t: Text)
    ensures Within(canon, t, t)
  {
    assert At(canon, t, t, 0);
  }

  /** What can be checked of two lists of terms: each term of the one has some term of
      the other within it. */
  ghost predicate Covers(canon: CodeUnit -> CodeUnit, us: seq<Text>, ts: seq<Text>) {
    forall k :: 0 <= k < |ts| ==> SomeTermWithin(canon, us, ts[k])
  }

  /** A list of terms finds whatever another finds just if it covers it. */
  lemma CoveringFinds(canon: CodeUnit -> CodeUnit, us: seq<Text>, ts: seq<Text>)
    ensures Covers(canon, us, ts) <==> forall t :: SomeTermWithin(canon, ts, t) ==> SomeTermWithin(canon, us, t)
  {
    hide Within;
    if Covers(canon, us, ts) {
      forall t | SomeTermWithin(canon, ts, t) ensures SomeTermWithin(canon, us, t) {
        var k :| 0 <= k < |ts| && Within(canon, ts[k], t);
        var j :| 0 <= j < |us| && Within(canon, us[j], ts[k]);
        WithinTransitive(canon, us[j], ts[k], t);
      }
    }
    if forall t :: SomeTermWithin(canon, ts, t) ==> SomeTermWithin(canon, us, t) {
      forall k | 0 <= k < |ts| ensures SomeTermWithin(canon, us, ts[k]) {
        WithinItself(canon, ts[k]);
        assert SomeTermWithin(canon, ts, ts[k]);
      }
    }
  }

  /** Each term as typed has a lower-cased one within it, up to case, and the other way
      round. */
  ghost predicate LowersWell(canon: CodeUnit -> CodeUnit, lower: Text -> Text, input: Text) {
    var typed, lowered := Terms(Trim(input)), Terms(FilterQuery(lower, input));
    Covers(canon, lowered, typed) && Covers(canon, typed, lowered)
  }

  /** The member filter's pattern is well formed whatever is typed, and matches a
      text just if a white-space separated term of the lower-cased trimmed input is a
      substring of it, whatever the case. */
  lemma FilterMatches(canon: CodeUnit -> CodeUnit, lower: Text -> Text, input: Text, t: Text)
    ensures var p := Parse(FilterPattern(FilterQuery(lower, input)));
            p.Some? && (Test(canon, p.value, t) <==> SomeTermWithin(canon, Terms(FilterQuery(lower, input)), t))
  {
    FilterParses(FilterQuery(lower, input));
    AlternativesTest(canon, Terms(FilterQuery(lower, input)), t);
  }

  /** It matches just the texts that have a term as typed if and only if the typed and
      the lower-cased terms cover each other; so if lower-casing changes only case. */
  lemma FilterMatchesTyped(canon: CodeUnit -> CodeUnit, lower: Text -> Text, input: Text)
    ensures var p := Parse(FilterPattern(FilterQuery(lower, input)));
            && p.Some?
            && ((forall t :: Test(canon, p.value, t) <==> SomeTermWithin(canon, Terms(Trim(input)), t))
                <==> LowersWell(canon, lower, input))
    ensures KeepsCase(canon, Trim(input), lower(Trim(input))) ==> LowersWell(canon, lower, input)
  {
    hide Parse, FilterPattern, SomeTermWithin, Covers, Test, KeepsCase;
    var typed, lowered := Terms(Trim(input)), Terms(FilterQuery(lower, input));
    FilterMatches(canon, lower, input, []);
    var p := Parse(FilterPattern(FilterQuery(lower, input))).value;
    forall t ensures Test(canon, p, t) <==> SomeTermWithin(canon, lowered, t) { FilterMatches(canon, lower, input, t); }
    CoveringFinds(canon, lowered, typed);
    CoveringFinds(canon, typed, lowered);
    if KeepsCase(canon, Trim(input), lower(Trim(input))) {
      forall t ensures SomeTermWithin(canon, lowered, t) <==> SomeTermWithin(canon, typed, t) {
        SameTermsWithin(canon, Trim(input), lower(Trim(input)), t);
      }
    }
  }

  lemma SameTermsWithin(canon: CodeUnit -> CodeUnit, q: Text, q': Text, t: Text)
    requires KeepsCase(canon, q, q')
    ensures SomeTermWithin(canon, Terms(q'), t) <==> SomeTermWithin(canon, Terms(q), t)
  {
    TermsKeepCase(canon, q, q');
    forall k | 0 <= k < |Terms(q)| ensures Within(canon, Terms(q')[k], t) <==> Within(canon, Terms(q)[k], t) {
      WithinKeepsCase(canon, Terms(q)[k], Terms(q')[k], t);
    }
  }

  lemma TermsCons(c: CodeUnit, t: Text)
    requires !IsSpace(c)
    ensures Terms([c] + t) == [[c] + Terms(t)[0]] + Terms(t)[1..]
  {
    assert ([c] + t)[1..] == t;
  }

  lemma NotWithinOne(canon: CodeUnit -> CodeUnit, q: Text, c: CodeUnit)
    requires q != [] && (|q| > 1 || canon(q[0]) != canon(c))
    ensures !Within(canon, q, [c])
  {
    forall i: nat ensures !At(canon, q, [c], i) {
      if i + |q| <= 1 { assert [c][i + 0] == c; }
    }
  }

  /** The filter made from one character does not find it if lower-casing makes it
      longer or another character that is not its other case. */
  lemma LoweredIsNotFound(canon: CodeUnit -> CodeUnit, lower: Text -> Text, c: CodeUnit, q: Text)
    requires !IsSpace(c) && lower([c]) == q && Terms(q) == [q] && q != []
    requires |q| > 1 || canon(q[0]) != canon(c)
    ensures Trim([c]) == [c] && Within(canon, [c], [c]) && !LowersWell(canon, lower, [c])
    ensures var p := Parse(FilterPattern(FilterQuery(lower, [c])));
            p.Some? && !Test(canon, p.value, [c])
  {
    hide Parse, FilterPattern;
    var t: Text := [c];
    assert Trim(t) == t;
    WithinItself(canon, t);
    FilterMatches(canon, lower, t, t);
    FilterMatchesTyped(canon, lower, t);
    var none: Text := [];
    TermsCons(c, none);
    assert [c] + none == t;
    assert Terms(t)[0] == t;
    NotWithinOne(canon, q, c);
  }

  /** U+0130, which becomes two code units in lower case. */
  lemma DottedIsNotFound(canon: CodeUnit -> CodeUnit, lower: Text -> Text)
    requires lower([0x130]) == [0x69, 0x307]
    ensures !LowersWell(canon, lower, [0x130])
    ensures var p := Parse(FilterPattern(FilterQuery(lower, [0x130])));
            p.Some? && !Test(canon, p.value, [0x130])
  {
    hide Parse, FilterPattern, Test, LowersWell;
    var q, q1, none: Text := [0x69, 0x307], [0x307], [];
    TermsCons(0x307, none);
    TermsCons(0x69, q1);
    assert [0x307] + none == q1 && [0x69] + q1 == q;
    LoweredIsNotFound(canon, lower, 0x130, q);
  }

  /** U+212A, which becomes `k`: for a pattern no case of the same letter. */
  lemma KelvinIsNotFound(canon: CodeUnit -> CodeUnit, lower: Text -> Text)
    requires lower([0x212A]) == [0x6B] && canon(0x6B) == 0x4B && canon(0x212A) == 0x212A
    ensures !LowersWell(canon, lower, [0x212A])
    ensures var p := Parse(FilterPattern(FilterQuery(lower, [0x212A])));
            p.Some? && !Test(canon, p.value, [0x212A])
  {
    hide Parse, FilterPattern, Test, LowersWell;
    var q, none: Text := [0x6B], [];
    TermsCons(0x6B, none);
    assert [0x6B] + none == q;
    LoweredIsNotFound(canon, lower, 0x212A, q);
  }

  function WithoutSpaces(q: Text): Text {
    if q == [] then [] else (if IsSpace(q[0]) then [] else [q[0]]) + WithoutSpaces(q[1..])
  }

  lemma {:induction false} TrimLeftWithoutSpaces(q: Text)
    ensures WithoutSpaces(TrimLeft(q)) == WithoutSpaces(q)
  {
    if q != [] && IsSpace(q[0]) { TrimLeftWithoutSpaces(q[1..]); }
  }

  lemma {:induction false} TrimLeftEnd(t: Text)
    requires t != [] && !IsSpace(t[|t|-1])
    ensures TrimLeft(t) != [] && TrimLeft(t)[|TrimLeft(t)|-1] == t[|t|-1]
  {
    if IsSpace(t[0]) { TrimLeftEnd(t[1..]); }
  }

  /** The terms hold the query's characters, in order, but for the white space; and
      none of a trimmed nonempty query is empty, which would match everything. */
  lemma {:induction false} TermsMean(q: Text)
    ensures Concat(Terms(q)) == WithoutSpaces(q)
    ensures q != [] && !IsSpace(q[|q|-1]) ==>
              (!IsSpace(q[0]) ==> Terms(q)[0] != []) && forall k :: 1 <= k < |Terms(q)| ==> Terms(q)[k] != []
    decreases |q|
  {
    if q != [] {
      if IsSpace(q[0]) {
        var r := TrimLeft(q[1..]);
        TermsMean(r);
        TrimLeftWithoutSpaces(q[1..]);
        var before := TrimLeftMeans(q[1..]);
        if q[1..] != [] && !IsSpace(q[|q|-1]) { TrimLeftEnd(q[1..]); }
      } else {
        TermsMean(q[1..]);
        assert q[1..] != [] ==> q[1..][|q|-2] == q[|q|-1];
      }
    }
  }

  /** The terms with the separators between them. */
  function Interleaved(terms: seq<Text>, seps: seq<Text>): Text
    requires |terms| == |seps| + 1
  {
    if seps == [] then terms[0] else terms[0] + seps[0] + Interleaved(terms[1..], seps[1..])
  }

  lemma InterleavedCons(t: Text, terms: seq<Text>, sep: Text, seps: seq<Text>)
    requires |terms| == |seps| + 1
    ensures Interleaved([t] + terms, [sep] + seps) == t + sep + Interleaved(terms, seps)
  {
    assert ([t] + terms)[1..] == terms && ([sep] + seps)[1..] == seps;
  }

  lemma InterleavedMore(c: CodeUnit, terms: seq<Text>, seps: seq<Text>)
    requires |terms| == |seps| + 1
    ensures Interleaved([[c] + terms[0]] + terms[1..], seps) == [c] + Interleaved(terms, seps)
  {
    var more := [[c] + terms[0]] + terms[1..];
    assert more[1..] == terms[1..];
    if seps != [] { assert [c] + terms[0] + seps[0] + Interleaved(terms[1..], seps[1..]) == [c] + (terms[0] + seps[0] + Interleaved(terms[1..], seps[1..])); }
  }

  predicate NoSpace(t: Text) { forall i :: 0 <= i < |t| ==> !IsSpace(t[i]) }

  predicate AllNoSpace(ts: seq<Text>) { forall k :: 0 <= k < |ts| ==> NoSpace(ts[k]) }

  predicate AllSeparate(seps: seq<Text>) { forall k :: 0 <= k < |seps| ==> seps[k] != [] && AllSpace(seps[k]) }

  lemma SeparatedMore(c: CodeUnit, before: Text, terms: seq<Text>, seps: seq<Text>)
    requires IsSpace(c) && AllSpace(before) && AllNoSpace(terms) && AllSeparate(seps)
    ensures AllNoSpace([[]] + terms) && AllSeparate([[c] + before] + seps)
  {
    hide IsSpace;
    assert AllSpace([c] + before);
  }

  lemma SolidMore(c: CodeUnit, terms: seq<Text>)
    requires !IsSpace(c) && terms != [] && AllNoSpace(terms)
    ensures AllNoSpace([[c] + terms[0]] + terms[1..])
  {
    hide IsSpace;
    assert NoSpace(terms[0]);
    assert NoSpace([c] + terms[0]);
  }

  lemma NothingSplits()
    ensures AllNoSpace([[]]) && AllSeparate([]) && Interleaved([[]], []) == []
  {}

  /** The query is cut just at its white space: it is its terms, which have none, with
      nothing but white space, and some, between one and the next. */
  lemma {:induction false} TermsSplit(q: Text) returns (seps: seq<Text>)
    ensures |Terms(q)| == |seps| + 1 && q == Interleaved(Terms(q), seps)
    ensures AllSeparate(seps) && AllNoSpace(Terms(q))
    decreases |q|
  {
    hide IsSpace, Terms, Interleaved, AllSeparate, AllNoSpace, AllSpace;
    TermsStep(q);
    if q == [] {
      seps := [];
      NothingSplits();
    } else if IsSpace(q[0]) {
      var before := TrimLeftMeans(q[1..]);
      var rest := TrimLeft(q[1..]);
      var later := TermsSplit(rest);
      seps := [[q[0]] + before] + later;
      InterleavedCons([], Terms(rest), [q[0]] + before, later);
      SeparatedMore(q[0], before, Terms(rest), later);
      assert q == [] + ([q[0]] + before) + rest;
    } else {
      seps := TermsSplit(q[1..]);
      InterleavedMore(q[0], Terms(q[1..]), seps);
      SolidMore(q[0], Terms(q[1..]));
      assert q == [q[0]] + q[1..];
    }
  }
}
