/** What normalising does to the text of a node: blanks are replaced, and nothing else is
    lost, added or moved. */
module BlankRuns {
  import opened Prelude
  import opened SpanExtraction

  /** Tab, newline, return and space. */
  predicate OneOfFour(c: CodeUnit) { c == 9 || c == 10 || c == 13 || c == 32 }

  /** The units that are none of these, in order. */
  function Solid(t: Text): seq<CodeUnit> {
    if t == [] then [] else (if OneOfFour(t[0]) then [] else [t[0]]) + Solid(t[1..])
  }

  /** For every solid unit whether a blank stands in front of it, behind the one before,
      and at last whether one stands behind them all. */
  function Gaps(t: Text): (gaps: seq<bool>)
    ensures |gaps| == |Solid(t)| + 1
  {
    if t == [] then [false]
    else if OneOfFour(t[0]) then [true] + Gaps(t[1..])[1..]
    else [false] + Gaps(t[1..])
  }

  /** The only blanks are spaces, and no two stand together. */
  predicate SinglySpaced(t: Text) {
    && (forall i :: 0 <= i < |t| && OneOfFour(t[i]) ==> t[i] == 32)
    && (forall i :: 0 <= i < |t| - 1 ==> !(t[i] == 32 && t[i + 1] == 32))
  }

  lemma BlankInFront(c: CodeUnit, t: Text)
    requires OneOfFour(c)
    ensures Solid([c] + t) == Solid(t) && Gaps([c] + t) == [true] + Gaps(t)[1..]
  {
    assert ([c] + t)[1..] == t;
  }

  lemma SolidInFront(c: CodeUnit, t: Text)
    requires !OneOfFour(c)
    ensures Solid([c] + t) == [c] + Solid(t) && Gaps([c] + t) == [false] + Gaps(t)
  {
    assert ([c] + t)[1..] == t;
  }

  lemma SpacedCons(c: CodeUnit, t: Text)
    requires SinglySpaced(t) && (OneOfFour(c) ==> c == 32 && (t != [] ==> t[0] != 32))
    ensures SinglySpaced([c] + t)
  {
    var u := [c] + t;
    forall i | 0 <= i < |u| && OneOfFour(u[i]) ensures u[i] == 32 { if i > 0 { assert u[i] == t[i - 1]; } }
    forall i | 0 <= i < |u| - 1 ensures !(u[i] == 32 && u[i + 1] == 32) {
      if i > 0 { assert u[i] == t[i - 1] && u[i + 1] == t[(i - 1) + 1]; }
    }
  }

  lemma CollapseStep(c: CodeUnit, t: Text, inRun: bool)
    ensures Collapse([c] + t, inRun)
         == if !OneOfFour(c) then [c] + Collapse(t, false)
            else if inRun then Collapse(t, true) else [32] + Collapse(t, true)
    ensures Collapse([], inRun) == []
  {
    assert ([c] + t)[1..] == t;
    assert [] + Collapse(t, true) == Collapse(t, true);
  }

  lemma NothingSpaced()
    ensures SinglySpaced([]) && Solid([]) == [] && Gaps([]) == [false]
  {}

  /** Collapsing behind a blank that was replaced, and not behind one. */
  lemma {:induction false} CollapseKeeps(v: Text, inRun: bool)
    ensures var t := Collapse(v, inRun);
            && Solid(t) == Solid(v) && SinglySpaced(t)
            && (inRun ==> (t != [] ==> t[0] != 32) && Gaps(t) == [false] + Gaps(v)[1..])
            && (!inRun ==> Gaps(t) == Gaps(v))
  {
    hide Collapse, Solid, Gaps, SinglySpaced;
    NothingSpaced();
    CollapseStep(0, [], inRun);
    if v != [] {
      var c, rest := v[0], v[1..];
      assert v == [c] + rest;
      CollapseStep(c, rest, inRun);
      CollapseKeeps(rest, OneOfFour(c));
      var u := Collapse(rest, OneOfFour(c));
      if OneOfFour(c) {
        BlankInFront(c, rest);
        BlankInFront(32, u);
        if !inRun { SpacedCons(32, u); }
      } else {
        SolidInFront(c, rest);
        SolidInFront(c, u);
        SpacedCons(c, u);
      }
    }
  }

  /** Text that is not preformatted: its solid units are kept in order, and between two
      of them, in front and behind there is one space just where there was a blank. */
  lemma NormalMeans(v: Text)
    ensures Solid(Normal(v, false)) == Solid(v)
    ensures Gaps(Normal(v, false)) == Gaps(v)
    ensures SinglySpaced(Normal(v, false))
  {
    CollapseKeeps(v, false);
  }

  /** Only one text has these solid units and these gaps, singly spaced. */
  lemma {:induction false} GapsDetermine(t: Text, u: Text)
    requires SinglySpaced(t) && SinglySpaced(u) && Solid(t) == Solid(u) && Gaps(t) == Gaps(u)
    ensures t == u
  {
    hide Solid, Gaps, SinglySpaced;
    NothingSpaced();
    if t != [] { FrontMeans(t); SaysSomething(t); }
    if u != [] { FrontMeans(u); SaysSomething(u); }
    if t != [] && u != [] {
      var t', u' := t[1..], u[1..];
      SameBehindFront(Solid(t), Solid(t'), Gaps(t), Gaps(t'), Solid(u), Solid(u'), Gaps(u), Gaps(u'), t[0], u[0]);
      GapsDetermine(t', u');
      assert t == [t[0]] + t' && u == [u[0]] + u';
    }
  }

  lemma SaysSomething(t: Text)
    requires t != []
    ensures Gaps(t)[0] || |Solid(t)| > 0
  {}

  /** What the first unit of a singly spaced text says. */
  lemma FrontMeans(t: Text)
    requires SinglySpaced(t) && t != []
    ensures var rest := t[1..];
            && SinglySpaced(rest)
            && (OneOfFour(t[0]) ==> t[0] == 32 && Solid(t) == Solid(rest) && Gaps(t) == [true] + Gaps(rest)[1..] && !Gaps(rest)[0])
            && (!OneOfFour(t[0]) ==> Solid(t) == [t[0]] + Solid(rest) && Gaps(t) == [false] + Gaps(rest))
  {
    hide Solid, Gaps;
    var c, rest := t[0], t[1..];
    assert t == [c] + rest;
    SpacedTail(t);
    if OneOfFour(c) {
      BlankInFront(c, rest);
      SolidNext(t);
    } else {
      SolidInFront(c, rest);
    }
  }

  lemma SameBehindFront(s: seq<CodeUnit>, s': seq<CodeUnit>, g: seq<bool>, g': seq<bool>,
                        r: seq<CodeUnit>, r': seq<CodeUnit>, h: seq<bool>, h': seq<bool>, c: CodeUnit, d: CodeUnit)
    requires s == r && g == h && |g'| > 0 && |h'| > 0
    requires if OneOfFour(c) then c == 32 && s == s' && g == [true] + g'[1..] && !g'[0] else s == [c] + s' && g == [false] + g'
    requires if OneOfFour(d) then d == 32 && r == r' && h == [true] + h'[1..] && !h'[0] else r == [d] + r' && h == [false] + h'
    ensures c == d && s' == r' && g' == h'
  {
    assert g[0] == h[0] && g[1..] == h[1..];
    if OneOfFour(c) {
      assert g' == [false] + g'[1..] && h' == [false] + h'[1..];
    } else {
      assert s[0] == c && r[0] == d && s[1..] == s' && r[1..] == r' && g[1..] == g' && h[1..] == h';
    }
  }

  lemma SpacedTail(t: Text)
    requires t != [] && SinglySpaced(t)
    ensures SinglySpaced(t[1..])
  {
    forall i | 0 <= i < |t| - 2 ensures !(t[1..][i] == 32 && t[1..][i + 1] == 32) {
      assert t[1..][i] == t[i + 1] && t[1..][i + 1] == t[(i + 1) + 1];
    }
  }

  /** Behind a single space there is no further blank. */
  lemma SolidNext(t: Text)
    requires t != [] && OneOfFour(t[0]) && SinglySpaced(t)
    ensures !Gaps(t[1..])[0]
  {
    assert |t| > 1 ==> !(t[0] == 32 && t[0 + 1] == 32);
  }

  // ---- preformatted text ----

  /** Without returns nothing changes. */
  lemma {:induction false} UnixStays(v: Text)
    requires 13 !in v
    ensures Normal(v, true) == v
  {
    if v != [] {
      UnixStays(v[1..]);
      assert v == [v[0]] + v[1..];
    }
  }

  /** In preformatted text a return, with the newline right behind it if there is one, is
      one newline. */
  lemma {:induction false} UnixMeans(front: Text, rest: Text)
    requires 13 !in front
    ensures (rest == [] || rest[0] != 10) ==> Normal(front + ([13] + rest), true) == front + ([10] + Normal(rest, true))
    ensures Normal(front + ([13, 10] + rest), true) == front + ([10] + Normal(rest, true))
  {
    hide Normal;
    var one, two := [13] + rest, [13, 10] + rest;
    if front == [] {
      assert front + one == one && front + two == two;
      UnixHere(rest);
    } else {
      UnixMeans(front[1..], rest);
      assert front == [front[0]] + front[1..];
      UnixNext(front[0], front[1..] + one);
      UnixNext(front[0], front[1..] + two);
      assert front + one == [front[0]] + (front[1..] + one) && front + two == [front[0]] + (front[1..] + two);
    }
  }

  lemma UnixHere(rest: Text)
    ensures (rest == [] || rest[0] != 10) ==> Normal([13] + rest, true) == [10] + Normal(rest, true)
    ensures Normal([13, 10] + rest, true) == [10] + Normal(rest, true)
  {
    assert ([13] + rest)[1..] == rest && ([13, 10] + rest)[2..] == rest;
  }

  lemma UnixNext(c: CodeUnit, t: Text)
    requires c != 13
    ensures Normal([c] + t, true) == [c] + Normal(t, true)
  {
    assert ([c] + t)[1..] == t;
  }
}
