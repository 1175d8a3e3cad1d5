/** How a pattern's source is cut: its tokens are the matches of the token pattern, and
    nothing else of it is left out. */
module SourceTokens {
  import opened Prelude
  import opened EscapeCodec
  import opened GroupNumbering
  import opened PatternText

  // ---- the alternatives of the token pattern ----

  predicate AllDigits(t: Text) { forall i :: 0 <= i < |t| ==> 48 <= t[i] <= 57 }

  /** `(?:[^\\\]]|\\[\S\s])*` */
  predicate IsClassBody(t: Text)
    decreases |t|
  {
    t == [] || (t[0] == 92 && |t| > 1 && IsClassBody(t[2..])) || (t[0] != 92 && t[0] != 93 && IsClassBody(t[1..]))
  }

  /** The text is matched by one alternative of
      `/\[(?:[^\\\]]|\\[\S\s])*]|\\u[\dA-Fa-f]{4}|\\x[\dA-Fa-f]{2}|\\\d+|\\[^\dux]|\(\?[!:=]|[()^]|[^()[\\^]+/`. */
  predicate Alternative(k: nat, t: Text) {
    match k
    case 1 => |t| >= 2 && t[0] == 91 && t[|t|-1] == 93 && IsClassBody(t[1..|t|-1])
    case 2 => |t| == 6 && t[0] == 92 && t[1] == 117 && AllHex(t[2..])
    case 3 => |t| == 4 && t[0] == 92 && t[1] == 120 && AllHex(t[2..])
    case 4 => |t| >= 2 && t[0] == 92 && AllDigits(t[1..])
    case 5 => |t| == 2 && t[0] == 92 && !(48 <= t[1] <= 57) && t[1] != 117 && t[1] != 120
    case 6 => |t| == 3 && t[0] == 40 && t[1] == 63 && (t[2] == 33 || t[2] == 58 || t[2] == 61)
    case 7 => |t| == 1 && (t[0] == 40 || t[0] == 41 || t[0] == 94)
    case 8 => |t| >= 1 && forall i :: 0 <= i < |t| ==> t[i] != 40 && t[i] != 41 && t[i] != 91 && t[i] != 92 && t[i] != 94
    case _ => false
  }

  /** The alternative matches the first `n` units, no more of them, and no alternative in
      front of it matches any. */
  ghost predicate ByAlternative(s: Text, n: nat, k: nat)
    requires n <= |s|
  {
    && Alternative(k, s[..n])
    && (forall j: nat, m: nat :: j < k && m <= |s| ==> !Alternative(j, s[..m]))
    && (forall m: nat :: n < m <= |s| ==> !Alternative(k, s[..m]))
  }

  /** The token pattern matches the first `n` units of the text. */
  ghost predicate TokenMatch(s: Text, n: nat) { n <= |s| && exists k :: 1 <= k <= 8 && ByAlternative(s, n, k) }

  ghost predicate NoMatch(s: Text) { forall k: nat, m: nat :: m <= |s| ==> !Alternative(k, s[..m]) }

  lemma {:induction false} BodyEndIsBody(t: Text)
    requires BodyEnd(t) > 0
    ensures var n := BodyEnd(t); t[n - 1] == 93 && IsClassBody(t[..n - 1])
    decreases |t|
  {
    var n := BodyEnd(t);
    if t[0] == CLOSE_BRACKET {
    } else if t[0] == BACKSLASH {
      BodyEndIsBody(t[2..]);
      assert t[..n - 1][2..] == t[2..][..n - 3];
    } else {
      BodyEndIsBody(t[1..]);
      assert t[..n - 1][1..] == t[1..][..n - 2];
    }
  }

  lemma {:induction false} BodyIsBodyEnd(t: Text, k: nat)
    requires k < |t| && t[k] == 93 && IsClassBody(t[..k])
    ensures BodyEnd(t) == k + 1
    decreases |t|
  {
    if k > 0 {
      assert t[..k][0] == t[0];
      if t[0] == 92 {
        assert k > 1;
        assert t[..k][2..] == t[2..][..k - 2];
        BodyIsBodyEnd(t[2..], k - 2);
      } else {
        assert t[..k][1..] == t[1..][..k - 1];
        BodyIsBodyEnd(t[1..], k - 1);
      }
    }
  }

  lemma {:induction false} DigitRunIs(t: Text, k: nat)
    requires k <= |t|
    ensures AllDigits(t[..k]) <==> k <= DecimalRun(t)
  {
    if k > 0 {
      assert t[..k][0] == t[0];
      DigitRunIs(t[1..], k - 1);
      assert t[..k][1..] == t[1..][..k - 1];
      if AllDigits(t[..k]) {
        var u, v := t[1..][..k - 1], t[..k];
        forall i | 0 <= i < |u| ensures 48 <= u[i] <= 57 { assert u[i] == v[i + 1]; }
      } else {
        var i :| 0 <= i < k && !(48 <= t[..k][i] <= 57);
        if i > 0 { assert t[1..][..k - 1][i - 1] == t[..k][i]; }
      }
    }
  }

  lemma {:induction false} PlainRunIs(t: Text, k: nat)
    requires k <= |t|
    ensures (forall i :: 0 <= i < k ==> IsPlain(t[i])) <==> k <= PlainRun(t)
  {
    if k > 0 {
      PlainRunIs(t[1..], k - 1);
      if forall i :: 0 <= i < k ==> IsPlain(t[i]) {
        assert forall i :: 0 <= i < k - 1 ==> t[1..][i] == t[i + 1];
      }
      if k <= PlainRun(t) {
        forall i | 0 <= i < k ensures IsPlain(t[i]) { if i > 0 { assert t[i] == t[1..][i - 1]; } }
      }
    }
  }

  // ---- by the first unit ----

  lemma OtherAlternatives(s: Text, k: nat, m: nat)
    requires m <= |s| && Alternative(k, s[..m])
    ensures m > 0 && 1 <= k <= 8
    ensures s[0] == 91 ==> k == 1
    ensures s[0] == 92 ==> 2 <= k <= 5
    ensures s[0] == 40 ==> 6 <= k <= 7
    ensures s[0] in {41, 94} ==> k == 7
    ensures IsPlain(s[0]) ==> k == 8
  {
    hide AllHex, AllDigits, IsClassBody;
    if m > 0 { assert s[..m][0] == s[0]; }
  }

  lemma ClassMatches(s: Text, m: nat)
    requires s != [] && s[0] == 91 && m <= |s|
    ensures Alternative(1, s[..m]) <==> m > 0 && m == PatternTokenLength(s)
  {
    var t := s[1..];
    if Alternative(1, s[..m]) {
      assert s[..m][1..m - 1] == t[..m - 2] && t[m - 2] == s[..m][m - 1];
      BodyIsBodyEnd(t, m - 2);
    }
    if m > 0 && m == PatternTokenLength(s) {
      BodyEndIsBody(t);
      assert s[..m][1..m - 1] == t[..m - 2] && t[m - 2] == s[..m][m - 1];
    }
  }

  lemma PlainMatches(s: Text, m: nat)
    requires s != [] && IsPlain(s[0]) && m <= |s|
    ensures Alternative(8, s[..m]) <==> 0 < m <= PatternTokenLength(s)
  {
    PlainRunIs(s, m);
    assert forall i :: 0 <= i < m ==> s[..m][i] == s[i];
    if Alternative(8, s[..m]) { forall i | 0 <= i < m ensures IsPlain(s[i]) { assert s[..m][i] == s[i]; } }
  }

  lemma NumberMatches(s: Text, m: nat)
    requires |s| > 1 && s[0] == 92 && IsDigit(s[1]) && m <= |s|
    ensures Alternative(4, s[..m]) <==> 2 <= m <= PatternTokenLength(s)
  {
    if m >= 2 {
      DigitRunIs(s[1..], m - 1);
      assert s[..m][1..] == s[1..][..m - 1];
    }
  }

  /** An escape that is no number: its kind by its second unit. */
  lemma EscapeMatches(s: Text, k: nat, m: nat)
    requires s != [] && s[0] == 92 && (|s| > 1 ==> !IsDigit(s[1])) && 2 <= k <= 5 && m <= |s|
    ensures Alternative(k, s[..m])
       <==> m > 0 && m == PatternTokenLength(s) && k == if s[1] == 117 then 2 else if s[1] == 120 then 3 else 5
  {
    if m >= 2 { assert s[..m][0] == s[0] && s[..m][1] == s[1]; }
    if m >= 2 && k == 4 { assert s[..m][1..][0] == s[1]; }
    if m == 6 { assert forall i :: 0 <= i < 4 ==> s[..m][2..][i] == s[2 + i]; }
    if m == 4 { assert forall i :: 0 <= i < 2 ==> s[..m][2..][i] == s[2 + i]; }
    if k == 2 && |s| >= 6 && m == 6 {
      var t := s[..m][2..];
      assert AllHex(t) <==> IsHex(t[0]) && IsHex(t[1]) && IsHex(t[2]) && IsHex(t[3]);
    }
    if k == 3 && m == 4 {
      var t := s[..m][2..];
      assert AllHex(t) <==> IsHex(t[0]) && IsHex(t[1]);
    }
  }

  lemma GroupMatches(s: Text, k: nat, m: nat)
    requires s != [] && s[0] in {40, 41, 94} && 6 <= k <= 7 && m <= |s|
    ensures Alternative(k, s[..m]) <==> (k == 7 && m == 1) || (k == 6 && m == 3 && PatternTokenLength(s) == 3)
    ensures PatternTokenLength(s) == 1 || (PatternTokenLength(s) == 3 && s[0] == 40)
  {
    if m >= 1 { assert s[..m][0] == s[0]; }
    if m == 3 { assert s[..m][1] == s[1] == s[1..][0] && s[..m][2] == s[2] == s[1..][1]; }
  }

  lemma MatchedBy(s: Text, n: nat, k: nat)
    requires n <= |s| && 1 <= k <= 8 && ByAlternative(s, n, k)
    ensures TokenMatch(s, n)
  {}

  /** Where only one alternative may match, and just up to the token's length. */
  lemma OneAlternative(s: Text, k: nat)
    requires s != [] && ((k == 1 && s[0] == 91) || (k == 8 && IsPlain(s[0])))
    ensures PatternTokenLength(s) > 0 ==> TokenMatch(s, PatternTokenLength(s))
    ensures PatternTokenLength(s) == 0 ==> NoMatch(s)
  {
    hide PatternTokenLength, Alternative;
    var n := PatternTokenLength(s);
    forall j: nat, m: nat | m <= |s| && Alternative(j, s[..m]) ensures j == k && 0 < m <= n {
      OtherAlternatives(s, j, m);
      if k == 1 { ClassMatches(s, m); } else { PlainMatches(s, m); }
    }
    if n > 0 {
      if k == 1 { ClassMatches(s, n); } else { PlainMatches(s, n); }
      MatchedBy(s, n, k);
    }
  }

  lemma NumberFirst(s: Text)
    requires |s| > 1 && s[0] == 92 && IsDigit(s[1])
    ensures PatternTokenLength(s) > 0 && TokenMatch(s, PatternTokenLength(s))
  {
    hide PatternTokenLength, Alternative;
    var n := PatternTokenLength(s);
    assert n >= 2 by { NumberLength(s); }
    forall j: nat, m: nat | m <= |s| && Alternative(j, s[..m]) ensures j >= 4 {
      OtherAlternatives(s, j, m);
      NoHexNumber(s, j, m);
    }
    forall m: nat | n < m <= |s| ensures !Alternative(4, s[..m]) { NumberMatches(s, m); }
    NumberMatches(s, n);
    MatchedBy(s, n, 4);
  }

  lemma NumberLength(s: Text)
    requires |s| > 1 && s[0] == 92 && IsDigit(s[1])
    ensures PatternTokenLength(s) >= 2
  {
    assert s[1..][0] == s[1];
  }

  lemma NoHexNumber(s: Text, j: nat, m: nat)
    requires |s| > 1 && s[0] == 92 && IsDigit(s[1]) && m <= |s| && Alternative(j, s[..m])
    ensures j != 2 && j != 3
  {
    if m >= 2 { assert s[..m][1] == s[1]; }
  }

  lemma EscapeFirst(s: Text)
    requires s != [] && s[0] == 92 && (|s| > 1 ==> !IsDigit(s[1]))
    ensures PatternTokenLength(s) > 0 ==> TokenMatch(s, PatternTokenLength(s))
    ensures PatternTokenLength(s) == 0 ==> NoMatch(s)
  {
    hide PatternTokenLength, Alternative;
    var n := PatternTokenLength(s);
    forall j: nat, m: nat | m <= |s| && Alternative(j, s[..m])
      ensures |s| > 1 && m > 0 && m == n && j == if s[1] == 117 then 2 else if s[1] == 120 then 3 else 5
    {
      OtherAlternatives(s, j, m);
      LongEnough(s, j, m);
      EscapeMatches(s, j, m);
    }
    if n > 0 {
      assert |s| > 1 by { LoneBackslash(s); }
      var k := if s[1] == 117 then 2 else if s[1] == 120 then 3 else 5;
      EscapeMatches(s, k, n);
      MatchedBy(s, n, k);
    }
  }

  lemma LongEnough(s: Text, j: nat, m: nat)
    requires 2 <= j <= 5 && m <= |s| && Alternative(j, s[..m])
    ensures m > 1
  {}

  lemma LoneBackslash(s: Text)
    requires s != [] && s[0] == 92 && PatternTokenLength(s) > 0
    ensures |s| > 1
  {}

  lemma GroupFirst(s: Text)
    requires s != [] && s[0] in {40, 41, 94}
    ensures PatternTokenLength(s) > 0 && TokenMatch(s, PatternTokenLength(s))
  {
    hide PatternTokenLength, Alternative;
    var n := PatternTokenLength(s);
    GroupMatches(s, 7, 1);
    var k := if n == 3 then 6 else 7;
    forall j: nat, m: nat | m <= |s| && Alternative(j, s[..m]) ensures j >= k && (j == k ==> m == n) {
      OtherAlternatives(s, j, m);
      GroupMatches(s, j, m);
    }
    GroupMatches(s, k, n);
    MatchedBy(s, n, k);
  }

  /** What the length of a token means: the token pattern matches there, and just so
      much; and where there is none it does not match. */
  lemma TokenIsFirstMatch(s: Text)
    ensures PatternTokenLength(s) > 0 ==> TokenMatch(s, PatternTokenLength(s))
    ensures PatternTokenLength(s) == 0 ==> NoMatch(s)
  {
    hide PatternTokenLength, Alternative;
    var n := PatternTokenLength(s);
    if s == [] {
      NothingMatches();
    } else if s[0] == 91 {
      OneAlternative(s, 1);
    } else if s[0] == 92 && |s| > 1 && IsDigit(s[1]) {
      NumberFirst(s);
    } else if s[0] == 92 {
      EscapeFirst(s);
    } else if IsPlain(s[0]) {
      OneAlternative(s, 8);
    } else {
      GroupFirst(s);
    }
  }

  lemma NothingMatches()
    ensures PatternTokenLength([]) == 0 && NoMatch([])
  {}

  // ---- the source and its tokens ----

  /** Where the tokens begin, for a source that begins at `at`. */
  function TokenPlaces(s: Text, at: nat): seq<nat>
    decreases |s|
  {
    if s == [] then []
    else
      var n := PatternTokenLength(s);
      if n == 0 then TokenPlaces(s[1..], at + 1) else [at] + TokenPlaces(s[n..], at + n)
  }

  /** Each token stands at its place and is what the token pattern matches there, the
      places ascend, and no token begins before the one in front of it has ended. */
  ghost predicate TokensStand(s: Text, toks: seq<Text>, places: seq<nat>, at: nat) {
    && |toks| == |places|
    && (forall i :: 0 <= i < |toks| ==>
          && toks[i] != [] && at <= places[i] && places[i] - at + |toks[i]| <= |s|
          && toks[i] == s[places[i] - at..places[i] - at + |toks[i]|]
          && TokenMatch(s[places[i] - at..], |toks[i]|))
    && (forall i :: 0 <= i < |toks| - 1 ==> places[i] + |toks[i]| <= places[i + 1])
  }

  /** The unit at `p` is in some token. */
  predicate InToken(toks: seq<Text>, places: seq<nat>, p: nat)
    requires |toks| == |places|
  {
    exists i :: 0 <= i < |toks| && places[i] <= p < places[i] + |toks[i]|
  }

  /** Where a unit is in no token the token pattern does not match. */
  ghost predicate RestUnmatched(s: Text, toks: seq<Text>, places: seq<nat>, at: nat)
    requires |toks| == |places|
  {
    forall p: nat :: at <= p < at + |s| && !InToken(toks, places, p) ==> NoMatch(s[p - at..])
  }

  lemma StandBehind(s: Text, k: nat, toks: seq<Text>, places: seq<nat>, at: nat)
    requires k <= |s| && TokensStand(s[k..], toks, places, at + k)
    ensures TokensStand(s, toks, places, at)
  {
    hide TokenMatch;
    forall i | 0 <= i < |toks|
      ensures places[i] - at + |toks[i]| <= |s| && toks[i] == s[places[i] - at..places[i] - at + |toks[i]|]
      ensures TokenMatch(s[places[i] - at..], |toks[i]|)
    {
      var p := places[i] - at - k;
      assert s[k..][p..] == s[p + k..];
      assert s[k..][p..p + |toks[i]|] == s[p + k..p + k + |toks[i]|];
    }
  }

  lemma StandInFront(s: Text, n: nat, toks: seq<Text>, places: seq<nat>, at: nat)
    requires 0 < n <= |s| && TokenMatch(s, n) && TokensStand(s[n..], toks, places, at + n)
    ensures TokensStand(s, [s[..n]] + toks, [at] + places, at)
  {
    hide TokenMatch;
    StandBehind(s, n, toks, places, at);
    var toks', places' := [s[..n]] + toks, [at] + places;
    assert s[0..] == s && s[0..n] == s[..n];
    forall i | 0 <= i < |toks'|
      ensures toks'[i] != [] && at <= places'[i] && places'[i] - at + |toks'[i]| <= |s|
      ensures toks'[i] == s[places'[i] - at..places'[i] - at + |toks'[i]|] && TokenMatch(s[places'[i] - at..], |toks'[i]|)
    {
      if i > 0 { assert toks'[i] == toks[i - 1] && places'[i] == places[i - 1]; }
    }
    forall i | 0 <= i < |toks'| - 1 ensures places'[i] + |toks'[i]| <= places'[i + 1] {
      assert places'[i + 1] == places[i];
      if i > 0 { assert places[i - 1] + |toks[i - 1]| <= places[(i - 1) + 1]; }
    }
  }

  lemma {:induction false} SourceIsTiled(s: Text, at: nat)
    ensures |PatternTokens(s)| == |TokenPlaces(s, at)|
    ensures TokensStand(s, PatternTokens(s), TokenPlaces(s, at), at)
    ensures RestUnmatched(s, PatternTokens(s), TokenPlaces(s, at), at)
    decreases |s|
  {
    hide PatternTokenLength, TokenMatch, NoMatch, TokensStand, InToken;
    if s == [] {
      NothingStands(at);
    } else {
      var n := PatternTokenLength(s);
      TokenIsFirstMatch(s);
      var k := if n == 0 then 1 else n;
      var toks, places := PatternTokens(s[k..]), TokenPlaces(s[k..], at + k);
      SourceIsTiled(s[k..], at + k);
      if n == 0 { StandBehind(s, 1, toks, places, at); } else { StandInFront(s, n, toks, places, at); }
      forall p: nat | at <= p < at + |s| && !InToken(PatternTokens(s), TokenPlaces(s, at), p) ensures NoMatch(s[p - at..]) {
        if p == at && n == 0 {
          assert s[0..] == s;
        } else {
          InMore(toks, places, s[..k], at, p, n > 0);
          assert p >= at + k;
          assert s[k..][p - at - k..] == s[p - at..];
        }
      }
    }
  }

  lemma NothingStands(at: nat)
    ensures TokensStand([], [], [], at)
  {}

  lemma InMore(toks: seq<Text>, places: seq<nat>, tok: Text, at: nat, p: nat, token: bool)
    requires |toks| == |places| && at <= p && (token || p > at) && |tok| > 0 && (!token ==> |tok| == 1)
    requires !InToken(if token then [tok] + toks else toks, if token then [at] + places else places, p)
    ensures !InToken(toks, places, p) && p >= at + |tok|
  {
    if token {
      var toks', places' := [tok] + toks, [at] + places;
      assert toks'[0] == tok && places'[0] == at;
      forall i | 0 <= i < |toks| ensures !(places[i] <= p < places[i] + |toks[i]|) {
        assert toks'[i + 1] == toks[i] && places'[i + 1] == places[i];
      }
    }
  }

  /** For every source: its tokens are, in order, what the token pattern matches where
      they stand, and of the units in between it matches none. */
  lemma TokensAreMatches(s: Text) returns (places: seq<nat>)
    ensures |places| == |PatternTokens(s)|
    ensures TokensStand(s, PatternTokens(s), places, 0) && RestUnmatched(s, PatternTokens(s), places, 0)
  {
    SourceIsTiled(s, 0);
    places := TokenPlaces(s, 0);
  }

  // ---- what a source says ----

  predicate NoneBroken(marks: seq<Mark>) { forall i :: 0 <= i < |marks| ==> !marks[i].kind.Broken? }

  /** The marks of the tokens of a text, one behind the other. */
  function MarksFrom(toks: seq<Text>, i: nat, at: nat): seq<Mark>
    requires i <= |toks|
    decreases |toks| - i
  {
    if i == |toks| then [] else TokenMarks(toks[i], at) + MarksFrom(toks, i + 1, at + |toks[i]|)
  }

  lemma MarksStep(toks: seq<Text>, i: nat, at: nat)
    requires i < |toks|
    ensures MarksFrom(toks, i, at) == TokenMarks(toks[i], at) + MarksFrom(toks, i + 1, at + |toks[i]|)
  {
    hide TokenMarks;
  }

  lemma {:induction false} MarksOfRest(toks: seq<Text>, first: Text, i: nat, at: nat)
    requires i <= |toks|
    ensures MarksFrom([first] + toks, i + 1, at) == MarksFrom(toks, i, at)
    decreases |toks| - i
  {
    hide TokenMarks, MarksFrom;
    var all := [first] + toks;
    if i < |toks| {
      MarksStep(all, i + 1, at);
      MarksStep(toks, i, at);
      MarksOfRest(toks, first, i + 1, at + |toks[i]|);
    } else {
      NoMarks(toks, at);
      NoMarks(all, at);
    }
  }

  lemma NoMarks(toks: seq<Text>, at: nat)
    ensures MarksFrom(toks, |toks|, at) == []
  {}

  lemma TokenIsUnbroken(tok: Text, at: nat)
    ensures NoneBroken(TokenMarks(tok, at))
  {
    BarsAreBars(tok, at);
  }

  /** A source without broken marks is the concatenation of its tokens, and its marks are
      theirs, each where its token stands; with one it is not. */
  lemma {:induction false} SourceReads(s: Text, at: nat)
    ensures NoneBroken(Scan(s, at)) <==> Concat(PatternTokens(s)) == s
    ensures NoneBroken(Scan(s, at)) ==> Scan(s, at) == MarksFrom(PatternTokens(s), 0, at)
    ensures |Concat(PatternTokens(s))| <= |s|
    decreases |s|
  {
    hide PatternTokenLength, TokenMarks, NoneBroken;
    if s == [] {
      NothingBroken();
    } else {
      var n := PatternTokenLength(s);
      if n == 0 {
        SourceReads(s[1..], at + 1);
        BrokenFirst(at, Scan(s[1..], at + 1));
      } else {
        var tok, rest := s[..n], s[n..];
        SourceReads(rest, at + n);
        TokenIsUnbroken(tok, at);
        BothUnbroken(TokenMarks(tok, at), Scan(rest, at + n));
        MarksOfRest(PatternTokens(rest), tok, 0, at + n);
        assert s == tok + rest;
        FirstToken(tok, PatternTokens(rest));
        SamePrefix(tok, Concat(PatternTokens(rest)), rest);
      }
    }
  }

  lemma NothingBroken()
    ensures NoneBroken([])
  {}

  lemma BrokenFirst(at: nat, marks: seq<Mark>)
    ensures !NoneBroken([Mark(at, Broken)] + marks)
  {
    assert ([Mark(at, Broken)] + marks)[0].kind.Broken?;
  }

  lemma FirstToken(tok: Text, toks: seq<Text>)
    ensures Concat([tok] + toks) == tok + Concat(toks)
  {
    assert ([tok] + toks)[1..] == toks;
  }

  lemma SamePrefix(a: Text, b: Text, c: Text)
    ensures a + b == a + c <==> b == c
  {
    assert (a + b)[|a|..] == b && (a + c)[|a|..] == c;
  }

  lemma BothUnbroken(a: seq<Mark>, b: seq<Mark>)
    ensures NoneBroken(a + b) <==> NoneBroken(a) && NoneBroken(b)
  {
    if NoneBroken(a + b) {
      assert forall i :: 0 <= i < |a| ==> (a + b)[i] == a[i];
      assert forall i :: 0 <= i < |b| ==> (a + b)[|a| + i] == b[i];
    }
  }
}
