/** How the body of a class is cut: its tokens are the matches of the folder's pattern,
    one behind the other. */
module ClassMatches {
  import opened Prelude
  import opened EscapeCodec
  import opened CharClass

  predicate AllOctal(t: Text) { forall i :: 0 <= i < |t| ==> 48 <= t[i] <= 55 }

  /** The text is matched by one alternative of
      `/\\u[\dA-Fa-f]{4}|\\x[\dA-Fa-f]{2}|\\[0-3][0-7]{0,2}|\\[0-7]{1,2}|\\[\S\s]|[^\\]/`. */
  predicate ClassAlternative(k: nat, t: Text) {
    match k
    case 1 => |t| == 6 && t[0] == 92 && t[1] == 117 && AllHex(t[2..])
    case 2 => |t| == 4 && t[0] == 92 && t[1] == 120 && AllHex(t[2..])
    case 3 => 2 <= |t| <= 4 && t[0] == 92 && 48 <= t[1] <= 51 && AllOctal(t[2..])
    case 4 => 2 <= |t| <= 3 && t[0] == 92 && AllOctal(t[1..])
    case 5 => |t| == 2 && t[0] == 92
    case 6 => |t| == 1 && t[0] != 92
    case _ => false
  }

  /** The alternative matches the first `n` units, no more of them, and no alternative in
      front of it matches any. */
  ghost predicate ByClassAlternative(s: Text, n: nat, k: nat)
    requires n <= |s|
  {
    && ClassAlternative(k, s[..n])
    && (forall j: nat, m: nat :: j < k && m <= |s| ==> !ClassAlternative(j, s[..m]))
    && (forall m: nat :: n < m <= |s| ==> !ClassAlternative(k, s[..m]))
  }

  ghost predicate ClassTokenMatch(s: Text, n: nat) { n <= |s| && exists k :: 1 <= k <= 6 && ByClassAlternative(s, n, k) }

  lemma {:induction false} OctalRunIs(t: Text, most: nat, k: nat)
    requires k <= |t|
    ensures AllOctal(t[..k]) && k <= most <==> k <= OctalRun(t, most)
  {
    if k > 0 && most > 0 {
      OctalRunIs(t[1..], most - 1, k - 1);
      var u, v := t[1..][..k - 1], t[..k];
      assert v == [t[0]] + u;
      if AllOctal(v) {
        assert v[0] == t[0];
        forall i | 0 <= i < |u| ensures 48 <= u[i] <= 55 { assert u[i] == v[i + 1]; }
      }
    }
  }

  /** Which alternative can match, by the first two units. */
  lemma ByFirstUnits(s: Text, k: nat, m: nat)
    requires m <= |s| && ClassAlternative(k, s[..m])
    ensures 1 <= k <= 6 && m > 0
    ensures s[0] != 92 ==> k == 6 && m == 1
    ensures s[0] == 92 ==> k <= 5 && m >= 2
    ensures s[0] == 92 && k == 1 ==> s[1] == 117 && m == 6 && AllHex(s[2..6])
    ensures s[0] == 92 && k == 2 ==> s[1] == 120 && m == 4 && AllHex(s[2..4])
    ensures s[0] == 92 && k == 3 ==> 48 <= s[1] <= 51 && AllOctal(s[2..m]) && m <= 4
    ensures s[0] == 92 && k == 4 ==> AllOctal(s[1..m]) && m <= 3
    ensures s[0] == 92 && k == 5 ==> m == 2
  {
    var t := s[..m];
    if m > 0 { assert t[0] == s[0]; }
    if m > 1 { assert t[1] == s[1] && t[2..] == s[2..m] && t[1..] == s[1..m]; }
  }

  lemma ToAlternative(s: Text, k: nat, m: nat)
    requires 0 < m <= |s|
    requires if s[0] != 92 then k == 6 && m == 1
             else m >= 2 && match k
               case 1 => s[1] == 117 && m == 6 && AllHex(s[2..6])
               case 2 => s[1] == 120 && m == 4 && AllHex(s[2..4])
               case 3 => 48 <= s[1] <= 51 && AllOctal(s[2..m]) && m <= 4
               case 4 => AllOctal(s[1..m]) && m <= 3
               case 5 => m == 2
               case _ => false
    ensures ClassAlternative(k, s[..m])
  {
    var t := s[..m];
    assert t[0] == s[0];
    if m > 1 { assert t[1] == s[1] && t[2..] == s[2..m] && t[1..] == s[1..m]; }
  }

  lemma HexIs(s: Text)
    ensures |s| >= 6 ==> (AllHex(s[2..6]) <==> IsHex(s[2]) && IsHex(s[3]) && IsHex(s[4]) && IsHex(s[5]))
    ensures |s| >= 4 ==> (AllHex(s[2..4]) <==> IsHex(s[2]) && IsHex(s[3]))
  {
    if |s| >= 6 { var t := s[2..6]; assert t[0] == s[2] && t[1] == s[3] && t[2] == s[4] && t[3] == s[5]; }
    if |s| >= 4 { var t := s[2..4]; assert t[0] == s[2] && t[1] == s[3]; }
  }

  /** An octal escape: as many digits as fit. */
  lemma OctalIs(s: Text, m: nat)
    requires |s| > 1 && s[0] == 92 && 48 <= s[1] <= 55 && 2 <= m <= |s|
    ensures s[1] <= 51 ==> (AllOctal(s[2..m]) && m <= 4 <==> m <= TokenLength(s))
    ensures s[1] >= 52 ==> (AllOctal(s[1..m]) && m <= 3 <==> m <= TokenLength(s))
  {
    var rest := s[2..];
    assert s[2..m] == rest[..m - 2] && s[1..m] == [s[1]] + s[2..m];
    OctalRunIs(rest, if s[1] <= 51 then 2 else 1, m - 2);
    if AllOctal(s[1..m]) { forall i | 0 <= i < m - 2 ensures 48 <= s[2..m][i] <= 55 { assert s[2..m][i] == s[1..m][i + 1]; } }
  }

  /** The alternative that matches at a backslash. */
  function Deciding(s: Text): nat
    requires |s| > 1 && s[0] == 92
  {
    if s[1] == 117 && |s| >= 6 && AllHex(s[2..6]) then 1
    else if s[1] == 120 && |s| >= 4 && AllHex(s[2..4]) then 2
    else if 48 <= s[1] <= 51 then 3
    else if 52 <= s[1] <= 55 then 4
    else 5
  }

  lemma LengthByDeciding(s: Text)
    requires |s| > 1 && s[0] == 92
    ensures TokenLength(s) >= 2
    ensures Deciding(s) == 1 ==> TokenLength(s) == 6
    ensures Deciding(s) == 2 ==> TokenLength(s) == 4
    ensures Deciding(s) == 5 ==> TokenLength(s) == 2
    ensures 3 <= Deciding(s) <= 4 <==> 48 <= s[1] <= 55
  {
    HexIs(s);
  }

  lemma EscapeIsFirst(s: Text)
    requires |s| > 1 && s[0] == 92
    ensures ClassTokenMatch(s, TokenLength(s))
  {
    hide ClassAlternative, TokenLength, AllHex, AllOctal;
    var n, k := TokenLength(s), Deciding(s);
    LengthByDeciding(s);
    assert AllOctal(s[2..2]) && AllOctal([]) by { NoDigits(s); }
    if 3 <= k <= 4 { OctalIs(s, n); }
    ToAlternative(s, k, n);
    forall j: nat, m: nat | m <= |s| && ClassAlternative(j, s[..m]) ensures j >= k && (j == k ==> m <= n) {
      ByFirstUnits(s, j, m);
      if 3 <= k <= 4 { OctalIs(s, m); }
      if j == 4 { FirstIsOctal(s, m); }
    }
    assert ByClassAlternative(s, n, k);
  }

  lemma FirstIsOctal(s: Text, m: nat)
    requires 2 <= m <= |s| && AllOctal(s[1..m])
    ensures 48 <= s[1] <= 55
  {
    assert s[1..m][0] == s[1];
  }

  lemma NoDigits(s: Text)
    requires |s| > 1
    ensures AllOctal(s[2..2]) && AllOctal([])
  {}

  /** What the length of a token means; none starts only at a backslash that ends the
      text. */
  lemma TokenIsFirstMatch(s: Text)
    requires s != []
    ensures TokenLength(s) > 0 ==> ClassTokenMatch(s, TokenLength(s))
    ensures TokenLength(s) == 0 <==> s == [92]
  {
    hide ClassAlternative;
    if s[0] != 92 {
      ToAlternative(s, 6, 1);
      forall j: nat, m: nat | m <= |s| && ClassAlternative(j, s[..m]) ensures j == 6 && m == 1 { ByFirstUnits(s, j, m); }
      assert ByClassAlternative(s, 1, 6);
    } else if |s| > 1 {
      EscapeIsFirst(s);
      LengthByDeciding(s);
    }
  }

  /** From each token on the text is what is left, and the token its first match. */
  ghost predicate TokensMatch(toks: seq<Text>, tail: Text) {
    forall i :: 0 <= i < |toks| ==> toks[i] != [] && ClassTokenMatch(Concat(toks[i..]) + tail, |toks[i]|)
  }

  /** The tokens are the text, one match behind the other, but for a backslash at its end
      that no token takes. */
  lemma {:induction false} TokensAreMatches(s: Text) returns (tail: Text)
    ensures s == Concat(ClassTokens(s)) + tail && tail in {[], [92]}
    ensures TokensMatch(ClassTokens(s), tail)
    decreases |s|
  {
    hide TokenLength, ClassTokenMatch;
    if s == [] {
      tail := [];
    } else {
      TokenIsFirstMatch(s);
      var n := TokenLength(s);
      if n == 0 {
        tail := s;
        assert s[1..] == [] && ClassTokens(s[1..]) == [];
      } else {
        tail := TokensAreMatches(s[n..]);
        var toks, rest := ClassTokens(s), ClassTokens(s[n..]);
        assert toks[1..] == rest && s == s[..n] + s[n..];
        assert Concat(toks) + tail == s[..n] + (Concat(rest) + tail);
        forall i | 0 <= i < |toks| ensures toks[i] != [] && ClassTokenMatch(Concat(toks[i..]) + tail, |toks[i]|) {
          if i == 0 { assert toks[0..] == toks; } else { assert toks[i..] == rest[i - 1..] && toks[i] == rest[i - 1]; }
        }
      }
    }
  }
}
